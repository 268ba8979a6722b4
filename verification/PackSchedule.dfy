/**
 The order in which collected objects are packed when offset deltas are on: what
 has no path keeps its walk order, path-discovered blobs follow, grouped by a
 path hash. Nothing is lost or repeated, and every group is contiguous.
 */
module PackSchedule {
  import opened Options
  import opened Reachability
  import opened GitObjects
  import opened Arithmetic
  import opened DeltaFormat

  datatype Scheduled = Scheduled(oid: Oid, group: Option<nat>)

  datatype BlobItem = BlobItem(hash: nat, path: Bytes, size: nat, position: nat, oid: Oid)

  /** A 32-bit hash that takes the last byte of the path first. */
  function NameHash(path: Bytes): (h: nat)
    ensures h < 0x1_0000_0000
  {
    if path == [] then 5381 else (NameHash(path[1..]) * 33 % 0x1_0000_0000 + path[0]) % 0x1_0000_0000
  }

  const WORD32 := 0x1_0000_0000

  /** The inverse of 33 modulo 2^32, which makes each round of the hash a bijection. */
  const INVERSE_33 := 1041204193

  /** The value of a path as a number in base 33, its last byte the most significant digit. */
  function PathValue(path: Bytes): nat {
    if path == [] then 0 else PathValue(path[..|path| - 1]) + path[|path| - 1] * Pow(33, |path| - 1)
  }

  lemma {:induction false} PathValueHead(path: Bytes)
    requires path != []
    ensures PathValue(path) == path[0] + 33 * PathValue(path[1..])
    decreases |path|
  {
    var n := |path| - 1;
    if n == 0 {
      assert path[..0] == [] && path[1..] == [];
    } else {
      var front, last := path[..n], path[n];
      PathValueHead(front);
      assert path[1..][..n - 1] == front[1..] && path[1..][n - 1] == last;
      assert Pow(33, n) == 33 * Pow(33, n - 1);
    }
  }

  /** The fold from the path's end is that number, after the seed's digit, modulo 2^32: the last byte weighs most. */
  lemma {:induction false} HashIsPathValue(path: Bytes)
    ensures NameHash(path) == (PathValue(path) + 5381 * Pow(33, |path|)) % WORD32
    decreases |path|
  {
    hide PathValue, Pow;
    if path == [] {
      EmptyPath();
    } else {
      var rest := path[1..];
      HashIsPathValue(rest);
      PathValueHead(path);
      PowStep(33, |path|);
      RoundIs(PathValue(rest) + 5381 * Pow(33, |rest|), path[0]);
    }
  }

  lemma EmptyPath()
    ensures PathValue([]) == 0 && Pow(33, 0) == 1
  {
  }

  lemma RoundIs(x: nat, b: Byte)
    ensures (x % WORD32 * 33 % WORD32 + b) % WORD32 == (33 * x + b) % WORD32
  {
  }

  lemma RoundInjective(h: nat, k: nat, b: Byte)
    requires h < WORD32 && k < WORD32
    requires (h * 33 % WORD32 + b) % WORD32 == (k * 33 % WORD32 + b) % WORD32
    ensures h == k
  {
    assert h * 33 % WORD32 == k * 33 % WORD32;
    Undo(h);
    Undo(k);
  }

  lemma Undo(h: nat)
    requires h < WORD32
    ensures (h * 33 % WORD32) * INVERSE_33 % WORD32 == h
  {
    var q := h * 33 / WORD32;
    var x := (h * 33 - q * WORD32) * INVERSE_33;
    assert x == WORD32 * (8 * h - q * INVERSE_33) + h;
    DivModUnique(x, WORD32, 8 * h - q * INVERSE_33, h);
  }

  /** Under a common leading part, two paths get one group exactly when what follows it hashes alike. */
  lemma {:induction false} SuffixDecides(prefix: Bytes, a: Bytes, b: Bytes)
    ensures NameHash(prefix + a) == NameHash(prefix + b) <==> NameHash(a) == NameHash(b)
    decreases |prefix|
  {
    if prefix == [] {
      assert prefix + a == a && prefix + b == b;
    } else {
      var p, q := prefix + a, prefix + b;
      assert p[1..] == prefix[1..] + a && q[1..] == prefix[1..] + b;
      SuffixDecides(prefix[1..], a, b);
      if NameHash(p) == NameHash(q) {
        RoundInjective(NameHash(p[1..]), NameHash(q[1..]), prefix[0]);
      }
    }
  }

  // ------------------------------------------------------------------- order

  predicate LexLess(a: Bytes, b: Bytes) {
    b != [] && (a == [] || a[0] < b[0] || (a[0] == b[0] && LexLess(a[1..], b[1..])))
  }

  lemma {:induction false} LexTrichotomy(a: Bytes, b: Bytes)
    ensures a == b || LexLess(a, b) || LexLess(b, a)
    decreases |a|
  {
    if a != [] && b != [] && a[0] == b[0] {
      LexTrichotomy(a[1..], b[1..]);
      assert a == [a[0]] + a[1..] && b == [b[0]] + b[1..];
    }
  }

  lemma {:induction false} LexTransitive(a: Bytes, b: Bytes, c: Bytes)
    requires LexLess(a, b) && LexLess(b, c)
    ensures LexLess(a, c)
    decreases |a|
  {
    if a != [] && a[0] == b[0] == c[0] {
      LexTransitive(a[1..], b[1..], c[1..]);
    }
  }

  /** By hash, then exact path, then size, then collection order. */
  predicate Before(a: BlobItem, b: BlobItem) {
    || a.hash < b.hash
    || (a.hash == b.hash && LexLess(a.path, b.path))
    || (a.hash == b.hash && a.path == b.path && (a.size < b.size || (a.size == b.size && a.position < b.position)))
  }

  /** At the first byte where they differ, or where one ends, `a` is the smaller. */
  ghost predicate FirstDiffers(a: Bytes, b: Bytes, k: nat) {
    k <= |a| && k < |b| && a[..k] == b[..k] && (k == |a| || a[k] < b[k])
  }

  lemma {:induction false} LexIsFirstDifference(a: Bytes, b: Bytes)
    ensures LexLess(a, b) <==> exists k: nat :: FirstDiffers(a, b, k)
    decreases |a|
  {
    if LexLess(a, b) {
      var k := DifferenceAt(a, b);
    }
    forall k: nat | FirstDiffers(a, b, k)
      ensures LexLess(a, b)
    {
      DifferenceOrders(a, b, k);
    }
  }

  lemma {:induction false} DifferenceAt(a: Bytes, b: Bytes) returns (k: nat)
    requires LexLess(a, b)
    ensures FirstDiffers(a, b, k)
    decreases |a|
  {
    k := 0;
    if a != [] && a[0] == b[0] {
      var rest := DifferenceAt(a[1..], b[1..]);
      k := rest + 1;
      assert a[..k] == [a[0]] + a[1..][..rest] && b[..k] == [b[0]] + b[1..][..rest];
    }
  }

  lemma {:induction false} DifferenceOrders(a: Bytes, b: Bytes, k: nat)
    requires FirstDiffers(a, b, k)
    ensures LexLess(a, b)
    decreases k
  {
    if k > 0 {
      assert a[0] == a[..k][0] == b[..k][0] == b[0];
      assert a[1..][..k - 1] == a[..k][1..] && b[1..][..k - 1] == b[..k][1..];
      DifferenceOrders(a[1..], b[1..], k - 1);
    }
  }

  /** Grouped blobs are ordered by group, then bytewise by path, then by size, then as collected. */
  lemma OrderMeans(items: seq<BlobItem>, i: nat, j: nat)
    requires Sorted(items) && i < j < |items|
    ensures var a, b := items[i], items[j];
      && a.hash <= b.hash
      && (a.hash == b.hash ==> a.path == b.path || exists k: nat :: FirstDiffers(a.path, b.path, k))
      && (a.hash == b.hash && a.path == b.path ==> a.size <= b.size)
      && (a.hash == b.hash && a.path == b.path && a.size == b.size ==> a.position < b.position)
  {
    hide LexLess;
    assert Before(items[i], items[j]);
    LexIsFirstDifference(items[i].path, items[j].path);
    NotBelowItself(items[i].path);
  }

  lemma {:induction false} NotBelowItself(a: Bytes)
    ensures !LexLess(a, a)
    decreases |a|
  {
    if a != [] {
      NotBelowItself(a[1..]);
    }
  }

  lemma BeforeTransitive(a: BlobItem, b: BlobItem, c: BlobItem)
    requires Before(a, b) && Before(b, c)
    ensures Before(a, c)
  {
    if a.hash == b.hash == c.hash && LexLess(a.path, b.path) && LexLess(b.path, c.path) {
      LexTransitive(a.path, b.path, c.path);
    }
  }

  lemma BeforeTotal(a: BlobItem, b: BlobItem)
    requires a.position != b.position
    ensures Before(a, b) || Before(b, a)
  {
    LexTrichotomy(a.path, b.path);
  }

  ghost predicate Sorted(s: seq<BlobItem>) {
    forall i, j :: 0 <= i < j < |s| ==> Before(s[i], s[j])
  }

  ghost predicate DistinctPositions(s: seq<BlobItem>) {
    forall i, j :: 0 <= i < j < |s| ==> s[i].position != s[j].position
  }

  method SortBlobs(items: seq<BlobItem>) returns (sorted: seq<BlobItem>)
    requires DistinctPositions(items)
    ensures Sorted(sorted) && multiset(sorted) == multiset(items)
    ensures multiset(ItemOids(sorted)) == multiset(ItemOids(items))
  {
    sorted := [];
    for i := 0 to |items|
      invariant Sorted(sorted) && multiset(sorted) == multiset(items[..i])
      invariant multiset(ItemOids(sorted)) == multiset(ItemOids(items[..i]))
    {
      var x := items[i];
      NotAmong(items, i, sorted);
      assert items[..i + 1] == items[..i] + [x];
      assert ItemOids(items[..i + 1]) == ItemOids(items[..i]) + [x.oid];
      sorted := InsertSorted(sorted, x);
    }
    assert items[..|items|] == items;
  }

  lemma NotAmong(items: seq<BlobItem>, i: nat, s: seq<BlobItem>)
    requires DistinctPositions(items) && i < |items| && multiset(s) == multiset(items[..i])
    ensures forall k :: 0 <= k < |s| ==> s[k].position != items[i].position
  {
    forall k | 0 <= k < |s|
      ensures s[k].position != items[i].position
    {
      assert s[k] in multiset(s);
      assert s[k] in items[..i];
    }
  }

  method InsertSorted(s: seq<BlobItem>, x: BlobItem) returns (r: seq<BlobItem>)
    requires Sorted(s) && forall k :: 0 <= k < |s| ==> s[k].position != x.position
    ensures Sorted(r) && multiset(r) == multiset(s) + multiset{x}
    ensures multiset(ItemOids(r)) == multiset(ItemOids(s)) + multiset{x.oid}
  {
    hide Before, Sorted, ItemOids;
    var k := 0;
    while k < |s| && Before(s[k], x)
      invariant k <= |s| && forall i :: 0 <= i < k ==> Before(s[i], x)
    {
      k := k + 1;
    }
    r := s[..k] + [x] + s[k..];
    InsertedSorted(s, k, x);
    InsertedCounts(s, k, x);
  }

  /** Between the smaller items and the first larger one is the right place. */
  lemma InsertedSorted(s: seq<BlobItem>, k: nat, x: BlobItem)
    requires Sorted(s) && k <= |s| && forall i :: 0 <= i < k ==> Before(s[i], x)
    requires k < |s| ==> !Before(s[k], x) && s[k].position != x.position
    ensures Sorted(s[..k] + [x] + s[k..])
  {
    hide Before;
    forall i | k <= i < |s|
      ensures Before(x, s[i])
    {
      BeforeTotal(s[k], x);
      if i > k {
        BeforeTransitive(x, s[k], s[i]);
      }
    }
    var r := s[..k] + [x] + s[k..];
    assert forall i :: 0 <= i < |r| ==> r[i] == if i < k then s[i] else if i == k then x else s[i - 1];
  }

  lemma InsertedCounts(s: seq<BlobItem>, k: nat, x: BlobItem)
    requires k <= |s|
    ensures multiset(s[..k] + [x] + s[k..]) == multiset(s) + multiset{x}
    ensures multiset(ItemOids(s[..k] + [x] + s[k..])) == multiset(ItemOids(s)) + multiset{x.oid}
  {
    var a, b := s[..k], s[k..];
    assert s == a + b;
    assert ItemOids(a + [x] + b) == ItemOids(a) + [x.oid] + ItemOids(b);
    assert ItemOids(s) == ItemOids(a) + ItemOids(b);
  }

  // ---------------------------------------------------------------- schedule

  ghost function Oids(s: seq<Scheduled>): seq<Oid> {
    seq(|s|, i requires 0 <= i < |s| => s[i].oid)
  }

  ghost predicate GroupsContiguous(s: seq<Scheduled>) {
    forall i, j, k :: 0 <= i <= j <= k < |s| && s[i].group.Some? && s[k].group == s[i].group ==>
      s[j].group == s[i].group
  }

  /** Path-discovered blobs get their path's group; everything else stays ungrouped. */
  function GroupOf(objects: Objects, paths: map<Oid, Bytes>, oid: Oid): Option<nat> {
    if oid in paths && oid in objects && objects[oid].BlobObject? then Some(NameHash(paths[oid])) else None
  }

  function ItemFor(objects: Objects, paths: map<Oid, Bytes>, oid: Oid, position: nat): BlobItem
    requires GroupOf(objects, paths, oid).Some?
  {
    BlobItem(NameHash(paths[oid]), paths[oid], objects[oid].size, position, oid)
  }

  /** Grouped exactly if it is a blob found under a path, and then by that path's hash. */
  ghost predicate RightGroup(objects: Objects, paths: map<Oid, Bytes>, s: Scheduled) {
    && (s.group.Some? <==> s.oid in paths && s.oid in objects && objects[s.oid].BlobObject?)
    && (s.group.Some? ==> s.group.value == NameHash(paths[s.oid]))
  }

  lemma GroupsRight(objects: Objects, paths: map<Oid, Bytes>, collected: seq<Oid>, fixed: seq<Scheduled>,
                    sorted: seq<BlobItem>, grouped: seq<Scheduled>)
    requires forall i :: 0 <= i < |fixed| ==> fixed[i].group == None && GroupOf(objects, paths, fixed[i].oid) == None
    requires |grouped| == |sorted| && forall i :: 0 <= i < |sorted| ==> ItemOk(objects, paths, collected, sorted[i])
    requires forall i :: 0 <= i < |sorted| ==> grouped[i] == Scheduled(sorted[i].oid, Some(sorted[i].hash))
    ensures forall i :: 0 <= i < |fixed + grouped| ==> RightGroup(objects, paths, (fixed + grouped)[i])
  {
    hide NameHash;
    forall i | 0 <= i < |grouped|
      ensures RightGroup(objects, paths, grouped[i])
    {
      assert ItemOk(objects, paths, collected, sorted[i]);
    }
  }

  /** What has no group, in collection order. */
  ghost function Ungrouped(objects: Objects, paths: map<Oid, Bytes>, s: seq<Oid>): seq<Oid> {
    if s == [] then []
    else Ungrouped(objects, paths, s[..|s| - 1]) + if GroupOf(objects, paths, s[|s| - 1]).None? then [s[|s| - 1]]
      else []
  }

  /** Separate what keeps its order from the path-discovered blobs. */
  method SplitCollected(objects: Objects, collected: seq<Oid>, paths: map<Oid, Bytes>)
    returns (fixed: seq<Scheduled>, blobs: seq<BlobItem>)
    ensures multiset(Oids(fixed)) + multiset(ItemOids(blobs)) == multiset(collected)
    ensures Oids(fixed) == Ungrouped(objects, paths, collected)
    ensures forall i :: 0 <= i < |fixed| ==> fixed[i].group == None && GroupOf(objects, paths, fixed[i].oid) == None
    ensures forall i :: 0 <= i < |blobs| ==> ItemOk(objects, paths, collected, blobs[i])
    ensures DistinctPositions(blobs)
  {
    hide NameHash, GroupOf, SplitOk;
    fixed, blobs := [], [];
    SplitNothing(objects, paths, collected);
    for n := 0 to |collected|
      invariant SplitOk(objects, paths, collected, n, fixed, blobs)
    {
      var oid := collected[n];
      if GroupOf(objects, paths, oid).None? {
        SplitFixed(objects, paths, collected, n, fixed, blobs);
        fixed := fixed + [Scheduled(oid, None)];
      } else {
        SplitBlob(objects, paths, collected, n, fixed, blobs);
        GroupedBlob(objects, paths, oid);
        blobs := blobs + [ItemFor(objects, paths, oid, n)];
      }
    }
    SplitAll(objects, paths, collected, fixed, blobs);
  }

  /** The first n collected objects, split. */
  ghost predicate SplitOk(objects: Objects, paths: map<Oid, Bytes>, collected: seq<Oid>, n: nat, fixed: seq<Scheduled>,
                          blobs: seq<BlobItem>)
    requires n <= |collected|
  {
    && multiset(Oids(fixed)) + multiset(ItemOids(blobs)) == multiset(collected[..n])
    && Oids(fixed) == Ungrouped(objects, paths, collected[..n])
    && (forall i :: 0 <= i < |fixed| ==> fixed[i].group == None && GroupOf(objects, paths, fixed[i].oid) == None)
    && (forall i :: 0 <= i < |blobs| ==> blobs[i].position < n && ItemOk(objects, paths, collected, blobs[i]))
    && DistinctPositions(blobs)
  }

  lemma SplitNothing(objects: Objects, paths: map<Oid, Bytes>, collected: seq<Oid>)
    ensures SplitOk(objects, paths, collected, 0, [], [])
  {
    assert collected[..0] == [];
    OidsNil();
  }

  lemma SplitAll(objects: Objects, paths: map<Oid, Bytes>, collected: seq<Oid>, fixed: seq<Scheduled>,
                 blobs: seq<BlobItem>)
    requires SplitOk(objects, paths, collected, |collected|, fixed, blobs)
    ensures multiset(Oids(fixed)) + multiset(ItemOids(blobs)) == multiset(collected)
    ensures Oids(fixed) == Ungrouped(objects, paths, collected)
    ensures forall i :: 0 <= i < |fixed| ==> fixed[i].group == None && GroupOf(objects, paths, fixed[i].oid) == None
    ensures forall i :: 0 <= i < |blobs| ==> ItemOk(objects, paths, collected, blobs[i])
    ensures DistinctPositions(blobs)
  {
    hide GroupOf, Ungrouped, Oids, ItemOids, ItemOk;
    assert collected[..|collected|] == collected;
  }

  lemma SplitFixed(objects: Objects, paths: map<Oid, Bytes>, collected: seq<Oid>, n: nat, fixed: seq<Scheduled>,
                   blobs: seq<BlobItem>)
    requires n < |collected| && SplitOk(objects, paths, collected, n, fixed, blobs)
    requires GroupOf(objects, paths, collected[n]).None?
    ensures SplitOk(objects, paths, collected, n + 1, fixed + [Scheduled(collected[n], None)], blobs)
  {
    hide GroupOf, Ungrouped, Oids, ItemOids, ItemOk;
    var oid := collected[n];
    assert collected[..n + 1] == collected[..n] + [oid];
    UngroupedSnoc(objects, paths, collected[..n], oid);
    OidsSnoc(fixed, Scheduled(oid, None));
    OneMore(collected[..n], oid, Oids(fixed), ItemOids(blobs));
  }

  lemma SplitBlob(objects: Objects, paths: map<Oid, Bytes>, collected: seq<Oid>, n: nat, fixed: seq<Scheduled>,
                  blobs: seq<BlobItem>)
    requires n < |collected| && SplitOk(objects, paths, collected, n, fixed, blobs)
    requires GroupOf(objects, paths, collected[n]).Some?
    ensures SplitOk(objects, paths, collected, n + 1, fixed, blobs + [ItemFor(objects, paths, collected[n], n)])
  {
    hide NameHash, GroupOf, Ungrouped, Oids, ItemOids, ItemOk;
    var oid := collected[n];
    var item := ItemFor(objects, paths, oid, n);
    assert collected[..n + 1] == collected[..n] + [oid];
    UngroupedSnoc(objects, paths, collected[..n], oid);
    GroupedBlob(objects, paths, oid);
    ItemIsOk(objects, paths, collected, n);
    ItemOidsSnoc(blobs, item);
    OneMore(collected[..n], oid, Oids(fixed), ItemOids(blobs));
  }

  lemma ItemIsOk(objects: Objects, paths: map<Oid, Bytes>, collected: seq<Oid>, n: nat)
    requires n < |collected| && GroupOf(objects, paths, collected[n]).Some?
    ensures ItemOk(objects, paths, collected, ItemFor(objects, paths, collected[n], n))
  {
    hide NameHash;
  }

  lemma OneMore(s: seq<Oid>, x: Oid, a: seq<Oid>, b: seq<Oid>)
    requires multiset(a) + multiset(b) == multiset(s)
    ensures multiset(a + [x]) + multiset(b) == multiset(s + [x]) && multiset(a) + multiset(b + [x]) == multiset(s + [x])
  {
  }

  lemma OidsNil()
    ensures Oids([]) == [] && ItemOids([]) == []
  {
  }

  lemma OidsSnoc(s: seq<Scheduled>, x: Scheduled)
    ensures Oids(s + [x]) == Oids(s) + [x.oid]
  {
  }

  lemma ItemOidsSnoc(s: seq<BlobItem>, x: BlobItem)
    ensures ItemOids(s + [x]) == ItemOids(s) + [x.oid]
  {
  }

  lemma UngroupedSnoc(objects: Objects, paths: map<Oid, Bytes>, s: seq<Oid>, x: Oid)
    ensures Ungrouped(objects, paths, []) == []
    ensures Ungrouped(objects, paths, s + [x]) ==
            Ungrouped(objects, paths, s) + if GroupOf(objects, paths, x).None? then [x] else []
  {
    assert (s + [x])[..|s|] == s;
  }

  lemma GroupedBlob(objects: Objects, paths: map<Oid, Bytes>, oid: Oid)
    requires GroupOf(objects, paths, oid).Some?
    ensures oid in paths && oid in objects && objects[oid].BlobObject?
    ensures GroupOf(objects, paths, oid) == Some(NameHash(paths[oid]))
  {
  }

  /** The schedule, once every collected object has been found to exist; the blobs' sort keys are a ghost result. */
  method ScheduleForOfs(objects: Objects, collected: seq<Oid>, paths: map<Oid, Bytes>)
    returns (r: Result<seq<Scheduled>>, ghost blobItems: seq<BlobItem>)
    ensures r.Ok? <==> forall x :: x in collected ==> x in objects
    ensures r.Err? ==> FirstMissing(objects, collected, r.error)
    ensures r.Ok? ==> multiset(Oids(r.value)) == multiset(collected)
    ensures r.Ok? ==> Oids(r.value) == Ungrouped(objects, paths, collected) + ItemOids(blobItems)
    ensures r.Ok? ==>
            Sorted(blobItems) && forall i :: 0 <= i < |blobItems| ==> ItemOk(objects, paths, collected, blobItems[i])
    ensures r.Ok? ==> forall i :: 0 <= i < |r.value| ==> RightGroup(objects, paths, r.value[i])
    ensures r.Ok? ==> GroupsContiguous(r.value)
  {
    hide NameHash, Before, GroupOf, GroupsContiguous, RightGroup;
    blobItems := [];
    for i := 0 to |collected|
      invariant forall j :: 0 <= j < i ==> collected[j] in objects
    {
      if collected[i] !in objects {
        return Err(MissingObject(collected[i])), blobItems;
      }
    }
    var fixed, blobs := SplitCollected(objects, collected, paths);
    var sorted := SortBlobs(blobs);
    var grouped := seq(|sorted|, i requires 0 <= i < |sorted| => Scheduled(sorted[i].oid, Some(sorted[i].hash)));
    forall i | 0 <= i < |sorted|
      ensures ItemOk(objects, paths, collected, sorted[i])
    {
      assert sorted[i] in multiset(sorted);
      assert sorted[i] in blobs;
    }
    assert Oids(fixed + grouped) == Oids(fixed) + ItemOids(sorted);
    GroupsRight(objects, paths, collected, fixed, sorted, grouped);
    SortedContiguous(sorted, fixed, grouped);
    blobItems := sorted;
    r := Ok(fixed + grouped);
  }

  /** The sort key of a collected blob: its path's hash, its path, its size and its position. */
  ghost predicate ItemOk(objects: Objects, paths: map<Oid, Bytes>, collected: seq<Oid>, b: BlobItem) {
    && b.position < |collected| && collected[b.position] == b.oid
    && b.oid in objects && objects[b.oid].BlobObject? && b.size == objects[b.oid].size
    && b.oid in paths && b.path == paths[b.oid] && b.hash == NameHash(b.path)
  }

  ghost function ItemOids(s: seq<BlobItem>): seq<Oid> {
    seq(|s|, i requires 0 <= i < |s| => s[i].oid)
  }

  lemma SortedContiguous(sorted: seq<BlobItem>, fixed: seq<Scheduled>, grouped: seq<Scheduled>)
    requires Sorted(sorted) && |grouped| == |sorted|
    requires forall i :: 0 <= i < |sorted| ==> grouped[i].group == Some(sorted[i].hash)
    requires forall i :: 0 <= i < |fixed| ==> fixed[i].group == None
    ensures GroupsContiguous(fixed + grouped)
  {
    var all, n := fixed + grouped, |fixed|;
    forall i, j, k | 0 <= i <= j <= k < |all| && all[i].group.Some? && all[k].group == all[i].group
      ensures all[j].group == all[i].group
    {
      assert i >= n;
      assert i < j ==> Before(sorted[i - n], sorted[j - n]);
      assert j < k ==> Before(sorted[j - n], sorted[k - n]);
    }
  }
}
