/**
 Lists in first-seen order. The server's ordered sets, batched lookups and
 filters all keep the order in which ids were first met; this module says what
 that order is, once.
 */
module OrderedSets {
  import opened Reachability

  ghost predicate NoDuplicates(s: seq<Oid>) {
    forall i, j :: 0 <= i < j < |s| ==> s[i] != s[j]
  }

  /** The ids not in `seen`, once each, in the order of their first occurrence. */
  function NewIn(ids: seq<Oid>, seen: set<Oid>): (r: seq<Oid>)
    ensures forall x :: x in r <==> x in ids && x !in seen
    ensures NoDuplicates(r)
  {
    if ids == [] then []
    else
      var x, r := ids[|ids| - 1], NewIn(ids[..|ids| - 1], seen);
      assert ids == ids[..|ids| - 1] + [x];
      if x in seen || x in r then r else r + [x]
  }

  /** The ids in `keep`, in the order of the list. */
  function Kept(ids: seq<Oid>, keep: set<Oid>): (r: seq<Oid>)
    ensures forall x :: x in r <==> x in ids && x in keep
  {
    if ids == [] then []
    else
      var x, r := ids[|ids| - 1], Kept(ids[..|ids| - 1], keep);
      assert ids == ids[..|ids| - 1] + [x];
      if x in keep then r + [x] else r
  }

  /** Appending to the end of a list behind another. */
  lemma AppendBehind(s: seq<Oid>, a: seq<Oid>, x: Oid)
    ensures s + (a + [x]) == s + a + [x]
  {
  }

  lemma NewInNothing(seen: set<Oid>)
    ensures NewIn([], seen) == []
  {
  }

  lemma NewInSnoc(ids: seq<Oid>, x: Oid, seen: set<Oid>)
    ensures NewIn(ids + [x], seen) == if x in seen || x in ids then NewIn(ids, seen) else NewIn(ids, seen) + [x]
  {
    assert (ids + [x])[..|ids|] == ids;
  }

  lemma KeptNothing(keep: set<Oid>)
    ensures Kept([], keep) == []
  {
  }

  lemma KeptSnoc(ids: seq<Oid>, x: Oid, keep: set<Oid>)
    ensures Kept(ids + [x], keep) == if x in keep then Kept(ids, keep) + [x] else Kept(ids, keep)
  {
    assert (ids + [x])[..|ids|] == ids;
  }

  /** What a loop over `ids` has when it has taken `n` of them, and takes one more. */
  lemma NewInNext(ids: seq<Oid>, n: nat, seen: set<Oid>)
    requires n < |ids|
    ensures NewIn(ids[..0], seen) == [] && NewIn(ids[..|ids|], seen) == NewIn(ids, seen)
    ensures NewIn(ids[..n + 1], seen) ==
            if ids[n] in seen || ids[n] in ids[..n] then NewIn(ids[..n], seen) else NewIn(ids[..n], seen) + [ids[n]]
  {
    assert ids[..n + 1] == ids[..n] + [ids[n]] && ids[..|ids|] == ids;
    NewInSnoc(ids[..n], ids[n], seen);
  }

  lemma KeptNext(ids: seq<Oid>, n: nat, keep: set<Oid>)
    requires n < |ids|
    ensures Kept(ids[..n + 1], keep) == if ids[n] in keep then Kept(ids[..n], keep) + [ids[n]] else Kept(ids[..n], keep)
  {
    assert ids[..n + 1] == ids[..n] + [ids[n]];
    KeptSnoc(ids[..n], ids[n], keep);
  }

  lemma {:induction false} NewInConcat(a: seq<Oid>, b: seq<Oid>, seen: set<Oid>)
    ensures NewIn(a + b, seen) == NewIn(a, seen) + NewIn(b, seen + Elements(a))
    decreases |b|
  {
    hide NewIn;
    if b == [] {
      assert a + b == a;
      NewInNothing(seen + Elements(a));
    } else {
      var x, rest := b[|b| - 1], b[..|b| - 1];
      assert a + b == a + rest + [x] && b == rest + [x];
      NewInConcat(a, rest, seen);
      NewInSnoc(a + rest, x, seen);
      NewInSnoc(rest, x, seen + Elements(a));
      assert x in a + rest <==> x in Elements(a) || x in rest;
    }
  }

  lemma {:induction false} KeptDistinct(ids: seq<Oid>, keep: set<Oid>)
    requires NoDuplicates(ids)
    ensures NoDuplicates(Kept(ids, keep))
    decreases |ids|
  {
    if ids != [] {
      var n := |ids| - 1;
      KeptDistinct(ids[..n], keep);
      assert ids[n] !in ids[..n];
    }
  }

  /** Only what is met can be new, so ids never met do not matter. */
  lemma {:induction false} NewInLocal(ids: seq<Oid>, seen: set<Oid>, more: set<Oid>)
    requires forall x :: x in ids ==> (x in seen <==> x in more)
    ensures NewIn(ids, seen) == NewIn(ids, more)
    decreases |ids|
  {
    if ids != [] {
      assert ids[|ids| - 1] in ids && forall x :: x in ids[..|ids| - 1] ==> x in ids;
      NewInLocal(ids[..|ids| - 1], seen, more);
    }
  }

  /** Taking new ids twice is taking them once. */
  lemma {:induction false} NewInTwice(ids: seq<Oid>, seen: set<Oid>)
    ensures NewIn(NewIn(ids, {}), seen) == NewIn(ids, seen)
    decreases |ids|
  {
    hide NewIn;
    if ids == [] {
      NewInNothing({});
      NewInNothing(seen);
    } else {
      var x, front := ids[|ids| - 1], ids[..|ids| - 1];
      assert ids == front + [x];
      NewInTwice(front, seen);
      NewInSnoc(front, x, {});
      NewInSnoc(front, x, seen);
      NewInSnoc(NewIn(front, {}), x, seen);
    }
  }

  function FirstAt(ids: seq<Oid>, x: Oid): (k: nat)
    requires x in ids
    ensures k < |ids| && ids[k] == x && forall j :: 0 <= j < k ==> ids[j] != x
  {
    if ids[0] == x then 0 else 1 + FirstAt(ids[1..], x)
  }

  /** The list is ordered by first occurrence, which determines it. */
  lemma {:induction false} NewInOrder(ids: seq<Oid>, seen: set<Oid>, i: nat, j: nat)
    requires i < j < |NewIn(ids, seen)|
    ensures FirstAt(ids, NewIn(ids, seen)[i]) < FirstAt(ids, NewIn(ids, seen)[j])
    decreases |ids|
  {
    hide FirstAt;
    var r, n := NewIn(ids, seen), |ids| - 1;
    var front := NewIn(ids[..n], seen);
    assert r[i] in front;
    FirstAtFront(ids, r[i]);
    if j < |front| {
      assert r[j] in front;
      FirstAtFront(ids, r[j]);
      NewInOrder(ids[..n], seen, i, j);
    } else {
      FirstAtLast(ids, r[j]);
    }
  }

  lemma FirstAtFront(ids: seq<Oid>, x: Oid)
    requires ids != [] && x in ids[..|ids| - 1]
    ensures FirstAt(ids, x) == FirstAt(ids[..|ids| - 1], x) < |ids| - 1
  {
    var front := ids[..|ids| - 1];
    var k, m := FirstAt(ids, x), FirstAt(front, x);
    assert ids[m] == front[m] == x;
    assert k < |front| ==> front[k] == ids[k];
  }

  lemma FirstAtLast(ids: seq<Oid>, x: Oid)
    requires ids != [] && x == ids[|ids| - 1] && x !in ids[..|ids| - 1]
    ensures FirstAt(ids, x) == |ids| - 1
  {
    assert forall j :: 0 <= j < |ids| - 1 ==> ids[j] in ids[..|ids| - 1];
  }

  /** Filtering keeps the order: a kept id comes after exactly the kept ones before it. */
  lemma {:induction false} KeptAt(ids: seq<Oid>, keep: set<Oid>, k: nat)
    requires k < |ids| && ids[k] in keep
    ensures var rank := |Kept(ids[..k], keep)|; rank < |Kept(ids, keep)| && Kept(ids, keep)[rank] == ids[k]
    decreases |ids|
  {
    var n := |ids| - 1;
    if k < n {
      assert ids[..n][..k] == ids[..k];
      KeptAt(ids[..n], keep, k);
    }
  }
}
