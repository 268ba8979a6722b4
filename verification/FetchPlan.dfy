/**
 A whole fetch: classify the wants, select commits, collect their objects, add
 the directly wanted ones. The closing theorem says what the client is promised:
 with what it declared to have and the unfiltered plan it holds every object
 of the wanted history, whatever the generation numbers were.
 */
module FetchPlan {
  import opened Reachability
  import opened GitObjects
  import opened OrderedSets
  import opened CommitDiscovery
  import opened WantSelection
  import opened CollectionOrder
  import opened Collection

  /** Commit-graph records tell the truth about a commit's tree and parents (not its generation). */
  ghost predicate Truthful(g: Graph, objects: Objects) {
    forall c :: Known(g, c) ==> c in objects && objects[c] == CommitObject(g[c].info.tree, g[c].info.parents)
  }

  ghost function RootTrees(objects: Objects, ids: set<Oid>): set<Oid> {
    set c | c in ids && c in objects && objects[c].CommitObject? :: objects[c].tree
  }

  lemma RootTreeKinds(objects: Objects, kind: Oid -> Kind, ids: set<Oid>)
    requires KindsAgree(objects, kind)
    ensures forall r :: r in RootTrees(objects, ids) ==> kind(r) == Tree
  {
  }

  /** The root trees of the recognised haves; the excuse for unknown haves is that of discovery. */
  method HaveTrees(g: Graph, objects: Objects, haves: seq<Oid>)
    returns (r: Result<seq<Oid>>, records: map<Oid, CommitInfo>)
    requires Truthful(g, objects)
    ensures CacheSound(g, records)
    ensures r.Ok? ==> Elements(r.value) == RootTrees(objects, KnownAmong(g, haves))
    ensures r.Err? ==> FirstFault(g, NewIn(haves, {}), r.error)
  {
    hide NewIn, FetchedIds, Truthful, RootTrees, RootsOf, FaultAt;
    var fetched;
    var none: map<Oid, CommitInfo> := map[];
    assert none.Keys == {};
    records, fetched := PrefetchRecords(g, none, haves);
    FetchedAt(fetched);
    ghost var ids := NewIn(haves, {});
    var roots: seq<Oid> := [];
    RootsOfNothing();
    assert fetched[..0] == [];
    for i := 0 to |fetched|
      invariant roots == RootsOf(fetched[..i])
      invariant forall j :: 0 <= j < i ==> Known(g, ids[j]) || Excused(ids[j], LookupCommit(g, ids[j]))
    {
      var (have, l) := fetched[i];
      RootsOfNext(fetched, i);
      if l.Found? {
        roots := roots + [l.info.tree];
      } else if !Excused(have, l) {
        FaultHere(g, ids, i);
        return Err(l.error), records;
      }
    }
    assert fetched[..|fetched|] == fetched;
    RootsAre(g, objects, haves, fetched);
    r := Ok(roots);
  }

  /** The root trees of the lookups that succeeded, in lookup order. */
  ghost function RootsOf(fetched: seq<(Oid, Lookup)>): seq<Oid> {
    if fetched == [] then []
    else
      var l, before := fetched[|fetched| - 1].1, RootsOf(fetched[..|fetched| - 1]);
      if l.Found? then before + [l.info.tree] else before
  }

  lemma RootsOfNothing()
    ensures RootsOf([]) == []
  {
  }

  lemma RootsOfNext(fetched: seq<(Oid, Lookup)>, i: nat)
    requires i < |fetched|
    ensures RootsOf(fetched[..i + 1]) ==
            if fetched[i].1.Found? then RootsOf(fetched[..i]) + [fetched[i].1.info.tree] else RootsOf(fetched[..i])
  {
    assert fetched[..i + 1][..i] == fetched[..i];
  }

  lemma FaultHere(g: Graph, ids: seq<Oid>, i: nat)
    requires i < |ids| && !Known(g, ids[i]) && !Excused(ids[i], LookupCommit(g, ids[i]))
    requires forall j :: 0 <= j < i ==> Known(g, ids[j]) || Excused(ids[j], LookupCommit(g, ids[j]))
    ensures FirstFault(g, ids, LookupCommit(g, ids[i]).error)
  {
    assert FaultAt(g, ids, LookupCommit(g, ids[i]).error, i);
  }

  ghost predicate RootAmong(fetched: seq<(Oid, Lookup)>, x: Oid) {
    exists j :: 0 <= j < |fetched| && fetched[j].1.Found? && fetched[j].1.info.tree == x
  }

  lemma {:induction false} RootsOfAre(fetched: seq<(Oid, Lookup)>, x: Oid)
    ensures x in RootsOf(fetched) <==> RootAmong(fetched, x)
    decreases |fetched|
  {
    if fetched != [] {
      var n := |fetched| - 1;
      var front := fetched[..n];
      RootsOfAre(front, x);
      assert forall j :: 0 <= j < n ==> front[j] == fetched[j];
      if RootAmong(front, x) {
        var j :| 0 <= j < n && front[j].1.Found? && front[j].1.info.tree == x;
        assert fetched[j].1.info.tree == x;
      }
    }
  }

  /** The trees among the lookups are the root trees of the recognised haves. */
  lemma RootsAre(g: Graph, objects: Objects, haves: seq<Oid>, fetched: seq<(Oid, Lookup)>)
    requires Truthful(g, objects)
    requires forall i :: 0 <= i < |fetched| ==> fetched[i].0 in haves && fetched[i].1 == LookupCommit(g, fetched[i].0)
    requires forall h :: h in haves ==> (h, LookupCommit(g, h)) in fetched
    ensures forall x :: x in RootsOf(fetched) <==> x in RootTrees(objects, KnownAmong(g, haves))
  {
    hide RootsOf;
    forall x
      ensures x in RootsOf(fetched) <==> x in RootTrees(objects, KnownAmong(g, haves))
    {
      RootsOfAre(fetched, x);
      if RootAmong(fetched, x) {
        var j :| 0 <= j < |fetched| && fetched[j].1.Found? && fetched[j].1.info.tree == x;
        assert fetched[j].0 in KnownAmong(g, haves);
      }
      if x in RootTrees(objects, KnownAmong(g, haves)) {
        var h :| h in KnownAmong(g, haves) && h in objects && objects[h].CommitObject? && objects[h].tree == x;
        var j :| 0 <= j < |fetched| && fetched[j] == (h, LookupCommit(g, h));
      }
    }
  }

  /** Adding a commit or tag to the collected list keeps the invariant. */
  lemma BaseKeeps(objects: Objects, kind: Oid -> Kind, base: set<Oid>, roots: set<Oid>, haveRoots: set<Oid>,
                  filter: FilterSpec, have: set<Oid>, out0: seq<Oid>, x: Oid, out: seq<Oid>)
    requires WantInv(objects, kind, base, roots, haveRoots, filter, have, out0, {}, [])
    requires !IsTree(objects, x)
    requires out == if x in out0 then out0 else out0 + [x]
    ensures WantInv(objects, kind, base + {x}, roots, haveRoots, filter, have, out, {}, [])
  {
    hide Reachable, Needed;
  }

  lemma HaveIsFrom(objects: Objects, kind: Oid -> Kind, haveRoots: set<Oid>, filter: FilterSpec, have: set<Oid>)
    requires KindsAgree(objects, kind) && forall x :: x in haveRoots ==> kind(x) == Tree
    requires forall x :: x in have <==>
               TreeUnder(objects, haveRoots, x) || (filter != BlobNone && BlobUnder(objects, haveRoots, x))
    ensures HaveIs(objects, kind, haveRoots, filter, have)
  {
    hide TreeUnder, BlobUnder, KindsAgree;
    TreesAreTrees(objects, kind, haveRoots);
  }

  /** `out` is exactly the send list and what its commits need beyond the haves. */
  ghost predicate Collects(objects: Objects, toSend: seq<Oid>, haves: set<Oid>, filter: FilterSpec, out: seq<Oid>) {
    forall x :: x in out <==>
      (x in toSend || Needed(objects, RootTrees(objects, Elements(toSend)), RootTrees(objects, haves), filter, x))
  }

  /** Sending fewer objects would have collected a prefix of the same list: commits come before what only they need. */
  ghost predicate InSendOrder(objects: Objects, toSend: seq<Oid>, haves: set<Oid>, filter: FilterSpec, out: seq<Oid>) {
    forall i :: 0 <= i <= |toSend| ==> PrefixCollects(objects, toSend[..i], haves, filter, out)
  }

  ghost predicate PrefixCollects(objects: Objects, toSend: seq<Oid>, haves: set<Oid>, filter: FilterSpec, out: seq<Oid>)
  {
    exists k: nat :: k <= |out| && Collects(objects, toSend, haves, filter, out[..k])
  }

  lemma SendOrderGrows(objects: Objects, toSend: seq<Oid>, haves: set<Oid>, filter: FilterSpec, out: seq<Oid>, i: nat,
                       out': seq<Oid>)
    requires i < |toSend| && InSendOrder(objects, toSend[..i], haves, filter, out) && out <= out'
    requires Collects(objects, toSend[..i + 1], haves, filter, out')
    ensures InSendOrder(objects, toSend[..i + 1], haves, filter, out')
  {
    hide Collects;
    var more := toSend[..i + 1];
    forall j | 0 <= j <= |more|
      ensures PrefixCollects(objects, more[..j], haves, filter, out')
    {
      if j == i + 1 {
        assert more[..j] == more && out'[..|out'|] == out';
      } else {
        assert more[..j] == toSend[..i][..j];
        assert PrefixCollects(objects, toSend[..i][..j], haves, filter, out);
        var k: nat :| k <= |out| && Collects(objects, toSend[..i][..j], haves, filter, out[..k]);
        assert out'[..k] == out[..k];
      }
    }
  }

  lemma SendOrderStarts(objects: Objects, haves: set<Oid>, filter: FilterSpec)
    ensures InSendOrder(objects, [], haves, filter, [])
  {
    hide Reachable;
    assert Elements([]) == {} && RootTrees(objects, {}) == {};
    forall x
      ensures !Needed(objects, {}, RootTrees(objects, haves), filter, x)
    {
      NothingUnder(objects, x);
    }
    var none: seq<Oid> := [];
    assert none[..0] == none;
    assert Collects(objects, none, haves, filter, none[..0]);
  }

  lemma NothingUnder(objects: Objects, x: Oid)
    ensures !TreeUnder(objects, {}, x) && !BlobUnder(objects, {}, x)
  {
  }

  /** What the walk's invariant with nothing open says about the list so far. */
  lemma CollectedSoFar(objects: Objects, kind: Oid -> Kind, toSend: seq<Oid>, haves: set<Oid>, filter: FilterSpec,
                       have: set<Oid>, out: seq<Oid>)
    requires KindsAgree(objects, kind) && HaveIs(objects, kind, RootTrees(objects, haves), filter, have)
    requires WantInv(objects, kind, Elements(toSend), RootTrees(objects, Elements(toSend)), RootTrees(objects, haves),
                     filter, have, out, {}, [])
    ensures Collects(objects, toSend, haves, filter, out)
  {
    hide WantInv, HaveIs, KindsAgree, Needed;
    RootTreeKinds(objects, kind, Elements(toSend));
    WantComplete(objects, kind, Elements(toSend), RootTrees(objects, Elements(toSend)), RootTrees(objects, haves),
                 filter, have, out);
  }

  /** Why collection can fail: a have, the send list, a record, or what lies below. */
  ghost predicate CollectionFails(objects: Objects, g: Graph, toSend: seq<Oid>, haves: seq<Oid>, filter: FilterSpec,
                                  e: WalkError)
  {
    || FirstFault(g, NewIn(haves, {}), e)
    || (exists t :: TreeUnder(objects, RootTrees(objects, KnownAmong(g, haves)), t) && Unreadable(objects, t, e))
    || FirstMissing(objects, toSend, e)
    || RecordFails(objects, g, toSend, e)
    || (exists x :: x in toSend && NotSendable(objects, x, e))
    || (exists ids :: ids <= toSend && CollectFails(objects, RootTrees(objects, Elements(ids)), filter, e))
  }

  ghost predicate RecordFails(objects: Objects, g: Graph, toSend: seq<Oid>, e: WalkError) {
    exists x :: x in toSend && x in objects && objects[x].CommitObject? && !Known(g, x)
      && e == LookupCommit(g, x).error
  }

  ghost predicate NotSendable(objects: Objects, x: Oid, e: WalkError) {
    x in objects && (objects[x].TreeObject? || objects[x].BlobObject?)
      && e == UnexpectedKind(x, Commit, KindOf(objects[x]))
  }

  /** One element of the send list: a commit with what it adds, or a tag. */
  method CollectOne(objects: Objects, cache: map<Oid, CommitInfo>, id: Oid, out0: seq<Oid>, have: set<Oid>,
                    filter: FilterSpec, ghost kind: Oid -> Kind, ghost before: seq<Oid>, ghost haveRoots: set<Oid>)
    returns (r: Result<seq<Oid>>)
    requires KindsAgree(objects, kind) && HaveIs(objects, kind, haveRoots, filter, have) && NoDuplicates(out0)
    requires id in objects && (objects[id].CommitObject? ==> id in cache && cache[id].tree == objects[id].tree)
    requires WantInv(objects, kind, Elements(before), RootTrees(objects, Elements(before)), haveRoots, filter, have,
                     out0, {}, [])
    ensures r.Ok? ==> NoDuplicates(r.value) && out0 <= r.value
    ensures r.Ok? ==> var listed := if id in out0 then out0 else out0 + [id];
      r.value == if objects[id].CommitObject? then TreeOrder(objects, filter, have, listed, objects[id].tree)
        else listed
    ensures r.Ok? ==> var more := Elements(before + [id]);
      WantInv(objects, kind, more, RootTrees(objects, more), haveRoots, filter, have, r.value, {}, [])
    ensures r.Ok? ==> objects[id].CommitObject? || objects[id].TagObject?
    ensures r.Err? && !NotSendable(objects, id, r.error) ==>
              CollectFails(objects, RootTrees(objects, Elements(before + [id])), filter, r.error)
  {
    hide WantInv, HaveIs, KindsAgree, Needed, TreeUnder, BlobUnder, TreeOrder, CollectFails;
    if objects[id].TreeObject? || objects[id].BlobObject? {
      return Err(UnexpectedKind(id, Commit, KindOf(objects[id])));
    }
    ghost var base, roots := Elements(before), RootTrees(objects, Elements(before));
    var out := if id in out0 then out0 else out0 + [id];
    BaseKeeps(objects, kind, base, roots, haveRoots, filter, have, out0, id, out);
    assert base + {id} == Elements(before + [id]);
    if objects[id].CommitObject? {
      var root := cache[id].tree;
      RootTreeKinds(objects, kind, {id});
      assert root in RootTrees(objects, {id});
      assert roots + {root} == RootTrees(objects, Elements(before + [id]));
      r := WalkTree(objects, root, out, have, filter, kind, base + {id}, roots, haveRoots);
    } else {
      assert roots == RootTrees(objects, Elements(before + [id]));
      r := Ok(out);
    }
  }

  /**
   Phase II: each sent commit or tag, and exactly the objects it needs beyond the haves, in send
   order and breadth first below each commit. The ghost result is what the haves reach.
   */
  method Collect(objects: Objects, g: Graph, toSend: seq<Oid>, haves: seq<Oid>, filter: FilterSpec,
                 ghost kind: Oid -> Kind)
    returns (r: Result<seq<Oid>>, ghost reached: set<Oid>)
    requires KindsAgree(objects, kind) && Truthful(g, objects)
    ensures r.Ok? ==> NoDuplicates(r.value)
    ensures r.Ok? ==> Collects(objects, toSend, KnownAmong(g, haves), filter, r.value)
    ensures r.Ok? ==> InSendOrder(objects, toSend, KnownAmong(g, haves), filter, r.value)
    ensures r.Ok? ==> HaveIs(objects, kind, RootTrees(objects, KnownAmong(g, haves)), filter, reached)
    ensures r.Ok? ==> r.value == SentOrder(objects, filter, reached, toSend)
    ensures r.Err? ==> CollectionFails(objects, g, toSend, haves, filter, r.error)
  {
    hide WantInv, HaveIs, KindsAgree, Needed, TreeUnder, BlobUnder, Collects, InSendOrder, SentOrder, TreeOrder,
         CollectFails, FirstFault, FirstMissing, NewIn;
    reached := {};
    ghost var known := KnownAmong(g, haves);
    var haveTrees, records := HaveTrees(g, objects, haves);
    if haveTrees.Err? {
      return Err(haveTrees.error), reached;
    }
    RootTreeKinds(objects, kind, known);
    assert forall x :: x in haveTrees.value ==> x in Elements(haveTrees.value);
    var have := ExpandHaves(objects, haveTrees.value, filter, kind);
    if have.Err? {
      return Err(have.error), reached;
    }
    HaveIsFrom(objects, kind, RootTrees(objects, known), filter, have.value);
    reached := have.value;
    var loaded := LoadCommits(objects, g, records, toSend);
    if loaded.Err? {
      return Err(loaded.error), reached;
    }
    var out: seq<Oid> := [];
    EmptyInv(objects, kind, RootTrees(objects, known), filter, have.value);
    SendOrderStarts(objects, known, filter);
    NothingSent(objects, filter, have.value, toSend);
    for i := 0 to |toSend|
      invariant NoDuplicates(out) && InSendOrder(objects, toSend[..i], known, filter, out)
      invariant out == SentOrder(objects, filter, have.value, toSend[..i])
      invariant WantInv(objects, kind, Elements(toSend[..i]), RootTrees(objects, Elements(toSend[..i])),
                        RootTrees(objects, known), filter, have.value, out, {}, [])
    {
      assert toSend[..i + 1] == toSend[..i] + [toSend[i]] && toSend[i] in toSend;
      ghost var out0 := out;
      SentOrderNext(objects, filter, have.value, toSend, i);
      var step := CollectOne(objects, loaded.value, toSend[i], out, have.value, filter, kind, toSend[..i],
                             RootTrees(objects, known));
      if step.Err? {
        assert toSend[..i + 1] <= toSend;
        return Err(step.error), reached;
      }
      out := step.value;
      CollectedSoFar(objects, kind, toSend[..i + 1], known, filter, have.value, out);
      SendOrderGrows(objects, toSend, known, filter, out0, i, out);
    }
    assert toSend[..|toSend|] == toSend;
    CollectedSoFar(objects, kind, toSend, known, filter, have.value, out);
    r := Ok(out);
  }

  lemma NothingSent(objects: Objects, filter: FilterSpec, have: set<Oid>, toSend: seq<Oid>)
    ensures toSend[..0] == [] && SentOrder(objects, filter, have, []) == []
  {
  }

  /** Records for every commit of a send list. */
  method LoadCommits(objects: Objects, g: Graph, records: map<Oid, CommitInfo>, toSend: seq<Oid>)
    returns (r: Result<map<Oid, CommitInfo>>)
    requires Truthful(g, objects) && CacheSound(g, records)
    ensures r.Ok? ==> forall x :: x in toSend ==> x in objects
    ensures r.Ok? ==>
            forall x :: x in toSend && objects[x].CommitObject? ==> x in r.value && r.value[x].tree == objects[x].tree
    ensures r.Err? ==> FirstMissing(objects, toSend, r.error) || RecordFails(objects, g, toSend, r.error)
  {
    hide FirstMissing, FetchedIds, NewIn;
    var commits := Classify(objects, toSend);
    if commits.Err? {
      return Err(commits.error);
    }
    var cache, fetched := PrefetchRecords(g, records, commits.value);
    for i := 0 to |fetched|
      invariant forall j :: 0 <= j < i ==> fetched[j].1.Found?
    {
      if !fetched[i].1.Found? {
        return Err(fetched[i].1.error);
      }
    }
    FetchedKnown(g, records, commits.value, cache, fetched);
    r := Ok(cache);
  }

  /** The commits of a send list, in its order; every element of the list must exist. */
  method Classify(objects: Objects, toSend: seq<Oid>) returns (r: Result<seq<Oid>>)
    ensures r.Ok? <==> forall x :: x in toSend ==> x in objects
    ensures r.Ok? ==> r.value == Kept(toSend, CommitsAmong(objects, toSend))
    ensures r.Err? ==> FirstMissing(objects, toSend, r.error)
  {
    hide Kept;
    var commits: seq<Oid> := [];
    ghost var all := CommitsAmong(objects, toSend);
    KeptNothing(all);
    for i := 0 to |toSend|
      invariant forall j :: 0 <= j < i ==> toSend[j] in objects
      invariant commits == Kept(toSend[..i], all)
    {
      var id := toSend[i];
      assert id in toSend;
      KeptNext(toSend, i, all);
      if id !in objects {
        return Err(MissingObject(id));
      }
      if objects[id].CommitObject? {
        commits := commits + [id];
      }
    }
    assert toSend[..|toSend|] == toSend;
    r := Ok(commits);
  }

  ghost function CommitsAmong(objects: Objects, ids: seq<Oid>): set<Oid> {
    set x | x in ids && x in objects && objects[x].CommitObject?
  }

  lemma EmptyInv(objects: Objects, kind: Oid -> Kind, haveRoots: set<Oid>, filter: FilterSpec, have: set<Oid>)
    ensures WantInv(objects, kind, Elements([]), RootTrees(objects, Elements([])), haveRoots, filter, have, [], {}, [])
  {
  }

  // ---------------------------------------------------- closure of the wants

  /** Commits reachable over parents, and trees and blobs under their root trees, are in the closure. */
  lemma ClosureHolds(objects: Objects, g: Graph, ids: set<Oid>)
    requires Truthful(g, objects)
    ensures forall x :: Reachable(ParentEdges(g), ids, x) ==> InClosure(objects, ids, x)
    ensures forall x :: TreeUnder(objects, RootTrees(objects, ids), x) ==> InClosure(objects, ids, x)
    ensures forall x :: BlobUnder(objects, RootTrees(objects, ids), x) ==> InClosure(objects, ids, x)
  {
    hide Reachable;
    var f := ObjectEdges(objects);
    forall x | x in ids
      ensures Reachable(f, ids, x)
    {
      ReachRoot(f, ids, x);
    }
    ReachTrans(ParentEdges(g), f, ids, ids);
    forall r | r in RootTrees(objects, ids)
      ensures Reachable(f, ids, r)
    {
      var c :| c in ids && c in objects && objects[c].CommitObject? && objects[c].tree == r;
      ReachStep(f, ids, c, r);
    }
    ReachTrans(SubtreeEdges(objects), f, ids, RootTrees(objects, ids));
    forall b | BlobUnder(objects, RootTrees(objects, ids), b)
      ensures Reachable(f, ids, b)
    {
      var t :| TreeUnder(objects, RootTrees(objects, ids), t) && IsTree(objects, t) && Leaf(b) in objects[t].entries;
      assert b in Children(objects[t]);
      ReachStep(f, ids, t, b);
    }
  }

  /** The blobs a filter is meant to withhold: all of them, or those larger than its limit. */
  ghost predicate Withheld(objects: Objects, kind: Oid -> Kind, filter: FilterSpec, x: Oid) {
    && kind(x) == Blob
    && match filter
       case NoFilter => false
       case BlobNone => true
       case BlobLimit(limit) => x in objects && objects[x].BlobObject? ==> objects[x].size > limit
  }

  /** Covered by the result: collected, already held through the haves, or withheld as asked. */
  ghost predicate Held(objects: Objects, kind: Oid -> Kind, filter: FilterSpec, common: set<Oid>, out: seq<Oid>,
                       x: Oid)
  {
    x in out || InClosure(objects, common, x) || Withheld(objects, kind, filter, x)
  }

  /** Of the wanted history no blob is collected that the filter withholds. */
  lemma NothingWithheldIsSent(objects: Objects, g: Graph, kind: Oid -> Kind, wants: seq<Oid>, sent: seq<Oid>,
                              tags: seq<Oid>, targets: seq<Oid>, common: set<Oid>, filter: FilterSpec, out: seq<Oid>,
                              x: Oid)
    requires KindsAgree(objects, kind) && Truthful(g, objects)
    requires Peeled(objects, wants, targets, tags) && Selects(g, Elements(targets), common, sent)
    requires Collects(objects, sent + tags, common, filter, out) && x in out && x in objects
    ensures !Withheld(objects, kind, filter, x)
  {
    hide Reachable, KindsAgree, TreeUnder, BlobUnder;
    ObjectKinds(objects, kind);
    RootTreeKinds(objects, kind, Elements(sent + tags));
    TreesAreTrees(objects, kind, RootTrees(objects, Elements(sent + tags)));
    TagsAreTags(objects, wants, tags, targets, x);
  }

  lemma CommitHeld(objects: Objects, g: Graph, sent: seq<Oid>, tags: seq<Oid>, targets: seq<Oid>, common: set<Oid>,
                   filter: FilterSpec, out: seq<Oid>, c: Oid)
    requires Truthful(g, objects)
    requires Selects(g, Elements(targets), common, sent)
    requires Collects(objects, sent + tags, common, filter, out)
    requires Reachable(ParentEdges(g), Elements(targets), c)
    ensures c in out || InClosure(objects, common, c)
  {
    hide Reachable, Needed;
    ClosureHolds(objects, g, common);
  }

  /** Nothing below a collected object is missing. */
  lemma ChildHeld(objects: Objects, g: Graph, kind: Oid -> Kind, wants: seq<Oid>, sent: seq<Oid>, tags: seq<Oid>,
                  targets: seq<Oid>, common: set<Oid>, filter: FilterSpec, out: seq<Oid>, x: Oid, y: Oid)
    requires KindsAgree(objects, kind) && Truthful(g, objects)
    requires Peeled(objects, wants, targets, tags) && Selects(g, Elements(targets), common, sent)
    requires Collects(objects, sent + tags, common, filter, out)
    requires x in out && x in objects && y in Children(objects[x])
    ensures Held(objects, kind, filter, common, out, y)
  {
    hide Reachable, KindsAgree, Children, TreeUnder, BlobUnder;
    var roots, haveRoots := RootTrees(objects, Elements(sent + tags)), RootTrees(objects, common);
    ClosureHolds(objects, g, common);
    RootTreeKinds(objects, kind, Elements(sent + tags));
    TreesAreTrees(objects, kind, roots);
    ObjectKinds(objects, kind);
    ChildrenOf(objects[x], y);
    match objects[x]
    case BlobObject(_) =>
    case TreeObject(entries) =>
      assert Needed(objects, roots, haveRoots, filter, x) by {
        SentAreNotTrees(objects, g, wants, sent, tags, targets, common, x);
      }
      TreeChildNeeded(objects, roots, x, y);
    case CommitObject(tree, parents) =>
      assert x in sent by {
        TagsAreTags(objects, wants, tags, targets, x);
      }
      if y == tree {
        assert y in roots;
        RootUnder(objects, roots, y);
      } else {
        ReachStep(ParentEdges(g), Elements(targets), x, y);
        CommitHeld(objects, g, sent, tags, targets, common, filter, out, y);
      }
    case TagObject(target) =>
      assert x in tags;
      assert TagInto(objects, x, tags, targets);
      if y in targets {
        ReachRoot(ParentEdges(g), Elements(targets), y);
        CommitHeld(objects, g, sent, tags, targets, common, filter, out, y);
      }
  }

  lemma ChildrenOf(o: Object, y: Oid)
    requires y in Children(o)
    ensures match o
            case BlobObject(_) => false
            case TreeObject(entries) => Subtree(y) in entries || Leaf(y) in entries
            case CommitObject(tree, parents) => y == tree || y in parents
            case TagObject(target) => y == target
  {
  }

  lemma RootUnder(objects: Objects, roots: set<Oid>, r: Oid)
    requires r in roots
    ensures TreeUnder(objects, roots, r)
  {
    ReachRoot(SubtreeEdges(objects), roots, r);
  }

  lemma TreeChildNeeded(objects: Objects, roots: set<Oid>, x: Oid, y: Oid)
    requires TreeUnder(objects, roots, x) && IsTree(objects, x)
    requires Subtree(y) in objects[x].entries || Leaf(y) in objects[x].entries
    ensures TreeUnder(objects, roots, y) || BlobUnder(objects, roots, y)
  {
    if Subtree(y) in objects[x].entries {
      ReachStep(SubtreeEdges(objects), roots, x, y);
    }
  }

  lemma SentAreNotTrees(objects: Objects, g: Graph, wants: seq<Oid>, sent: seq<Oid>, tags: seq<Oid>, targets: seq<Oid>,
                        common: set<Oid>, x: Oid)
    requires Truthful(g, objects)
    requires Peeled(objects, wants, targets, tags) && Selects(g, Elements(targets), common, sent)
    ensures x in sent + tags ==> !IsTree(objects, x)
  {
    hide Reachable;
    if x in tags {
      assert TagInto(objects, x, tags, targets);
    }
  }

  lemma TagsAreTags(objects: Objects, wants: seq<Oid>, tags: seq<Oid>, targets: seq<Oid>, x: Oid)
    requires Peeled(objects, wants, targets, tags)
    ensures x in tags ==> x in objects && objects[x].TagObject?
  {
    if x in tags {
      assert TagInto(objects, x, tags, targets);
    }
  }

  /**
   The promise of a fetch: for any generation numbers, a client holding the closure of the
   recognised haves and receiving the result holds the closure of every want, up to the blobs
   its filter withholds.
   */
  lemma FetchCompletes(objects: Objects, g: Graph, kind: Oid -> Kind, wants: seq<Oid>, sent: seq<Oid>, tags: seq<Oid>,
                       targets: seq<Oid>, common: set<Oid>, filter: FilterSpec, out: seq<Oid>)
    requires KindsAgree(objects, kind) && Truthful(g, objects)
    requires Peeled(objects, wants, targets, tags) && Selects(g, Elements(targets), common, sent)
    requires Collects(objects, sent + tags, common, filter, out)
    ensures forall x :: InClosure(objects, Elements(wants), x) ==>
              x in out || InClosure(objects, common, x) || Withheld(objects, kind, filter, x)
  {
    hide Reachable, KindsAgree, Children, Selects, Collects;
    var f := ObjectEdges(objects);
    forall x, y | Held(objects, kind, filter, common, out, x) && x in f && y in f[x]
      ensures Held(objects, kind, filter, common, out, y)
    {
      if InClosure(objects, common, x) {
        ReachStep(f, common, x, y);
      } else if x in out {
        ChildHeld(objects, g, kind, wants, sent, tags, targets, common, filter, out, x, y);
      } else {
        BlobsAreLeaves(objects, kind, x, y);
      }
    }
    forall w | w in wants
      ensures Held(objects, kind, filter, common, out, w)
    {
      if w in targets {
        ReachRoot(ParentEdges(g), Elements(targets), w);
        CommitHeld(objects, g, sent, tags, targets, common, filter, out, w);
      } else {
        SentCollected(objects, sent + tags, common, filter, out, w);
      }
    }
    ReachClosed(f, Elements(wants), iset x | Held(objects, kind, filter, common, out, x));
  }

  lemma BlobsAreLeaves(objects: Objects, kind: Oid -> Kind, x: Oid, y: Oid)
    requires KindsAgree(objects, kind) && x in objects && y in Children(objects[x])
    ensures kind(x) != Blob
  {
  }

  lemma SentCollected(objects: Objects, toSend: seq<Oid>, common: set<Oid>, filter: FilterSpec, out: seq<Oid>, x: Oid)
    requires Collects(objects, toSend, common, filter, out) && x in toSend
    ensures x in out
  {
  }

  /** Nothing outside the closure of the wants is collected, under any filter. */
  lemma OnlyWanted(objects: Objects, g: Graph, wants: seq<Oid>, history: seq<Oid>, sent: seq<Oid>, tags: seq<Oid>,
                   targets: seq<Oid>, common: set<Oid>, filter: FilterSpec, out: seq<Oid>)
    requires Truthful(g, objects) && Elements(history) <= Elements(wants)
    requires Peeled(objects, history, targets, tags) && Selects(g, Elements(targets), common, sent)
    requires Collects(objects, sent + tags, common, filter, out)
    ensures forall x :: x in out ==> InClosure(objects, Elements(wants), x)
  {
    hide Reachable, Children, TreeUnder, BlobUnder;
    var f, all := ObjectEdges(objects), Elements(wants);
    forall w | w in history
      ensures Reachable(f, all, w)
    {
      ReachRoot(f, all, w);
    }
    ReachTrans(f, f, all, Elements(history));
    ClosureHolds(objects, g, Elements(targets));
    ReachTrans(f, f, all, Elements(targets));
    assert forall c :: c in sent + tags ==> InClosure(objects, all, c);
    ClosureHolds(objects, g, Elements(sent + tags));
    ReachTrans(f, f, all, Elements(sent + tags));
  }
}
