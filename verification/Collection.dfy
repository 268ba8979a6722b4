/**
 Phase II of a fetch: the trees and blobs the sent commits need beyond what the
 recognised haves already reach. Level-order walks prune at trees the client has
 and at trees collected before; the result is still exactly the set difference.
 */
module Collection {
  import opened Reachability
  import opened GitObjects
  import opened OrderedSets
  import opened CollectionOrder

  ghost predicate TreeUnder(objects: Objects, roots: set<Oid>, t: Oid) {
    Reachable(SubtreeEdges(objects), roots, t)
  }

  ghost predicate BlobUnder(objects: Objects, roots: set<Oid>, b: Oid) {
    exists t :: TreeUnder(objects, roots, t) && IsTree(objects, t) && Leaf(b) in objects[t].entries
  }

  /** Every id the walk can meet; only used to bound it. */
  ghost function Universe(objects: Objects, roots: set<Oid>): set<Oid> {
    roots + set t, c | t in objects && c in Children(objects[t]) :: c
  }

  ghost predicate Unreadable(objects: Objects, t: Oid, e: WalkError) {
    && !IsTree(objects, t)
    && e == if t in objects then UnexpectedKind(t, Tree, KindOf(objects[t])) else MissingObject(t)
  }

  /** The first id in the list that is absent or not a tree. */
  ghost predicate FirstUnreadable(objects: Objects, ids: seq<Oid>, e: WalkError) {
    exists i :: 0 <= i < |ids| && Unreadable(objects, ids[i], e) && forall j :: 0 <= j < i ==> IsTree(objects, ids[j])
  }

  lemma SomeUnreadable(objects: Objects, ids: seq<Oid>, e: WalkError) returns (t: Oid)
    requires FirstUnreadable(objects, ids, e)
    ensures t in ids && Unreadable(objects, t, e)
  {
    var i :| 0 <= i < |ids| && Unreadable(objects, ids[i], e);
    t := ids[i];
  }

  /** Read each tree of a level; a missing or wrong-kind object is an error. */
  method ReadTrees(objects: Objects, ids: seq<Oid>) returns (r: Result<seq<seq<TreeEntry>>>)
    ensures r.Ok? ==> |r.value| == |ids|
    ensures r.Ok? ==> forall i :: 0 <= i < |ids| ==> IsTree(objects, ids[i]) && objects[ids[i]].entries == r.value[i]
    ensures r.Err? ==> FirstUnreadable(objects, ids, r.error)
  {
    var trees := [];
    for i := 0 to |ids|
      invariant |trees| == i
      invariant forall j :: 0 <= j < i ==> IsTree(objects, ids[j]) && objects[ids[j]].entries == trees[j]
    {
      var id := ids[i];
      assert id in ids;
      if id !in objects {
        return Err(MissingObject(id));
      }
      if !objects[id].TreeObject? {
        return Err(UnexpectedKind(id, Tree, KindOf(objects[id])));
      }
      trees := trees + [objects[id].entries];
    }
    r := Ok(trees);
  }

  // -------------------------------------------------------------- have side

  /** The entries of one tree, added to the have-set; new subtrees join the next level. */
  method AddHaves(entries: seq<TreeEntry>, have0: set<Oid>, next0: seq<Oid>, filter: FilterSpec)
    returns (have: set<Oid>, next: seq<Oid>)
    ensures forall x :: x in have <==> x in have0 || Subtree(x) in entries || (filter != BlobNone && Leaf(x) in entries)
    ensures next0 <= next
    ensures forall x :: x in next ==> x in next0 || (Subtree(x) in entries && x !in have0)
    ensures forall x :: Subtree(x) in entries && Leaf(x) !in entries && x !in have0 ==> x in next
  {
    have, next := have0, next0;
    for i := 0 to |entries|
      invariant forall x :: x in have <==>
                  x in have0 || Subtree(x) in entries[..i] || (filter != BlobNone && Leaf(x) in entries[..i])
      invariant next0 <= next
      invariant forall x :: x in next ==> x in next0 || (Subtree(x) in entries[..i] && x !in have0)
      invariant forall x :: Subtree(x) in entries[..i] && Leaf(x) !in entries[..i] && x !in have0 ==> x in next
    {
      assert entries[..i + 1] == entries[..i] + [entries[i]];
      match entries[i]
      case Subtree(child) =>
        if child !in have {
          have := have + {child};
          next := next + [child];
        }
      case Leaf(child) =>
        if filter != BlobNone {
          have := have + {child};
        }
      case Gitlink(_) =>
    }
    assert entries[..|entries|] == entries;
  }

  /** The have-set holds only what the roots reach, and every tree in it that is not `open` has its entries in it. */
  ghost predicate HaveInv(objects: Objects, kind: Oid -> Kind, roots: set<Oid>, filter: FilterSpec, have: set<Oid>,
                          open: set<Oid>)
  {
    && (forall x :: x in have && kind(x) == Tree ==> TreeUnder(objects, roots, x))
    && (forall x :: x in have && kind(x) != Tree ==> BlobUnder(objects, roots, x) && filter != BlobNone)
    && (forall t :: t in have && t !in open && IsTree(objects, t) ==> EntriesIn(objects[t].entries, have, filter))
    && roots <= have
  }

  ghost predicate EntriesIn(entries: seq<TreeEntry>, have: set<Oid>, filter: FilterSpec) {
    forall x :: Subtree(x) in entries || (filter != BlobNone && Leaf(x) in entries) ==> x in have
  }

  lemma AddHavesKeeps(objects: Objects, kind: Oid -> Kind, roots: set<Oid>, filter: FilterSpec,
                      have0: set<Oid>, have: set<Oid>, t: Oid, open0: set<Oid>, open: set<Oid>)
    requires HaveInv(objects, kind, roots, filter, have0, open0)
    requires t in open0 && t in have0 && IsTree(objects, t) && kind(t) == Tree && ModesAgree(objects[t].entries, kind)
    requires forall x :: x in have <==>
               x in have0 || Subtree(x) in objects[t].entries || (filter != BlobNone && Leaf(x) in objects[t].entries)
    requires forall x :: x in open0 && x != t ==> x in open
    requires forall x :: Subtree(x) in objects[t].entries && x !in have0 ==> x in open
    requires forall x :: x in objects ==> kind(x) == KindOf(objects[x])
    ensures HaveInv(objects, kind, roots, filter, have, open)
  {
    hide Reachable;
    forall x | x in have && x !in have0
      ensures kind(x) == Tree ==> TreeUnder(objects, roots, x) && x in open
      ensures kind(x) != Tree ==> BlobUnder(objects, roots, x) && filter != BlobNone
    {
      if Subtree(x) in objects[t].entries {
        ReachStep(SubtreeEdges(objects), roots, t, x);
      }
    }
  }

  /** Once no tree is open, the have-set is exactly what the roots reach. */
  lemma HavesComplete(objects: Objects, kind: Oid -> Kind, roots: set<Oid>, filter: FilterSpec, have: set<Oid>)
    requires HaveInv(objects, kind, roots, filter, have, {})
    requires forall x :: x in have && kind(x) != Tree ==> !IsTree(objects, x)
    ensures forall x :: x in have <==>
              TreeUnder(objects, roots, x) || (filter != BlobNone && BlobUnder(objects, roots, x))
  {
    hide Reachable;
    ReachClosed(SubtreeEdges(objects), roots, iset x | x in have);
  }

  /** Everything reachable from the haves' root trees, blobs left out under `blob:none`. */
  method ExpandHaves(objects: Objects, roots: seq<Oid>, filter: FilterSpec, ghost kind: Oid -> Kind)
    returns (r: Result<set<Oid>>)
    requires KindsAgree(objects, kind) && forall x :: x in roots ==> kind(x) == Tree
    ensures r.Ok? ==> forall x :: x in r.value <==>
              TreeUnder(objects, Elements(roots), x) || (filter != BlobNone && BlobUnder(objects, Elements(roots), x))
    ensures r.Err? ==> exists t :: TreeUnder(objects, Elements(roots), t) && Unreadable(objects, t, r.error)
  {
    hide Reachable, HaveInv, Children;
    var have: set<Oid>, level: seq<Oid> := Start(roots);
    ghost var rootSet := Elements(roots);
    StartHaves(objects, kind, rootSet, filter);
    assert Elements(level) == rootSet;
    while level != []
      invariant HaveInv(objects, kind, rootSet, filter, have, Elements(level))
      invariant forall x :: x in level ==> x in have && kind(x) == Tree
      invariant have <= Universe(objects, rootSet)
      decreases Universe(objects, rootSet) - have, |level|
    {
      var trees := ReadTrees(objects, level);
      if trees.Err? {
        HavesReached(objects, kind, rootSet, filter, have, Elements(level));
        ghost var t := SomeUnreadable(objects, level, trees.error);
        return Err(trees.error);
      }
      var next: seq<Oid> := [];
      ghost var have0 := have;
      assert Elements(level[0..]) + Elements([]) == Elements(level);
      for i := 0 to |level|
        invariant have0 <= have <= Universe(objects, rootSet)
        invariant HaveInv(objects, kind, rootSet, filter, have, Elements(level[i..]) + Elements(next))
        invariant forall x :: x in next ==> x in have && x !in have0 && kind(x) == Tree
      {
        ghost var t, entries := level[i], objects[level[i]].entries;
        ghost var before, open := have, Elements(level[i..]) + Elements(next);
        var more;
        have, more := AddHaves(trees.value[i], have, next, filter);
        assert forall x :: x in level[i..] <==> x == t || x in level[i + 1..];
        AddHavesKeeps(objects, kind, rootSet, filter, before, have, t, open, Elements(level[i + 1..]) + Elements(more));
        forall x | Subtree(x) in entries || Leaf(x) in entries
          ensures x in Universe(objects, rootSet)
        {
          InUniverse(objects, rootSet, t, x);
        }
        next := more;
      }
      assert level[|level|..] == [];
      assert Elements([]) + Elements(next) == Elements(next);
      assert next != [] ==> next[0] in next;
      level := next;
    }
    assert Elements([]) == {};
    assert forall x :: x in have && kind(x) != Tree ==> !IsTree(objects, x);
    HavesComplete(objects, kind, rootSet, filter, have);
    r := Ok(have);
  }

  lemma HavesReached(objects: Objects, kind: Oid -> Kind, roots: set<Oid>, filter: FilterSpec, have: set<Oid>,
                     open: set<Oid>)
    requires HaveInv(objects, kind, roots, filter, have, open)
    ensures forall x :: x in have && kind(x) == Tree ==> TreeUnder(objects, roots, x)
  {
  }

  lemma InUniverse(objects: Objects, roots: set<Oid>, t: Oid, x: Oid)
    requires IsTree(objects, t) && (Subtree(x) in objects[t].entries || Leaf(x) in objects[t].entries)
    ensures x in Universe(objects, roots)
  {
    assert x in Children(objects[t]);
  }

  method Start(roots: seq<Oid>) returns (have: set<Oid>, level: seq<Oid>)
    ensures have == Elements(roots) && forall x :: x in level <==> x in roots
  {
    have, level := {}, [];
    for i := 0 to |roots|
      invariant forall x :: x in have <==> x in roots[..i]
      invariant forall x :: x in level <==> x in roots[..i]
    {
      assert roots[..i + 1] == roots[..i] + [roots[i]];
      if roots[i] !in have {
        have := have + {roots[i]};
        level := level + [roots[i]];
      }
    }
    assert roots[..|roots|] == roots;
  }

  lemma StartHaves(objects: Objects, kind: Oid -> Kind, roots: set<Oid>, filter: FilterSpec)
    requires forall x :: x in roots ==> kind(x) == Tree
    ensures HaveInv(objects, kind, roots, filter, roots, roots)
  {
    forall x | x in roots
      ensures TreeUnder(objects, roots, x)
    {
      ReachRoot(SubtreeEdges(objects), roots, x);
    }
  }

  // -------------------------------------------------------------- want side

  /** What collection adds for commits whose root trees are `roots`, given the haves' root trees. */
  ghost predicate Needed(objects: Objects, roots: set<Oid>, haveRoots: set<Oid>, filter: FilterSpec, x: Oid) {
    || (TreeUnder(objects, roots, x) && !TreeUnder(objects, haveRoots, x))
    || (BlobUnder(objects, roots, x) && !BlobUnder(objects, haveRoots, x) && Admits(objects, filter, x))
  }

  /** The entries of one tree: new subtrees are collected at once, new leaves become candidates, each in entry order. */
  method ScanTree(entries: seq<TreeEntry>, have: set<Oid>, out0: seq<Oid>, next0: seq<Oid>, cand0: seq<Oid>)
    returns (out: seq<Oid>, next: seq<Oid>, cand: seq<Oid>)
    ensures out == out0 + NewIn(Subtrees(entries), have + Elements(out0))
    ensures next == next0 + NewIn(Subtrees(entries), have + Elements(out0))
    ensures cand0 <= cand && forall x :: x in cand ==> x in cand0 || (Leaf(x) in entries && x !in have)
    ensures forall x :: Leaf(x) in entries ==> x in have || x in out || x in cand
    ensures KindsApart(entries) ==> cand == cand0 + NewIn(Leaves(entries), have + Elements(out0) + Elements(cand0))
  {
    hide NewIn, Subtrees, Leaves;
    out, next, cand := out0, next0, cand0;
    ghost var seen, offered := have + Elements(out0), have + Elements(out0) + Elements(cand0);
    ScanNothing(seen);
    ScanNothing(offered);
    for i := 0 to |entries|
      invariant out == out0 + NewIn(Subtrees(entries[..i]), seen)
      invariant next == next0 + NewIn(Subtrees(entries[..i]), seen)
      invariant cand0 <= cand && forall x :: x in cand ==> x in cand0 || (Leaf(x) in entries[..i] && x !in have)
      invariant forall x :: Leaf(x) in entries[..i] ==> x in have || x in out || x in cand
      invariant KindsApart(entries) ==> cand == cand0 + NewIn(Leaves(entries[..i]), offered)
    {
      assert entries[..i + 1] == entries[..i] + [entries[i]];
      EntriesNext(entries, i);
      NewInSnoc(Subtrees(entries[..i]), entries[i].oid, seen);
      NewInSnoc(Leaves(entries[..i]), entries[i].oid, offered);
      AppendBehind(out0, NewIn(Subtrees(entries[..i]), seen), entries[i].oid);
      AppendBehind(next0, NewIn(Subtrees(entries[..i]), seen), entries[i].oid);
      AppendBehind(cand0, NewIn(Leaves(entries[..i]), offered), entries[i].oid);
      match entries[i]
      case Subtree(child) =>
        if child !in out && child !in have {
          out := out + [child];
          next := next + [child];
        }
      case Leaf(child) =>
        if child !in have && child !in out && child !in cand {
          cand := cand + [child];
        }
      case Gitlink(_) =>
    }
    assert entries[..|entries|] == entries;
  }

  lemma ScanNothing(seen: set<Oid>)
    ensures NewIn(Subtrees([]), seen) == [] && NewIn(Leaves([]), seen) == []
  {
  }

  /** Add the candidates the filter admits, in candidate order; a size filter looks each candidate up. */
  method AdmitBlobs(objects: Objects, cand: seq<Oid>, out0: seq<Oid>, filter: FilterSpec, ghost kind: Oid -> Kind)
    returns (r: Result<seq<Oid>>)
    requires filter.BlobLimit? ==> forall x :: x in objects ==> kind(x) == KindOf(objects[x])
    requires filter.BlobLimit? ==> forall x :: x in cand ==> kind(x) == Blob
    ensures r.Ok? ==> r.value == Admitted(objects, filter, out0, cand)
    ensures r.Err? ==> filter.BlobLimit? && FirstMissing(objects, cand, r.error)
  {
    hide NewIn, Kept;
    var out := out0;
    ghost var admitted, seen := AdmittedSet(objects, filter, cand), Elements(out0);
    if filter == BlobNone {
      NoneAdmitted(objects, cand, seen);
      return Ok(out);
    }
    KeptNothing(admitted);
    NewInNothing(seen);
    for i := 0 to |cand|
      invariant out == out0 + NewIn(Kept(cand[..i], admitted), seen)
      invariant filter.BlobLimit? ==> forall j :: 0 <= j < i ==> cand[j] in objects
    {
      var child := cand[i];
      assert child in cand;
      KeptNext(cand, i, admitted);
      NewInSnoc(Kept(cand[..i], admitted), child, seen);
      AppendBehind(out0, NewIn(Kept(cand[..i], admitted), seen), child);
      if filter.BlobLimit? && child !in objects {
        return Err(MissingObject(child));
      }
      if Admits(objects, filter, child) && child !in out {
        out := out + [child];
      }
    }
    assert cand[..|cand|] == cand;
    r := Ok(out);
  }

  lemma NoneAdmitted(objects: Objects, cand: seq<Oid>, seen: set<Oid>)
    ensures NewIn(Kept(cand, AdmittedSet(objects, BlobNone, cand)), seen) == []
  {
    NoElements(NewIn(Kept(cand, AdmittedSet(objects, BlobNone, cand)), seen));
  }

  lemma NoElements(s: seq<Oid>)
    ensures (forall x :: x !in s) ==> s == []
  {
    if s != [] {
      assert s[0] in s;
    }
  }

  lemma {:induction false} AdmittedIs(objects: Objects, filter: FilterSpec, out: seq<Oid>, cand: seq<Oid>)
    requires NoDuplicates(out)
    ensures var r := Admitted(objects, filter, out, cand);
      NoDuplicates(r) && out <= r && forall x :: x in r <==> x in out || (x in cand && Admits(objects, filter, x))
  {
    hide NewIn, Kept, Admits;
    AppendDistinct(out, NewIn(Kept(cand, AdmittedSet(objects, filter, cand)), Elements(out)));
  }

  lemma AppendDistinct(a: seq<Oid>, b: seq<Oid>)
    requires NoDuplicates(a) && NoDuplicates(b) && forall x :: x in b ==> x !in a
    ensures NoDuplicates(a + b)
  {
    forall i, j | 0 <= i < j < |a + b|
      ensures (a + b)[i] != (a + b)[j]
    {
      if i < |a| <= j {
        assert b[j - |a|] in b;
      }
    }
  }

  /**
   The collected list holds only `base` and what is needed, and every collected tree that is not
   `open` has each entry collected, had by the client, dropped by the filter, or still a candidate.
   */
  ghost predicate WantInv(objects: Objects, kind: Oid -> Kind, base: set<Oid>, roots: set<Oid>, haveRoots: set<Oid>,
                          filter: FilterSpec, have: set<Oid>, out: seq<Oid>, open: set<Oid>, cand: seq<Oid>)
  {
    && (forall x :: x in out ==> x in base || Needed(objects, roots, haveRoots, filter, x))
    && (forall x :: x in base ==> x in out)
    && (forall x :: x in cand ==> kind(x) == Blob && x !in have && BlobUnder(objects, roots, x))
    && (forall t :: t in out && t !in open && IsTree(objects, t) ==>
         EntriesDone(objects, filter, objects[t].entries, have, out, cand))
    && (forall x :: x in roots ==> x in out || x in have)
  }

  ghost predicate EntriesDone(objects: Objects, filter: FilterSpec, entries: seq<TreeEntry>, have: set<Oid>,
                              out: seq<Oid>, cand: seq<Oid>)
  {
    && (forall x :: Subtree(x) in entries ==> x in have || x in out)
    && (forall x :: Leaf(x) in entries && Admits(objects, filter, x) ==> x in have || x in out || x in cand)
  }

  /** The have-set in terms of the haves' root trees, with kinds told apart. */
  ghost predicate HaveIs(objects: Objects, kind: Oid -> Kind, haveRoots: set<Oid>, filter: FilterSpec, have: set<Oid>) {
    && (forall x :: kind(x) == Tree ==> (x in have <==> TreeUnder(objects, haveRoots, x)))
    && (forall x :: kind(x) == Blob && filter != BlobNone ==> (x in have <==> BlobUnder(objects, haveRoots, x)))
  }

  lemma ScanKeeps(objects: Objects, kind: Oid -> Kind, base: set<Oid>, roots: set<Oid>, haveRoots: set<Oid>,
                  filter: FilterSpec, have: set<Oid>, out0: seq<Oid>, open0: set<Oid>, cand0: seq<Oid>, t: Oid,
                  out: seq<Oid>, open: set<Oid>, cand: seq<Oid>)
    requires WantInv(objects, kind, base, roots, haveRoots, filter, have, out0, open0, cand0)
    requires HaveIs(objects, kind, haveRoots, filter, have)
    requires t in open0 && TreeUnder(objects, roots, t) && IsTree(objects, t) && ModesAgree(objects[t].entries, kind)
    requires out0 <= out && cand0 <= cand
    requires forall x :: x in out <==> x in out0 || (Subtree(x) in objects[t].entries && x !in have)
    requires forall x :: x in open0 && x != t ==> x in open
    requires forall x :: x in out && x !in out0 ==> x in open
    requires forall x :: x in cand ==> x in cand0 || (Leaf(x) in objects[t].entries && x !in have)
    requires forall x :: Leaf(x) in objects[t].entries ==> x in have || x in out || x in cand
    ensures WantInv(objects, kind, base, roots, haveRoots, filter, have, out, open, cand)
    ensures forall x :: Subtree(x) in objects[t].entries ==> TreeUnder(objects, roots, x)
  {
    hide Reachable;
    forall x | Subtree(x) in objects[t].entries
      ensures TreeUnder(objects, roots, x)
    {
      ReachStep(SubtreeEdges(objects), roots, t, x);
    }
  }

  lemma AdmitKeeps(objects: Objects, kind: Oid -> Kind, base: set<Oid>, roots: set<Oid>, haveRoots: set<Oid>,
                   filter: FilterSpec, have: set<Oid>, out0: seq<Oid>, open: set<Oid>, cand: seq<Oid>, out: seq<Oid>)
    requires WantInv(objects, kind, base, roots, haveRoots, filter, have, out0, open, cand)
    requires HaveIs(objects, kind, haveRoots, filter, have)
    requires forall x :: x in objects ==> kind(x) == KindOf(objects[x])
    requires forall x :: x in out <==> x in out0 || (x in cand && Admits(objects, filter, x))
    ensures WantInv(objects, kind, base, roots, haveRoots, filter, have, out, open, [])
  {
    hide Reachable;
  }

  /** With nothing open, the collected list is exactly the base and what is needed. */
  lemma WantComplete(objects: Objects, kind: Oid -> Kind, base: set<Oid>, roots: set<Oid>, haveRoots: set<Oid>,
                     filter: FilterSpec, have: set<Oid>, out: seq<Oid>)
    requires WantInv(objects, kind, base, roots, haveRoots, filter, have, out, {}, [])
    requires HaveIs(objects, kind, haveRoots, filter, have)
    requires KindsAgree(objects, kind) && forall x :: x in roots ==> kind(x) == Tree
    ensures forall x :: x in out <==> x in base || Needed(objects, roots, haveRoots, filter, x)
  {
    hide Reachable, KindsAgree;
    TreesAreTrees(objects, kind, roots);
    forall x, y | (x in out || TreeUnder(objects, haveRoots, x)) && x in SubtreeEdges(objects)
      && y in SubtreeEdges(objects)[x]
      ensures y in out || TreeUnder(objects, haveRoots, y)
    {
      if TreeUnder(objects, haveRoots, x) {
        ReachStep(SubtreeEdges(objects), haveRoots, x, y);
      } else {
        SubtreeKind(objects, kind, x, y);
      }
    }
    ReachClosed(SubtreeEdges(objects), roots, iset x | x in out || TreeUnder(objects, haveRoots, x));
    forall b | BlobUnder(objects, roots, b) && !BlobUnder(objects, haveRoots, b) && Admits(objects, filter, b)
      ensures b in out
    {
      var t :| TreeUnder(objects, roots, t) && IsTree(objects, t) && Leaf(b) in objects[t].entries;
      LeafKind(objects, kind, t, b);
    }
  }

  lemma SubtreeKind(objects: Objects, kind: Oid -> Kind, x: Oid, y: Oid)
    requires KindsAgree(objects, kind) && IsTree(objects, x) && Subtree(y) in objects[x].entries
    ensures kind(y) == Tree
  {
    assert ModesAgree(objects[x].entries, kind);
  }

  lemma LeafKind(objects: Objects, kind: Oid -> Kind, x: Oid, y: Oid)
    requires KindsAgree(objects, kind) && IsTree(objects, x) && Leaf(y) in objects[x].entries
    ensures kind(y) == Blob
  {
    assert ModesAgree(objects[x].entries, kind);
  }

  lemma TreesAreTrees(objects: Objects, kind: Oid -> Kind, roots: set<Oid>)
    requires KindsAgree(objects, kind) && forall x :: x in roots ==> kind(x) == Tree
    ensures forall x :: TreeUnder(objects, roots, x) ==> kind(x) == Tree
    ensures forall x :: BlobUnder(objects, roots, x) ==> kind(x) == Blob
  {
    hide Reachable, KindsAgree;
    forall x, y | kind(x) == Tree && x in SubtreeEdges(objects) && y in SubtreeEdges(objects)[x]
      ensures kind(y) == Tree
    {
      SubtreeKind(objects, kind, x, y);
    }
    ReachClosed(SubtreeEdges(objects), roots, iset x: Oid | kind(x) == Tree);
    forall b | BlobUnder(objects, roots, b)
      ensures kind(b) == Blob
    {
      var t :| TreeUnder(objects, roots, t) && IsTree(objects, t) && Leaf(b) in objects[t].entries;
      LeafKind(objects, kind, t, b);
    }
  }

  /** Reaching from more roots only adds needs; a new root is collected and opened unless it is covered. */
  lemma RootKeeps(objects: Objects, kind: Oid -> Kind, base: set<Oid>, roots: set<Oid>, haveRoots: set<Oid>,
                  filter: FilterSpec, have: set<Oid>, out0: seq<Oid>, root: Oid, out: seq<Oid>, open: set<Oid>)
    requires WantInv(objects, kind, base, roots, haveRoots, filter, have, out0, {}, [])
    requires HaveIs(objects, kind, haveRoots, filter, have) && kind(root) == Tree
    requires if root in out0 || root in have then out == out0 && open == {} else out == out0 + [root] && open == {root}
    ensures WantInv(objects, kind, base, roots + {root}, haveRoots, filter, have, out, open, [])
    ensures TreeUnder(objects, roots + {root}, root)
  {
    hide Reachable;
    var e, more := SubtreeEdges(objects), roots + {root};
    forall x | x in roots
      ensures Reachable(e, more, x)
    {
      ReachRoot(e, more, x);
    }
    ReachTrans(e, e, more, roots);
    ReachRoot(e, more, root);
  }

  /** Why collection can fail: a tree that cannot be read, or under a size filter a blob without a record. */
  ghost predicate CollectFails(objects: Objects, roots: set<Oid>, filter: FilterSpec, e: WalkError) {
    || (exists t :: TreeUnder(objects, roots, t) && Unreadable(objects, t, e))
    || (filter.BlobLimit? && exists b :: BlobUnder(objects, roots, b) && b !in objects && e == MissingObject(b))
  }

  /** Scan the trees of one level in order. */
  method ScanLevel(objects: Objects, level: seq<Oid>, trees: seq<seq<TreeEntry>>, start: seq<Oid>, have: set<Oid>,
                   filter: FilterSpec, ghost kind: Oid -> Kind, ghost base: set<Oid>, ghost roots: set<Oid>,
                   ghost haveRoots: set<Oid>)
    returns (out: seq<Oid>, next: seq<Oid>, cand: seq<Oid>)
    requires KindsAgree(objects, kind) && HaveIs(objects, kind, haveRoots, filter, have)
    requires |trees| == |level|
    requires forall i :: 0 <= i < |level| ==> IsTree(objects, level[i]) && objects[level[i]].entries == trees[i]
    requires WantInv(objects, kind, base, roots, haveRoots, filter, have, start, Elements(level), [])
    requires forall x :: x in level ==> TreeUnder(objects, roots, x)
    ensures WantInv(objects, kind, base, roots, haveRoots, filter, have, out, Elements(next), cand)
    ensures forall x :: x in next ==> TreeUnder(objects, roots, x)
    ensures Scanned(objects, have, start, level, |level|, out, next, cand)
  {
    hide Reachable, WantInv, HaveIs, KindsAgree, Children, Needed, BlobUnder, TreeUnder, Scanned, NewIn, Subtrees,
         Leaves;
    out, next, cand := start, [], [];
    ScanStarts(objects, have, start, level);
    assert Elements(level[0..]) + Elements([]) == Elements(level);
    for i := 0 to |level|
      invariant WantInv(objects, kind, base, roots, haveRoots, filter, have, out, Elements(level[i..]) + Elements(next),
                        cand)
      invariant forall x :: x in next ==> TreeUnder(objects, roots, x)
      invariant Scanned(objects, have, start, level, i, out, next, cand)
    {
      ghost var t, before, open, cand0 := level[i], out, Elements(level[i..]) + Elements(next), cand;
      LevelModes(objects, kind, level[..i + 1]);
      ScanContinues(objects, kind, have, start, level, i, out, next, cand);
      EntryKinds(objects, kind, t);
      ModesApart(trees[i], kind);
      var more;
      out, more, cand := ScanTree(trees[i], have, out, next, cand);
      assert t in level && forall x :: x in level[i..] <==> x == t || x in level[i + 1..];
      ScanKeeps(objects, kind, base, roots, haveRoots, filter, have, before, open, cand0, t, out,
                Elements(level[i + 1..]) + Elements(more), cand);
      next := more;
    }
    assert level[|level|..] == [];
    assert Elements([]) + Elements(next) == Elements(next);
  }

  lemma ModesApart(entries: seq<TreeEntry>, kind: Oid -> Kind)
    requires ModesAgree(entries, kind)
    ensures KindsApart(entries)
  {
  }

  /** One level of the walk: its trees' subtrees are listed, then the blobs the filter admits. */
  method WalkLevel(objects: Objects, level: seq<Oid>, start: seq<Oid>, have: set<Oid>, filter: FilterSpec,
                   ghost kind: Oid -> Kind, ghost base: set<Oid>, ghost roots: set<Oid>, ghost haveRoots: set<Oid>)
    returns (r: Result<(seq<Oid>, seq<Oid>)>)
    requires KindsAgree(objects, kind) && HaveIs(objects, kind, haveRoots, filter, have) && NoDuplicates(start)
    requires WantInv(objects, kind, base, roots, haveRoots, filter, have, start, Elements(level), [])
    requires forall x :: x in level ==> TreeUnder(objects, roots, x)
    ensures r.Err? ==> CollectFails(objects, roots, filter, r.error)
    ensures r.Ok? ==> NoDuplicates(r.value.0) && start <= r.value.0
    ensures r.Ok? ==>
            r.value == (LevelAdded(objects, filter, have, start, level), NextLevel(objects, have, start, level))
    ensures r.Ok? ==> WantInv(objects, kind, base, roots, haveRoots, filter, have, r.value.0, Elements(r.value.1), [])
    ensures r.Ok? ==> forall x :: x in r.value.1 ==> TreeUnder(objects, roots, x)
  {
    hide Reachable, WantInv, HaveIs, KindsAgree, Children, Needed, BlobUnder, TreeUnder, NewIn, Kept, Subtrees, Leaves,
         Admitted;
    var trees := ReadTrees(objects, level);
    if trees.Err? {
      ghost var t := SomeUnreadable(objects, level, trees.error);
      return Err(trees.error);
    }
    var out, next, cand := ScanLevel(objects, level, trees.value, start, have, filter, kind, base, roots, haveRoots);
    assert level[..|level|] == level;
    ObjectKinds(objects, kind);
    CandidatesBounded(objects, kind, base, roots, haveRoots, filter, have, out, Elements(next), cand);
    var admitted := AdmitBlobs(objects, cand, out, filter, kind);
    if admitted.Err? {
      assert forall x :: x in cand ==> BlobUnder(objects, roots, x);
      return Err(admitted.error);
    }
    AppendDistinct(start, next);
    AdmittedIs(objects, filter, out, cand);
    AdmitKeeps(objects, kind, base, roots, haveRoots, filter, have, out, Elements(next), cand, admitted.value);
    r := Ok((admitted.value, next));
  }

  /** Collect the trees and blobs under one commit's root tree, breadth first. */
  method WalkTree(objects: Objects, root: Oid, out0: seq<Oid>, have: set<Oid>, filter: FilterSpec,
                  ghost kind: Oid -> Kind, ghost base: set<Oid>, ghost roots0: set<Oid>, ghost haveRoots: set<Oid>)
    returns (r: Result<seq<Oid>>)
    requires KindsAgree(objects, kind) && kind(root) == Tree && NoDuplicates(out0)
    requires HaveIs(objects, kind, haveRoots, filter, have)
    requires WantInv(objects, kind, base, roots0, haveRoots, filter, have, out0, {}, [])
    ensures r.Ok? ==> NoDuplicates(r.value) && out0 <= r.value
    ensures r.Ok? ==> r.value == TreeOrder(objects, filter, have, out0, root)
    ensures r.Ok? ==> WantInv(objects, kind, base, roots0 + {root}, haveRoots, filter, have, r.value, {}, [])
    ensures r.Err? ==> CollectFails(objects, roots0 + {root}, filter, r.error)
  {
    hide Reachable, WantInv, HaveIs, KindsAgree, Children, Needed, BlobUnder, TreeUnder, LevelAdded, NextLevel;
    var out, level: seq<Oid> := out0, [];
    if root !in out && root !in have {
      out, level := out + [root], [root];
    }
    ghost var roots := roots0 + {root};
    RootKeeps(objects, kind, base, roots0, haveRoots, filter, have, out0, root, out, Elements(level));
    while level != []
      invariant NoDuplicates(out) && out0 <= out
      invariant LevelOrder(objects, filter, have, out, level) == TreeOrder(objects, filter, have, out0, root)
      invariant WantInv(objects, kind, base, roots, haveRoots, filter, have, out, Elements(level), [])
      invariant forall x :: x in level ==> TreeUnder(objects, roots, x)
      decreases AllChildren(objects) - Elements(out), |level|
    {
      ghost var start, level0 := out, level;
      var step := WalkLevel(objects, level, out, have, filter, kind, base, roots, haveRoots);
      if step.Err? {
        return Err(step.error);
      }
      LevelOrderStep(objects, filter, have, start, level0);
      out, level := step.value.0, step.value.1;
      if level != [] {
        LevelGrows(objects, filter, have, start, level0);
      } else {
        assert Elements(start) <= Elements(out);
      }
    }
    assert Elements([]) == {};
    r := Ok(out);
  }

  lemma EntryKinds(objects: Objects, kind: Oid -> Kind, t: Oid)
    requires KindsAgree(objects, kind) && IsTree(objects, t)
    ensures ModesAgree(objects[t].entries, kind)
  {
  }

  lemma ObjectKinds(objects: Objects, kind: Oid -> Kind)
    requires KindsAgree(objects, kind)
    ensures forall x :: x in objects ==> kind(x) == KindOf(objects[x])
  {
  }

  lemma CandidatesBounded(objects: Objects, kind: Oid -> Kind, base: set<Oid>, roots: set<Oid>, haveRoots: set<Oid>,
                          filter: FilterSpec, have: set<Oid>, out: seq<Oid>, open: set<Oid>, cand: seq<Oid>)
    requires WantInv(objects, kind, base, roots, haveRoots, filter, have, out, open, cand)
    ensures forall x :: x in cand ==> kind(x) == Blob && x in Universe(objects, roots) && BlobUnder(objects, roots, x)
  {
    hide Reachable, Children, Needed;
    forall x | x in cand
      ensures x in Universe(objects, roots)
    {
      assert BlobUnder(objects, roots, x);
      var t :| TreeUnder(objects, roots, t) && IsTree(objects, t) && Leaf(x) in objects[t].entries;
      InUniverse(objects, roots, t, x);
    }
  }

  // ------------------------------------------ a tree listed as a leaf first

  /** A root tree that names tree 3 as a leaf, while its other subtree names it as the subtree it is. */
  const LISTED_AS_LEAF: Objects := map[1 := TreeObject([Leaf(3), Subtree(2)]), 2 := TreeObject([Subtree(3)]),
                                       3 := TreeObject([Leaf(4)]), 4 := BlobObject(0)]

  lemma ListedAsLeafEntries()
    ensures Subtrees([Leaf(3), Subtree(2)]) == [2] && Leaves([Leaf(3), Subtree(2)]) == [3]
    ensures Subtrees([Subtree(3)]) == [3] && Leaves([Subtree(3)]) == []
  {
    assert [Leaf(3), Subtree(2)][1..] == [Subtree(2)] && [Subtree(2)][1..] == [] && [Subtree(3)][1..] == [];
  }

  lemma NewInOne(x: Oid, seen: set<Oid>)
    ensures NewIn([x], seen) == if x in seen then [] else [x]
  {
    NewInNothing(seen);
    NewInSnoc([], x, seen);
    assert [] + [x] == [x];
  }

  lemma ListedAsLeafBlob()
    ensures BlobUnder(LISTED_AS_LEAF, {1}, 4)
  {
    hide Reachable;
    ListedAsLeafEntries();
    var e := SubtreeEdges(LISTED_AS_LEAF);
    assert 2 in [2] && 3 in [3];
    ReachRoot(e, {1}, 1);
    ReachStep(e, {1}, 1, 2);
    ReachStep(e, {1}, 2, 3);
    assert TreeUnder(LISTED_AS_LEAF, {1}, 3);
  }

  lemma ListedAsLeafAdmitted()
    ensures Admitted(LISTED_AS_LEAF, NoFilter, [1, 2], [3]) == [1, 2, 3]
  {
    KeptNothing({3});
    KeptSnoc([], 3, {3});
    assert [] + [3] == [3];
    assert AdmittedSet(LISTED_AS_LEAF, NoFilter, [3]) == {3};
    NewInOne(3, Elements([1, 2]));
  }

  lemma ListedAsLeafNoneAdmitted()
    ensures Admitted(LISTED_AS_LEAF, NoFilter, [1, 2, 3], []) == [1, 2, 3]
  {
    KeptNothing(AdmittedSet(LISTED_AS_LEAF, NoFilter, []));
    NewInNothing(Elements([1, 2, 3]));
  }

  method ListedAsLeafRootLevel() returns (out: seq<Oid>, level: seq<Oid>)
    ensures out == [1, 2, 3] && level == [2]
  {
    hide NewIn, Subtrees, Leaves, Admitted;
    ListedAsLeafEntries();
    NewInOne(2, {} + Elements([1]));
    NewInOne(3, {} + Elements([1]) + Elements([]));
    var trees := ReadTrees(LISTED_AS_LEAF, [1]);
    assert [1][0] == 1;
    var subtrees, next, cand := ScanTree(trees.value[0], {}, [1], [], []);
    assert subtrees == [1, 2] && cand == [3];
    ListedAsLeafAdmitted();
    var blobs := AdmitBlobs(LISTED_AS_LEAF, cand, subtrees, NoFilter, _ => Blob);
    out, level := blobs.value, next;
  }

  /** The walk lists tree 3 among the blobs of the first level, so it never opens it and blob 4 is not sent. */
  method ListedAsLeafNotOpened() returns (out: seq<Oid>, level: seq<Oid>)
    ensures out == [1, 2, 3] && level == [] && BlobUnder(LISTED_AS_LEAF, {1}, 4)
  {
    hide NewIn, Subtrees, Leaves, Admitted, BlobUnder;
    ListedAsLeafBlob();
    ListedAsLeafEntries();
    var first, next := ListedAsLeafRootLevel();
    var trees := ReadTrees(LISTED_AS_LEAF, next);
    assert next[0] == 2;
    NewInOne(3, {} + Elements(first));
    NewInNothing({} + Elements(first) + Elements([]));
    var cand;
    out, level, cand := ScanTree(trees.value[0], {}, first, [], []);
    assert out == first && cand == [];
    ListedAsLeafNoneAdmitted();
    var blobs := AdmitBlobs(LISTED_AS_LEAF, cand, out, NoFilter, _ => Blob);
    out := blobs.value;
  }
}
