/**
 Why collection's order is breadth first: among the trees one commit adds, one
 that can be reached through fewer unpruned trees never comes later. Depth is
 defined by paths and knows nothing of levels.
 */
module BreadthFirst {
  import opened Reachability
  import opened GitObjects
  import opened OrderedSets
  import opened CollectionOrder

  /** A way down from `root` to `x` in `n` steps that avoids what the walk is pruned at. */
  ghost predicate WayDown(objects: Objects, pruned: set<Oid>, root: Oid, x: Oid, n: nat, p: seq<Oid>) {
    && IsPath(SubtreeEdges(objects), p) && |p| == n + 1 && p[0] == root && p[n] == x
    && forall i :: 0 <= i <= n ==> p[i] !in pruned
  }

  ghost predicate AtDepth(objects: Objects, pruned: set<Oid>, root: Oid, x: Oid, n: nat) {
    exists p :: WayDown(objects, pruned, root, x, n, p)
  }

  ghost predicate FirstAtDepth(objects: Objects, pruned: set<Oid>, root: Oid, x: Oid, n: nat) {
    AtDepth(objects, pruned, root, x, n) && forall m :: 0 <= m < n ==> !AtDepth(objects, pruned, root, x, m)
  }

  /** Wherever `y` can be reached, `x` can be reached in no more steps. */
  ghost predicate NoDeeper(objects: Objects, pruned: set<Oid>, root: Oid, x: Oid, y: Oid) {
    forall n: nat :: AtDepth(objects, pruned, root, y, n) ==>
      exists m: nat :: m <= n && AtDepth(objects, pruned, root, x, m)
  }

  lemma StepDown(objects: Objects, pruned: set<Oid>, root: Oid, t: Oid, x: Oid, n: nat)
    requires AtDepth(objects, pruned, root, t, n) && IsTree(objects, t) && Subtree(x) in objects[t].entries
    requires x !in pruned
    ensures AtDepth(objects, pruned, root, x, n + 1)
  {
    hide Subtrees;
    var p :| WayDown(objects, pruned, root, t, n, p);
    assert x in SubtreeEdges(objects)[t];
    assert WayDown(objects, pruned, root, x, n + 1, p + [x]);
  }

  lemma StepUp(objects: Objects, pruned: set<Oid>, root: Oid, x: Oid, n: nat) returns (t: Oid)
    requires AtDepth(objects, pruned, root, x, n + 1)
    ensures AtDepth(objects, pruned, root, t, n) && IsTree(objects, t) && Subtree(x) in objects[t].entries
    ensures x !in pruned
  {
    hide Subtrees;
    var p :| WayDown(objects, pruned, root, x, n + 1, p);
    t := p[n];
    assert p[n] in SubtreeEdges(objects) && p[n + 1] in SubtreeEdges(objects)[p[n]];
    assert WayDown(objects, pruned, root, t, n, p[..n + 1]);
  }

  /** The level is what is reached first at its depth, and everything no deeper is listed. */
  ghost predicate Levelled(objects: Objects, pruned: set<Oid>, root: Oid, out: seq<Oid>, level: seq<Oid>, k: nat)
  {
    && (forall x :: x in level <==> FirstAtDepth(objects, pruned, root, x, k))
    && (forall x, m :: 0 <= m <= k && AtDepth(objects, pruned, root, x, m) ==> x in out)
  }

  /** Added trees are reached no deeper than the level, and none precedes one that can be reached in fewer steps. */
  ghost predicate Ordered(objects: Objects, kind: Oid -> Kind, pruned: set<Oid>, root: Oid, start: nat, out: seq<Oid>,
                          k: nat)
  {
    && (forall i :: start <= i < |out| && kind(out[i]) == Tree ==> ReachedBy(objects, pruned, root, out[i], k))
    && InDepthOrder(objects, kind, pruned, root, start, out)
  }

  ghost predicate ReachedBy(objects: Objects, pruned: set<Oid>, root: Oid, x: Oid, k: nat) {
    exists m: nat :: m <= k && AtDepth(objects, pruned, root, x, m)
  }

  ghost predicate InDepthOrder(objects: Objects, kind: Oid -> Kind, pruned: set<Oid>, root: Oid, start: nat,
                               out: seq<Oid>)
  {
    forall i, j :: start <= i < j < |out| && kind(out[i]) == Tree && kind(out[j]) == Tree ==>
      NoDeeper(objects, pruned, root, out[i], out[j])
  }

  /** What a level adds is reached first one step deeper, and nothing reached first there is left out. */
  lemma NextLevelIs(objects: Objects, kind: Oid -> Kind, have: set<Oid>, out0: seq<Oid>, root: Oid, out: seq<Oid>,
                    level: seq<Oid>, k: nat, x: Oid)
    requires KindsAgree(objects, kind) && out0 <= out
    requires Levelled(objects, have + Elements(out0), root, out, level, k)
    requires Ordered(objects, kind, have + Elements(out0), root, |out0|, out, k)
    ensures x in NextLevel(objects, have, out, level) <==>
            FirstAtDepth(objects, have + Elements(out0), root, x, k + 1)
  {
    hide NewIn, Subtrees, AtDepth, KindsAgree, InDepthOrder;
    var pruned, entries := have + Elements(out0), EntriesOf(objects, level);
    if x in NextLevel(objects, have, out, level) {
      assert Subtree(x) in entries;
      EntriesFrom(objects, level, Subtree(x));
      var t :| t in level && IsTree(objects, t) && Subtree(x) in objects[t].entries;
      StepDown(objects, pruned, root, t, x, k);
    }
    if FirstAtDepth(objects, pruned, root, x, k + 1) {
      var t := StepUp(objects, pruned, root, x, k);
      forall m | 0 <= m < k
        ensures !AtDepth(objects, pruned, root, t, m)
      {
        if AtDepth(objects, pruned, root, t, m) {
          StepDown(objects, pruned, root, t, x, m);
        }
      }
      InEntries(objects, level, t, Subtree(x));
      SubtreeIsTree(objects, kind, t, x);
      NotListedYet(objects, kind, pruned, root, |out0|, out, k, x);
    }
  }

  lemma {:induction false} InEntries(objects: Objects, level: seq<Oid>, t: Oid, e: TreeEntry)
    requires t in level && IsTree(objects, t) && e in objects[t].entries
    ensures e in EntriesOf(objects, level)
    decreases |level|
  {
    var n := |level| - 1;
    if t != level[n] {
      InEntries(objects, level[..n], t, e);
    }
  }

  lemma SubtreeIsTree(objects: Objects, kind: Oid -> Kind, t: Oid, x: Oid)
    requires KindsAgree(objects, kind) && IsTree(objects, t) && Subtree(x) in objects[t].entries
    ensures kind(x) == Tree
  {
    assert ModesAgree(objects[t].entries, kind);
  }

  /** A tree reached first deeper than everything listed is not listed, unless the walk was pruned at it. */
  lemma NotListedYet(objects: Objects, kind: Oid -> Kind, pruned: set<Oid>, root: Oid, start: nat, out: seq<Oid>,
                     k: nat, x: Oid)
    requires Ordered(objects, kind, pruned, root, start, out, k) && start <= |out| && kind(x) == Tree
    requires FirstAtDepth(objects, pruned, root, x, k + 1) && x !in pruned && Elements(out[..start]) <= pruned
    ensures x !in out
  {
    hide AtDepth, InDepthOrder;
    forall i | 0 <= i < |out|
      ensures out[i] != x
    {
      if i < start {
        assert out[..start][i] == out[i];
      }
    }
  }

  /** A level keeps both: its subtrees are one step deeper than anything before them, and its blobs are no trees. */
  lemma LevelKeeps(objects: Objects, filter: FilterSpec, kind: Oid -> Kind, have: set<Oid>, out0: seq<Oid>, root: Oid,
                   out: seq<Oid>, level: seq<Oid>, k: nat)
    requires KindsAgree(objects, kind) && out0 <= out
    requires Levelled(objects, have + Elements(out0), root, out, level, k)
    requires Ordered(objects, kind, have + Elements(out0), root, |out0|, out, k)
    ensures var out', next := LevelAdded(objects, filter, have, out, level), NextLevel(objects, have, out, level);
      && Levelled(objects, have + Elements(out0), root, out', next, k + 1)
      && Ordered(objects, kind, have + Elements(out0), root, |out0|, out', k + 1)
      && out0 <= out'
  {
    hide NewIn, Kept, Subtrees, Leaves, AtDepth, KindsAgree, NoDeeper, InDepthOrder;
    var pruned := have + Elements(out0);
    var out', next := LevelAdded(objects, filter, have, out, level), NextLevel(objects, have, out, level);
    forall x
      ensures x in next <==> FirstAtDepth(objects, pruned, root, x, k + 1)
    {
      NextLevelIs(objects, kind, have, out0, root, out, level, k, x);
    }
    forall x, m | 0 <= m <= k + 1 && AtDepth(objects, pruned, root, x, m)
      ensures x in out'
    {
      if m == k + 1 && x !in next {
        var m' :| 0 <= m' < k + 1 && AtDepth(objects, pruned, root, x, m');
      }
    }
    var blobs := out'[|out + next|..];
    AddedBlobs(objects, filter, kind, have, out, level);
    AppendOrdered(objects, kind, pruned, root, |out0|, out, k, next, blobs);
    assert out' == out + next + blobs;
  }

  lemma AddedBlobs(objects: Objects, filter: FilterSpec, kind: Oid -> Kind, have: set<Oid>, out: seq<Oid>,
                   level: seq<Oid>)
    requires KindsAgree(objects, kind)
    ensures var next, out' := NextLevel(objects, have, out, level), LevelAdded(objects, filter, have, out, level);
      && out + next <= out' && forall b :: b in out'[|out + next|..] ==> kind(b) != Tree
  {
    hide NewIn, Kept, Subtrees, Leaves, KindsAgree, Admits;
    LevelModes(objects, kind, level);
    var next, cand := NextLevel(objects, have, out, level), Candidates(objects, have, out, level);
    var blobs := NewIn(Kept(cand, AdmittedSet(objects, filter, cand)), Elements(out + next));
    assert LevelAdded(objects, filter, have, out, level) == out + next + blobs;
    assert (out + next + blobs)[|out + next|..] == blobs;
  }

  lemma AppendOrdered(objects: Objects, kind: Oid -> Kind, pruned: set<Oid>, root: Oid, start: nat, out: seq<Oid>,
                      k: nat, next: seq<Oid>, blobs: seq<Oid>)
    requires Ordered(objects, kind, pruned, root, start, out, k) && start <= |out|
    requires forall x :: x in next ==> FirstAtDepth(objects, pruned, root, x, k + 1)
    requires forall b :: b in blobs ==> kind(b) != Tree
    ensures Ordered(objects, kind, pruned, root, start, out + next + blobs, k + 1)
  {
    hide AtDepth, NoDeeper;
    var all := out + next + blobs;
    assert forall i :: |out + next| <= i < |all| ==> all[i] == blobs[i - |out + next|] && all[i] in blobs;
    forall i | start <= i < |all| && kind(all[i]) == Tree
      ensures ReachedBy(objects, pruned, root, all[i], k + 1)
      ensures i < |out| ==> all[i] == out[i] && ReachedBy(objects, pruned, root, all[i], k)
      ensures i >= |out| ==> FirstAtDepth(objects, pruned, root, all[i], k + 1)
    {
      if i < |out| {
        assert all[i] == out[i];
      } else if i < |out + next| {
        assert all[i] == next[i - |out|] && all[i] in next;
      }
    }
    forall i, j | start <= i < j < |all| && kind(all[i]) == Tree && kind(all[j]) == Tree
      ensures NoDeeper(objects, pruned, root, all[i], all[j])
    {
      if j >= |out| {
        ShallowerFirst(objects, pruned, root, all[i], all[j], k + 1);
      }
    }
  }

  lemma ShallowerFirst(objects: Objects, pruned: set<Oid>, root: Oid, x: Oid, y: Oid, k: nat)
    requires ReachedBy(objects, pruned, root, x, k) && FirstAtDepth(objects, pruned, root, y, k)
    ensures NoDeeper(objects, pruned, root, x, y)
  {
    hide AtDepth;
    var m: nat :| m <= k && AtDepth(objects, pruned, root, x, m);
    forall n: nat | AtDepth(objects, pruned, root, y, n)
      ensures exists m: nat :: m <= n && AtDepth(objects, pruned, root, x, m)
    {
      assert n >= k;
    }
  }

  lemma {:induction false} LevelsOrdered(objects: Objects, filter: FilterSpec, kind: Oid -> Kind, have: set<Oid>,
                                         out0: seq<Oid>, root: Oid, out: seq<Oid>, level: seq<Oid>, k: nat)
    requires KindsAgree(objects, kind) && out0 <= out
    requires Levelled(objects, have + Elements(out0), root, out, level, k)
    requires Ordered(objects, kind, have + Elements(out0), root, |out0|, out, k)
    ensures InDepthOrder(objects, kind, have + Elements(out0), root, |out0|,
                         LevelOrder(objects, filter, have, out, level))
    decreases AllChildren(objects) - Elements(out)
  {
    hide KindsAgree, Levelled, InDepthOrder, LevelAdded, NextLevel;
    if level != [] {
      var out', next := LevelAdded(objects, filter, have, out, level), NextLevel(objects, have, out, level);
      LevelKeeps(objects, filter, kind, have, out0, root, out, level, k);
      if next != [] {
        LevelGrows(objects, filter, have, out, level);
        LevelsOrdered(objects, filter, kind, have, out0, root, out', next, k + 1);
      }
    }
  }

  /** Of the trees one commit adds, none precedes one that can be reached through fewer unpruned trees. */
  lemma TreeOrderIsBreadthFirst(objects: Objects, filter: FilterSpec, kind: Oid -> Kind, have: set<Oid>, out0: seq<Oid>,
                                root: Oid)
    requires KindsAgree(objects, kind) && kind(root) == Tree
    ensures InDepthOrder(objects, kind, have + Elements(out0), root, |out0|,
                         TreeOrder(objects, filter, have, out0, root))
  {
    hide KindsAgree, LevelOrder;
    if root !in out0 && root !in have {
      RootLevelled(objects, kind, have, out0, root);
      LevelsOrdered(objects, filter, kind, have, out0, root, out0 + [root], [root], 0);
    }
  }

  lemma RootLevelled(objects: Objects, kind: Oid -> Kind, have: set<Oid>, out0: seq<Oid>, root: Oid)
    requires root !in out0 && root !in have
    ensures Levelled(objects, have + Elements(out0), root, out0 + [root], [root], 0)
    ensures Ordered(objects, kind, have + Elements(out0), root, |out0|, out0 + [root], 0)
  {
    var pruned, out := have + Elements(out0), out0 + [root];
    assert WayDown(objects, pruned, root, root, 0, [root]);
    assert forall x :: AtDepth(objects, pruned, root, x, 0) <==> x == root;
    assert AtDepth(objects, pruned, root, root, 0);
    assert out[|out0|] == root;
  }
}
