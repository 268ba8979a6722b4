/**
 The order in which collection lists objects: each sent commit followed by the
 trees and blobs it adds, one tree depth at a time, and within a depth the new
 subtrees before the admitted blobs, in parent order and then entry order.
 */
module CollectionOrder {
  import opened Reachability
  import opened GitObjects
  import opened OrderedSets

  datatype FilterSpec = NoFilter | BlobNone | BlobLimit(limit: nat)

  predicate Admits(objects: Objects, filter: FilterSpec, b: Oid) {
    match filter
    case NoFilter => true
    case BlobNone => false
    case BlobLimit(limit) => b in objects && objects[b].BlobObject? && objects[b].size <= limit
  }

  ghost predicate IsTree(objects: Objects, t: Oid) {
    t in objects && objects[t].TreeObject?
  }

  function Leaves(entries: seq<TreeEntry>): (r: seq<Oid>)
    ensures forall c :: c in r <==> Leaf(c) in entries
  {
    if entries == [] then []
    else
      var rest := Leaves(entries[1..]);
      assert entries == [entries[0]] + entries[1..];
      if entries[0].Leaf? then [entries[0].oid] + rest else rest
  }

  lemma {:induction false} EntriesConcat(a: seq<TreeEntry>, b: seq<TreeEntry>)
    ensures Subtrees(a + b) == Subtrees(a) + Subtrees(b) && Leaves(a + b) == Leaves(a) + Leaves(b)
    decreases |a|
  {
    if a == [] {
      assert a + b == b;
    } else {
      assert (a + b)[1..] == a[1..] + b;
      EntriesConcat(a[1..], b);
    }
  }

  lemma EntriesNext(entries: seq<TreeEntry>, i: nat)
    requires i < |entries|
    ensures Subtrees(entries[..i + 1]) ==
            if entries[i].Subtree? then Subtrees(entries[..i]) + [entries[i].oid] else Subtrees(entries[..i])
    ensures Leaves(entries[..i + 1]) ==
            if entries[i].Leaf? then Leaves(entries[..i]) + [entries[i].oid] else Leaves(entries[..i])
  {
    assert entries[..i + 1] == entries[..i] + [entries[i]];
    EntriesConcat(entries[..i], [entries[i]]);
    assert [entries[i]][1..] == [];
  }

  /** The entries of all trees of a level, one tree after the other. */
  ghost function EntriesOf(objects: Objects, level: seq<Oid>): seq<TreeEntry> {
    if level == [] then []
    else
      var t := level[|level| - 1];
      EntriesOf(objects, level[..|level| - 1]) + if IsTree(objects, t) then objects[t].entries else []
  }

  lemma {:induction false} EntriesFrom(objects: Objects, level: seq<Oid>, e: TreeEntry)
    requires e in EntriesOf(objects, level)
    ensures exists t :: t in level && IsTree(objects, t) && e in objects[t].entries
    decreases |level|
  {
    var n := |level| - 1;
    if e in EntriesOf(objects, level[..n]) {
      EntriesFrom(objects, level[..n], e);
      assert forall t :: t in level[..n] ==> t in level;
    } else {
      assert level[n] in level;
    }
  }

  ghost function AllChildren(objects: Objects): set<Oid> {
    set t, c | t in objects && c in Children(objects[t]) :: c
  }

  ghost function AdmittedSet(objects: Objects, filter: FilterSpec, cand: seq<Oid>): set<Oid> {
    set x | x in cand && Admits(objects, filter, x)
  }

  /** The admitted candidates, in candidate order, behind what is collected. */
  ghost function Admitted(objects: Objects, filter: FilterSpec, out: seq<Oid>, cand: seq<Oid>): seq<Oid> {
    out + NewIn(Kept(cand, AdmittedSet(objects, filter, cand)), Elements(out))
  }

  /** The subtrees a level adds, which are the next level. */
  ghost function NextLevel(objects: Objects, have: set<Oid>, out: seq<Oid>, level: seq<Oid>): seq<Oid> {
    NewIn(Subtrees(EntriesOf(objects, level)), have + Elements(out))
  }

  /** The blobs a level offers to the filter. */
  ghost function Candidates(objects: Objects, have: set<Oid>, out: seq<Oid>, level: seq<Oid>): seq<Oid> {
    NewIn(Leaves(EntriesOf(objects, level)), have + Elements(out))
  }

  ghost function LevelAdded(objects: Objects, filter: FilterSpec, have: set<Oid>, out: seq<Oid>, level: seq<Oid>)
    : seq<Oid>
  {
    Admitted(objects, filter, out + NextLevel(objects, have, out, level), Candidates(objects, have, out, level))
  }

  /** A level adds something below it that was not collected before, or nothing is left to walk. */
  lemma LevelGrows(objects: Objects, filter: FilterSpec, have: set<Oid>, out: seq<Oid>, level: seq<Oid>)
    requires NextLevel(objects, have, out, level) != []
    ensures var added := LevelAdded(objects, filter, have, out, level);
      AllChildren(objects) - Elements(added) < AllChildren(objects) - Elements(out)
  {
    hide NewIn, Kept, Subtrees, Leaves, Admits, Children;
    var next := NextLevel(objects, have, out, level);
    var x := next[0];
    assert x in next && Subtree(x) in EntriesOf(objects, level);
    EntriesFrom(objects, level, Subtree(x));
    var t :| t in level && IsTree(objects, t) && Subtree(x) in objects[t].entries;
    SubtreeIsChild(objects, t, x);
    assert x in Elements(LevelAdded(objects, filter, have, out, level)) && x !in Elements(out);
    assert Elements(out) <= Elements(LevelAdded(objects, filter, have, out, level));
  }

  lemma SubtreeIsChild(objects: Objects, t: Oid, x: Oid)
    requires IsTree(objects, t) && Subtree(x) in objects[t].entries
    ensures x in AllChildren(objects)
  {
    assert x in Children(objects[t]);
  }

  /** The whole walk below a level. */
  ghost function LevelOrder(objects: Objects, filter: FilterSpec, have: set<Oid>, out: seq<Oid>, level: seq<Oid>)
    : seq<Oid>
    decreases AllChildren(objects) - Elements(out)
  {
    if level == [] then out
    else
      var out', next := LevelAdded(objects, filter, have, out, level), NextLevel(objects, have, out, level);
      if next == [] then out'
      else
        LevelGrows(objects, filter, have, out, level);
        LevelOrder(objects, filter, have, out', next)
  }

  lemma LevelOrderStep(objects: Objects, filter: FilterSpec, have: set<Oid>, out: seq<Oid>, level: seq<Oid>)
    requires level != []
    ensures LevelOrder(objects, filter, have, out, level) ==
            LevelOrder(objects, filter, have, LevelAdded(objects, filter, have, out, level),
                       NextLevel(objects, have, out, level))
  {
    hide NewIn, Kept, Subtrees, Leaves, Admits, LevelAdded, NextLevel;
  }

  /** What one commit's root tree adds. */
  ghost function TreeOrder(objects: Objects, filter: FilterSpec, have: set<Oid>, out: seq<Oid>, root: Oid): seq<Oid> {
    if root in out || root in have then out else LevelOrder(objects, filter, have, out + [root], [root])
  }

  /** The collected list for a send list. */
  ghost function SentOrder(objects: Objects, filter: FilterSpec, have: set<Oid>, toSend: seq<Oid>): seq<Oid> {
    if toSend == [] then []
    else
      var id, before := toSend[|toSend| - 1], SentOrder(objects, filter, have, toSend[..|toSend| - 1]);
      var out := if id in before then before else before + [id];
      if id in objects && objects[id].CommitObject? then TreeOrder(objects, filter, have, out, objects[id].tree)
        else out
  }

  lemma SentOrderNext(objects: Objects, filter: FilterSpec, have: set<Oid>, toSend: seq<Oid>, i: nat)
    requires i < |toSend|
    ensures var id, before := toSend[i], SentOrder(objects, filter, have, toSend[..i]);
      var out := if id in before then before else before + [id];
      SentOrder(objects, filter, have, toSend[..i + 1]) ==
        if id in objects && objects[id].CommitObject? then TreeOrder(objects, filter, have, out, objects[id].tree)
          else out
  {
    assert toSend[..i + 1][..i] == toSend[..i];
  }

  // -------------------------------------------------- what the scan of a level computes

  /** No entry names one id both as a subtree and as a leaf, nor as a subtree what is offered as a leaf. */
  ghost predicate KindsApart(entries: seq<TreeEntry>) {
    forall x :: Subtree(x) in entries ==> Leaf(x) !in entries
  }

  /** A level's scan after its first `i` trees, in the terms of the level. */
  ghost predicate Scanned(objects: Objects, have: set<Oid>, start: seq<Oid>, level: seq<Oid>, i: nat, out: seq<Oid>,
                          next: seq<Oid>, cand: seq<Oid>)
    requires i <= |level|
  {
    && next == NextLevel(objects, have, start, level[..i]) && out == start + next
    && cand == Candidates(objects, have, start, level[..i])
  }

  lemma ScanStarts(objects: Objects, have: set<Oid>, start: seq<Oid>, level: seq<Oid>)
    ensures Scanned(objects, have, start, level, 0, start, [], [])
  {
    assert level[..0] == [];
    NewInNothing(have + Elements(start));
  }

  /** Scanning the entries of the next tree continues the level. */
  lemma ScanContinues(objects: Objects, kind: Oid -> Kind, have: set<Oid>, start: seq<Oid>, level: seq<Oid>, i: nat,
                      out: seq<Oid>, next: seq<Oid>, cand: seq<Oid>)
    requires i < |level| && IsTree(objects, level[i]) && Scanned(objects, have, start, level, i, out, next, cand)
    requires ModesAgree(EntriesOf(objects, level[..i + 1]), kind)
    ensures var entries := objects[level[i]].entries;
      var added := NewIn(Subtrees(entries), have + Elements(out));
      Scanned(objects, have, start, level, i + 1, out + added, next + added,
              cand + NewIn(Leaves(entries), have + Elements(out) + Elements(cand)))
  {
    hide NewIn, Subtrees, Leaves;
    var before, entries := EntriesOf(objects, level[..i]), objects[level[i]].entries;
    EntriesOfNext(objects, level, i);
    EntriesConcat(before, entries);
    var seen := have + Elements(start);
    NewInConcat(Subtrees(before), Subtrees(entries), seen);
    assert seen + Elements(Subtrees(before)) == have + Elements(out);
    NewInConcat(Leaves(before), Leaves(entries), seen);
    LeavesApart(before, entries, kind);
    NewInLocal(Leaves(entries), seen + Elements(Leaves(before)), have + Elements(out) + Elements(cand));
  }

  lemma EntriesOfNext(objects: Objects, level: seq<Oid>, i: nat)
    requires i < |level| && IsTree(objects, level[i])
    ensures EntriesOf(objects, level[..i + 1]) == EntriesOf(objects, level[..i]) + objects[level[i]].entries
  {
    assert level[..i + 1][..i] == level[..i];
  }

  lemma LeavesApart(before: seq<TreeEntry>, entries: seq<TreeEntry>, kind: Oid -> Kind)
    requires ModesAgree(before + entries, kind)
    ensures forall x :: x in Leaves(entries) ==> x !in Subtrees(before) && x !in Subtrees(entries)
  {
    hide Subtrees, Leaves;
  }

  lemma {:induction false} LevelModes(objects: Objects, kind: Oid -> Kind, level: seq<Oid>)
    requires KindsAgree(objects, kind)
    ensures ModesAgree(EntriesOf(objects, level), kind)
    decreases |level|
  {
    if level != [] {
      LevelModes(objects, kind, level[..|level| - 1]);
    }
  }
}
