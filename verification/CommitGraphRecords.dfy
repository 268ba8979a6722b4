/**
 Commit-graph records: lazy backfill, rebuild and the extension made by a push.
 A record's generation is the length of the longest parent path to a root. Both
 stack walks tolerate duplicate entries; they terminate because an unresolved
 commit that was expanded once finds all its parents resolved when it is on top again.
 */
module CommitGraphRecords {
  import opened Reachability
  import opened GitObjects
  import opened CommitDiscovery
  import FetchPlan

  predicate IsCommit(objects: Objects, c: Oid) {
    c in objects && objects[c].CommitObject?
  }

  // ------------------------------------------------------------------- depth

  ghost function Depth(objects: Objects, rank: Oid -> nat, c: Oid): nat
    requires Acyclic(objects, rank)
    decreases rank(c), if IsCommit(objects, c) then |objects[c].parents| + 1 else 0
  {
    if !IsCommit(objects, c) then 0
    else
      assert forall p :: p in objects[c].parents ==> p in Children(objects[c]);
      1 + MaxDepth(objects, rank, objects[c].parents, rank(c))
  }

  ghost function MaxDepth(objects: Objects, rank: Oid -> nat, ps: seq<Oid>, bound: nat): nat
    requires Acyclic(objects, rank) && forall p :: p in ps ==> rank(p) < bound
    decreases bound, |ps|
  {
    if ps == [] then 0
    else
      var d, rest := Depth(objects, rank, ps[|ps| - 1]), MaxDepth(objects, rank, ps[..|ps| - 1], bound);
      if d > rest then d else rest
  }

  /** A walk from commit to parent, every step a stored commit. */
  ghost predicate ParentPath(objects: Objects, p: seq<Oid>) {
    && |p| > 0
    && (forall i :: 0 <= i < |p| ==> IsCommit(objects, p[i]))
    && (forall i :: 0 <= i < |p| - 1 ==> p[i + 1] in objects[p[i]].parents)
  }

  lemma {:induction false} MaxDepthBounds(objects: Objects, rank: Oid -> nat, ps: seq<Oid>, bound: nat)
    requires Acyclic(objects, rank) && forall p :: p in ps ==> rank(p) < bound
    ensures forall p :: p in ps ==> Depth(objects, rank, p) <= MaxDepth(objects, rank, ps, bound)
    ensures ps != [] ==> exists p :: p in ps && Depth(objects, rank, p) == MaxDepth(objects, rank, ps, bound)
    decreases |ps|
  {
    hide Acyclic, Depth;
    if ps != [] {
      var last, front := ps[|ps| - 1], ps[..|ps| - 1];
      MaxDepthBounds(objects, rank, front, bound);
      assert ps == front + [last];
      assert last in ps;
    }
  }

  lemma DepthOfCommit(objects: Objects, rank: Oid -> nat, c: Oid)
    requires Acyclic(objects, rank) && IsCommit(objects, c)
    ensures forall p :: p in objects[c].parents ==>
            rank(p) < rank(c) && Depth(objects, rank, p) < Depth(objects, rank, c)
    ensures Depth(objects, rank, c) == 1 ||
            exists p :: p in objects[c].parents && Depth(objects, rank, c) == Depth(objects, rank, p) + 1
  {
    assert forall p :: p in objects[c].parents ==> p in Children(objects[c]);
    MaxDepthBounds(objects, rank, objects[c].parents, rank(c));
  }

  /** No parent path from a commit is longer than its depth. */
  lemma {:induction false} DepthBoundsPaths(objects: Objects, rank: Oid -> nat, p: seq<Oid>)
    requires Acyclic(objects, rank) && ParentPath(objects, p)
    ensures |p| <= Depth(objects, rank, p[0])
    decreases |p|
  {
    hide Acyclic;
    DepthOfCommit(objects, rank, p[0]);
    if |p| > 1 {
      DepthBoundsPaths(objects, rank, p[1..]);
    }
  }

  /** Some parent path from a commit is as long as its depth. */
  lemma {:induction false} DepthIsAPath(objects: Objects, rank: Oid -> nat, c: Oid) returns (p: seq<Oid>)
    requires Acyclic(objects, rank) && IsCommit(objects, c)
    ensures ParentPath(objects, p) && p[0] == c && |p| == Depth(objects, rank, c)
    decreases rank(c)
  {
    hide Acyclic, Depth;
    DepthOfCommit(objects, rank, c);
    if Depth(objects, rank, c) == 1 {
      p := [c];
    } else {
      var q :| q in objects[c].parents && Depth(objects, rank, c) == Depth(objects, rank, q) + 1;
      if IsCommit(objects, q) {
        var rest := DepthIsAPath(objects, rank, q);
        p := [c] + rest;
      } else {
        NotACommitDepth(objects, rank, q);
        assert false;
      }
    }
  }

  lemma NotACommitDepth(objects: Objects, rank: Oid -> nat, c: Oid)
    requires Acyclic(objects, rank) && !IsCommit(objects, c)
    ensures Depth(objects, rank, c) == 0
  {
  }

  // ----------------------------------------------------------------- records

  ghost function TrueRecord(objects: Objects, rank: Oid -> nat, c: Oid): CommitInfo
    requires Acyclic(objects, rank) && IsCommit(objects, c)
  {
    CommitInfo(Depth(objects, rank, c), objects[c].tree, objects[c].parents)
  }

  ghost predicate SoundAt(objects: Objects, rank: Oid -> nat, records: map<Oid, CommitInfo>, c: Oid)
    requires Acyclic(objects, rank)
  {
    c in records && IsCommit(objects, c) && records[c] == TrueRecord(objects, rank, c)
  }

  /** Records are missing or right. */
  ghost predicate Sound(objects: Objects, rank: Oid -> nat, records: map<Oid, CommitInfo>)
    requires Acyclic(objects, rank)
  {
    forall c :: c in records ==> SoundAt(objects, rank, records, c)
  }

  /** The record is that commit's own: its tree, its parents in order, and the length of its longest parent path. */
  ghost predicate Describes(objects: Objects, c: Oid, info: CommitInfo) {
    && c in objects && objects[c] == CommitObject(info.tree, info.parents)
    && (exists p :: ParentPath(objects, p) && p[0] == c && |p| == info.generation)
    && (forall p :: ParentPath(objects, p) && p[0] == c ==> |p| <= info.generation)
  }

  lemma TrueRecordDescribes(objects: Objects, rank: Oid -> nat, c: Oid)
    requires Acyclic(objects, rank) && IsCommit(objects, c)
    ensures Describes(objects, c, TrueRecord(objects, rank, c))
  {
    hide Acyclic, Depth;
    var path := DepthIsAPath(objects, rank, c);
    forall p | ParentPath(objects, p) && p[0] == c
      ensures |p| <= Depth(objects, rank, c)
    {
      DepthBoundsPaths(objects, rank, p);
    }
  }

  ghost predicate Described(objects: Objects, records: map<Oid, CommitInfo>, c: Oid) {
    c in records && Describes(objects, c, records[c])
  }

  lemma SoundDescribes(objects: Objects, rank: Oid -> nat, records: map<Oid, CommitInfo>)
    requires Acyclic(objects, rank)
    ensures forall c :: SoundAt(objects, rank, records, c) ==> Described(objects, records, c)
  {
    hide Acyclic, Depth, Describes, TrueRecord;
    forall c | SoundAt(objects, rank, records, c)
      ensures Described(objects, records, c)
    {
      TrueRecordDescribes(objects, rank, c);
    }
  }

  /** A graph of sound records tells fetches the truth, and its generations descend. */
  lemma SoundRecordsServe(objects: Objects, rank: Oid -> nat, records: map<Oid, CommitInfo>, g: Graph)
    requires Acyclic(objects, rank) && Sound(objects, rank, records)
    requires forall c :: Known(g, c) ==> c in records && g[c].info == records[c]
    ensures FetchPlan.Truthful(g, objects) && TrueGenerations(g)
  {
    hide Acyclic, Depth, ParentPath;
    SoundDescribes(objects, rank, records);
    forall c | Known(g, c)
      ensures c in objects && objects[c] == CommitObject(g[c].info.tree, g[c].info.parents)
    {
      assert SoundAt(objects, rank, records, c);
      assert Described(objects, records, c);
    }
    SoundRecordsDescend(objects, rank, g);
  }

  /** Sound records give commit discovery the descending generations its exactness needs. */
  lemma SoundRecordsDescend(objects: Objects, rank: Oid -> nat, g: Graph)
    requires Acyclic(objects, rank)
    requires forall c :: Known(g, c) ==> IsCommit(objects, c) && g[c].info == TrueRecord(objects, rank, c)
    ensures TrueGenerations(g)
  {
    hide Acyclic, Depth;
    forall x, p | Known(g, x) && p in Parents(g, x) && Known(g, p)
      ensures Gen(g, p) < Gen(g, x)
    {
      DepthOfCommit(objects, rank, x);
    }
  }

  ghost function CommitEdges(objects: Objects): Edges {
    map c | c in objects && objects[c].CommitObject? :: objects[c].parents
  }

  /** A commit on the way cannot be read. */
  ghost predicate ParseFails(objects: Objects, roots: set<Oid>, e: WalkError) {
    exists c ::
      && Reachable(CommitEdges(objects), roots, c) && !IsCommit(objects, c)
      && e == if c in objects then UnexpectedKind(c, Commit, KindOf(objects[c])) else MissingObject(c)
  }

  function ParseError(objects: Objects, c: Oid): WalkError
    requires !IsCommit(objects, c)
  {
    if c in objects then UnexpectedKind(c, Commit, KindOf(objects[c])) else MissingObject(c)
  }

  // -------------------------------------------------------- the stack walk

  ghost predicate OnStackAbove(stack: seq<Oid>, j: nat, p: Oid) {
    exists k :: j < k < |stack| && stack[k] == p
  }

  /** Position `j` is where `x` was expanded: everything above is below it in the graph, no parent is forgotten. */
  ghost predicate ExpandedAt(objects: Objects, rank: Oid -> nat, gens: map<Oid, nat>, stack: seq<Oid>, x: Oid, j: nat)
    requires IsCommit(objects, x)
  {
    && j < |stack| && stack[j] == x
    && (forall k :: j < k < |stack| ==> rank(stack[k]) < rank(x))
    && (forall p :: p in objects[x].parents ==> p in gens || OnStackAbove(stack, j, p))
  }

  ghost predicate Expanded(objects: Objects, rank: Oid -> nat, gens: map<Oid, nat>, stack: seq<Oid>, x: Oid) {
    IsCommit(objects, x) && exists j: nat :: ExpandedAt(objects, rank, gens, stack, x, j)
  }

  ghost predicate AllExpanded(objects: Objects, rank: Oid -> nat, gens: map<Oid, nat>, stack: seq<Oid>,
                              parsed: set<Oid>)
  {
    forall x :: x in parsed && x !in gens ==> Expanded(objects, rank, gens, stack, x)
  }

  /** Popping a resolved top. */
  lemma PopKeeps(objects: Objects, rank: Oid -> nat, gens: map<Oid, nat>, gens': map<Oid, nat>, stack: seq<Oid>,
                 parsed: set<Oid>)
    requires AllExpanded(objects, rank, gens, stack, parsed) && stack != []
    requires gens.Keys <= gens'.Keys && stack[|stack| - 1] in gens'
    ensures AllExpanded(objects, rank, gens', stack[..|stack| - 1], parsed)
  {
    var rest := stack[..|stack| - 1];
    forall x | x in parsed && x !in gens'
      ensures Expanded(objects, rank, gens', rest, x)
    {
      var j: nat :| ExpandedAt(objects, rank, gens, stack, x, j);
      forall p | p in objects[x].parents && p !in gens'
        ensures OnStackAbove(rest, j, p)
      {
        var k :| j < k < |stack| && stack[k] == p;
        assert rest[k] == p;
      }
      assert ExpandedAt(objects, rank, gens', rest, x, j);
    }
  }

  /** Expanding a top for the first time. */
  lemma PushKeeps(objects: Objects, rank: Oid -> nat, gens: map<Oid, nat>, stack: seq<Oid>, parsed: set<Oid>, x: Oid,
                  missing: seq<Oid>)
    requires AllExpanded(objects, rank, gens, stack, parsed) && stack != [] && stack[|stack| - 1] == x && x !in parsed
    requires IsCommit(objects, x) && forall p :: p in objects[x].parents ==> rank(p) < rank(x)
    requires forall p :: p in missing <==> p in objects[x].parents && p !in gens
    ensures AllExpanded(objects, rank, gens, stack + missing, parsed + {x})
  {
    var n, more := |stack|, stack + missing;
    forall y | y in parsed + {x} && y !in gens
      ensures Expanded(objects, rank, gens, more, y)
    {
      if y == x {
        forall p | p in objects[x].parents && p !in gens
          ensures OnStackAbove(more, n - 1, p)
        {
          var k :| 0 <= k < |missing| && missing[k] == p;
          assert more[n + k] == p;
        }
        assert forall k :: n - 1 < k < |more| ==> more[k] in missing;
        assert ExpandedAt(objects, rank, gens, more, x, n - 1);
      } else {
        var j: nat :| ExpandedAt(objects, rank, gens, stack, y, j);
        assert rank(stack[n - 1]) < rank(y);
        assert forall k :: n <= k < |more| ==> more[k] in missing;
        forall p | p in objects[y].parents && p !in gens
          ensures OnStackAbove(more, j, p)
        {
          var k :| j < k < |stack| && stack[k] == p;
          assert more[k] == p;
        }
        assert ExpandedAt(objects, rank, gens, more, y, j);
      }
    }
  }

  /** An expanded commit back on top finds its parents resolved. */
  lemma TopParentsResolved(objects: Objects, rank: Oid -> nat, gens: map<Oid, nat>, stack: seq<Oid>, x: Oid)
    requires Expanded(objects, rank, gens, stack, x) && stack != [] && stack[|stack| - 1] == x
    ensures forall p :: p in objects[x].parents ==> p in gens
  {
    var j: nat :| ExpandedAt(objects, rank, gens, stack, x, j);
    assert j == |stack| - 1;
  }

  /** The maximum the code folds over resolved parents is the recursive one. */
  method MaxGeneration(objects: Objects, ghost rank: Oid -> nat, gens: map<Oid, nat>, parents: seq<Oid>,
                       ghost bound: nat) returns (m: nat)
    requires Acyclic(objects, rank)
    requires forall p :: p in parents ==> rank(p) < bound && p in gens && gens[p] == Depth(objects, rank, p)
    ensures m == MaxDepth(objects, rank, parents, bound)
  {
    hide Acyclic, Depth;
    m := 0;
    for i := 0 to |parents|
      invariant m == MaxDepth(objects, rank, parents[..i], bound)
    {
      assert parents[..i + 1][..i] == parents[..i];
      if gens[parents[i]] > m {
        m := gens[parents[i]];
      }
    }
    assert parents[..|parents|] == parents;
  }

  method Missing(gens: map<Oid, nat>, parents: seq<Oid>) returns (missing: seq<Oid>)
    ensures forall p :: p in missing <==> p in parents && p !in gens
  {
    missing := [];
    for i := 0 to |parents|
      invariant forall p :: p in missing <==> p in parents[..i] && p !in gens
    {
      assert parents[..i + 1] == parents[..i] + [parents[i]];
      if parents[i] !in gens {
        missing := missing + [parents[i]];
      }
    }
    assert parents[..|parents|] == parents;
  }

  /** Resolved commits have their true record stored; the walk's stack stays below its root. */
  ghost predicate Resolved(objects: Objects, rank: Oid -> nat, records: map<Oid, CommitInfo>, gens: map<Oid, nat>)
    requires Acyclic(objects, rank)
  {
    forall c :: c in gens ==> SoundAt(objects, rank, records, c) && gens[c] == Depth(objects, rank, c)
  }

  type Parsed = map<Oid, (Oid, seq<Oid>)>

  /** What both walks keep, with `roots` where they started. */
  ghost predicate WalkOk(objects: Objects, rank: Oid -> nat, roots: set<Oid>, records: map<Oid, CommitInfo>,
                         gens: map<Oid, nat>, parsed: Parsed, stack: seq<Oid>)
    requires Acyclic(objects, rank)
  {
    && Resolved(objects, rank, records, gens)
    && AllExpanded(objects, rank, gens, stack, parsed.Keys)
    && (forall c :: c in parsed ==> IsCommit(objects, c) && parsed[c] == (objects[c].tree, objects[c].parents))
    && (forall c :: c in stack ==> Reachable(CommitEdges(objects), roots, c))
  }

  lemma WalkStarts(objects: Objects, rank: Oid -> nat, roots: set<Oid>, records: map<Oid, CommitInfo>,
                   gens: map<Oid, nat>, parsed: Parsed, root: Oid)
    requires Acyclic(objects, rank) && WalkOk(objects, rank, roots, records, gens, parsed, []) && root in roots
    ensures WalkOk(objects, rank, roots, records, gens, parsed, [root])
  {
    ReachRoot(CommitEdges(objects), roots, root);
    assert forall x :: x in parsed.Keys && x !in gens ==> Expanded(objects, rank, gens, [], x);
  }

  lemma WalkPops(objects: Objects, rank: Oid -> nat, roots: set<Oid>, records: map<Oid, CommitInfo>,
                 gens: map<Oid, nat>, parsed: Parsed, stack: seq<Oid>)
    requires Acyclic(objects, rank) && WalkOk(objects, rank, roots, records, gens, parsed, stack) && stack != []
    requires stack[|stack| - 1] in gens
    ensures WalkOk(objects, rank, roots, records, gens, parsed, stack[..|stack| - 1])
  {
    hide Acyclic, Depth, Reachable, AllExpanded;
    PopKeeps(objects, rank, gens, gens, stack, parsed.Keys);
  }

  /** A commit resolved with its true record is popped. */
  lemma WalkResolves(objects: Objects, rank: Oid -> nat, roots: set<Oid>, records: map<Oid, CommitInfo>,
                     gens: map<Oid, nat>, parsed: Parsed, stack: seq<Oid>, records': map<Oid, CommitInfo>,
                     parsed': Parsed)
    requires Acyclic(objects, rank) && WalkOk(objects, rank, roots, records, gens, parsed, stack)
    requires stack != [] && IsCommit(objects, stack[|stack| - 1])
    requires var top := stack[|stack| - 1];
      && records' == records[top := TrueRecord(objects, rank, top)]
      && (parsed' == parsed || parsed' == parsed[top := (objects[top].tree, objects[top].parents)])
    ensures var top := stack[|stack| - 1];
      WalkOk(objects, rank, roots, records', gens[top := Depth(objects, rank, top)], parsed', stack[..|stack| - 1])
  {
    hide Acyclic, Depth, Reachable, Expanded;
    var top := stack[|stack| - 1];
    PopKeeps(objects, rank, gens, gens[top := Depth(objects, rank, top)], stack, parsed.Keys);
  }

  lemma WalkExpands(objects: Objects, rank: Oid -> nat, roots: set<Oid>, records: map<Oid, CommitInfo>,
                    gens: map<Oid, nat>, parsed: Parsed, stack: seq<Oid>, missing: seq<Oid>)
    requires Acyclic(objects, rank) && WalkOk(objects, rank, roots, records, gens, parsed, stack)
    requires stack != [] && IsCommit(objects, stack[|stack| - 1]) && stack[|stack| - 1] !in parsed
    requires forall p :: p in missing <==> p in objects[stack[|stack| - 1]].parents && p !in gens
    ensures var top := stack[|stack| - 1];
      WalkOk(objects, rank, roots, records, gens, parsed[top := (objects[top].tree, objects[top].parents)],
             stack + missing)
  {
    hide Acyclic, Depth, Reachable, AllExpanded;
    var top := stack[|stack| - 1];
    assert top in stack;
    DepthOfCommit(objects, rank, top);
    PushKeeps(objects, rank, gens, stack, parsed.Keys, top, missing);
    assert parsed[top := (objects[top].tree, objects[top].parents)].Keys == parsed.Keys + {top};
    forall p | p in missing
      ensures Reachable(CommitEdges(objects), roots, p)
    {
      ReachStep(CommitEdges(objects), roots, top, p);
    }
  }

  lemma WalkTop(objects: Objects, rank: Oid -> nat, roots: set<Oid>, records: map<Oid, CommitInfo>, gens: map<Oid, nat>,
                parsed: Parsed, stack: seq<Oid>)
    requires Acyclic(objects, rank) && WalkOk(objects, rank, roots, records, gens, parsed, stack) && stack != []
    ensures var top := stack[|stack| - 1];
      && Reachable(CommitEdges(objects), roots, top)
      && (top in parsed ==> IsCommit(objects, top) && parsed[top] == (objects[top].tree, objects[top].parents))
      && (top in parsed && top !in gens ==> forall p :: p in objects[top].parents ==> p in gens)
  {
    var top := stack[|stack| - 1];
    assert top in stack;
    if top in parsed && top !in gens {
      assert Expanded(objects, rank, gens, stack, top);
      TopParentsResolved(objects, rank, gens, stack, top);
    }
  }

  /** The stack grew, by ids that lie below its top. */
  ghost predicate Pushed(rank: Oid -> nat, stack: seq<Oid>, stack': seq<Oid>)
    requires stack != []
  {
    stack <= stack' && forall k :: |stack| <= k < |stack'| ==> rank(stack'[k]) < rank(stack[|stack| - 1])
  }

  /**
   What concurrent writers have added by each read of a lookup. A read is named by the commit on top of
   the stack and whether that commit was expanded before; no such pair is read twice.
   */
  type Arrivals = (Oid, bool) -> map<Oid, CommitInfo>

  ghost predicate SoundArrivals(objects: Objects, rank: Oid -> nat, others: Arrivals)
    requires Acyclic(objects, rank)
  {
    forall c, again :: Sound(objects, rank, others(c, again))
  }

  /** A commit with parents is read again for its own turn, once they are resolved. */
  predicate Expands(objects: Objects, c: Oid) {
    IsCommit(objects, c) && objects[c].parents != []
  }

  /** Records are never deleted: one of the target seen at any read is still there at the target's own turn. */
  ghost predicate Lasting(objects: Objects, target: Oid, others: Arrivals) {
    forall c, again :: target in others(c, again) ==> target in others(target, Expands(objects, target))
  }

  ghost predicate EachLasting(objects: Objects, parents: seq<Oid>, others: nat -> Arrivals) {
    forall j :: 0 <= j < |parents| ==> Lasting(objects, parents[j], others(j))
  }

  /** Somebody else had recorded the target by its own turn. */
  ghost predicate Beaten(objects: Objects, target: Oid, before: map<Oid, CommitInfo>, others: Arrivals) {
    target in before || target in others(target, Expands(objects, target))
  }

  ghost predicate Arrived(others: Arrivals, c: Oid) {
    exists d, again :: c in others(d, again)
  }

  /** A record that was written here, not found or brought by others, has all its parents recorded too. */
  ghost predicate NoGaps(objects: Objects, before: set<Oid>, recorded: set<Oid>, others: Arrivals) {
    forall c :: c in recorded && c !in before && !Arrived(others, c) ==>
      IsCommit(objects, c) && forall p :: p in objects[c].parents ==> p in recorded
  }

  lemma GapsStay(objects: Objects, before: set<Oid>, was: set<Oid>, others: Arrivals, top: Oid, again: bool,
                 gens: set<Oid>, wrote: bool, recorded: set<Oid>)
    requires NoGaps(objects, before, was, others) && gens <= was
    requires recorded == was + others(top, again).Keys + (if wrote then {top} else {})
    requires wrote ==> IsCommit(objects, top) && forall p :: p in objects[top].parents ==> p in gens
    ensures NoGaps(objects, before, recorded, others)
  {
    forall c | c in others(top, again)
      ensures Arrived(others, c)
    {
    }
  }

  lemma ResolvedRecorded(objects: Objects, rank: Oid -> nat, roots: set<Oid>, records: map<Oid, CommitInfo>,
                         gens: map<Oid, nat>, parsed: Parsed, stack: seq<Oid>)
    requires Acyclic(objects, rank) && WalkOk(objects, rank, roots, records, gens, parsed, stack)
    ensures gens.Keys <= records.Keys
  {
    hide Acyclic, Depth, AllExpanded, Reachable;
  }

  lemma NothingWritten(objects: Objects, before: set<Oid>, others: Arrivals)
    ensures NoGaps(objects, before, before, others)
  {
  }

  /** Everything on the stack above the target lies below it in the graph. */
  ghost predicate TargetLast(rank: Oid -> nat, stack: seq<Oid>, target: Oid) {
    stack != [] ==> stack[0] == target && forall k :: 0 < k < |stack| ==> rank(stack[k]) < rank(target)
  }

  /** Where a backfill stands with its target: not read yet, expanded, or resolved by this backfill or by a winner. */
  ghost predicate TargetStands(objects: Objects, target: Oid, beaten: bool, recorded: set<Oid>, resolved: set<Oid>,
                               parsed: set<Oid>, stack: seq<Oid>, found: bool)
  {
    && (found ==> stack == [] && !beaten && target in recorded)
    && (!found && target in recorded ==> beaten)
    && (target in resolved ==> target in recorded)
    && (stack == [] ==> target in resolved)
    && (stack != [] && target !in parsed ==> stack == [target] && resolved == {})
    && (stack != [] && target in parsed ==> Expands(objects, target))
  }

  lemma BackfillStarts(objects: Objects, rank: Oid -> nat, records: map<Oid, CommitInfo>, others: Arrivals, target: Oid)
    requires Acyclic(objects, rank)
    ensures WalkOk(objects, rank, {target}, records, map[], map[], [target])
    ensures Kept(records, records) && TargetLast(rank, [target], target)
    ensures var beaten := Beaten(objects, target, records, others);
      TargetStands(objects, target, beaten, records.Keys, {}, {}, [target], false)
  {
    hide Acyclic, Depth, Reachable;
    EmptyWalk(objects, rank, {target}, records);
    WalkStarts(objects, rank, {target}, records, map[], map[], target);
  }

  lemma TargetPops(objects: Objects, rank: Oid -> nat, target: Oid, beaten: bool, recorded: set<Oid>,
                   resolved: set<Oid>, parsed: set<Oid>, stack: seq<Oid>, found: bool)
    requires TargetStands(objects, target, beaten, recorded, resolved, parsed, stack, found)
    requires TargetLast(rank, stack, target) && stack != [] && stack[|stack| - 1] in resolved
    ensures TargetStands(objects, target, beaten, recorded, resolved, parsed, stack[..|stack| - 1], found)
    ensures TargetLast(rank, stack[..|stack| - 1], target)
  {
  }

  /** A read of some top: the target is settled at its own turn, by whoever was first. */
  lemma TargetReads(objects: Objects, rank: Oid -> nat, target: Oid, before: map<Oid, CommitInfo>, others: Arrivals,
                    recorded: set<Oid>, resolved: set<Oid>, parsed: set<Oid>, stack: seq<Oid>, found: bool,
                    recorded': set<Oid>, resolved': set<Oid>, parsed': set<Oid>, stack': seq<Oid>, wrote: bool)
    requires var beaten := Beaten(objects, target, before, others);
      TargetStands(objects, target, beaten, recorded, resolved, parsed, stack, found)
    requires TargetLast(rank, stack, target) && Lasting(objects, target, others)
    requires before.Keys <= recorded && parsed <= parsed' && stack != [] && stack[|stack| - 1] !in resolved
    requires var top := stack[|stack| - 1];
      && recorded' == recorded + others(top, top in parsed).Keys + (if wrote then {top} else {})
      && (wrote <==> top in resolved' && top !in recorded && top !in others(top, top in parsed))
      && (wrote ==> IsCommit(objects, top) && forall p :: p in objects[top].parents ==> p in resolved)
      && (top in recorded || top in others(top, top in parsed) ==> top in resolved')
      && if top in resolved' then resolved' == resolved + {top} && stack' == stack[..|stack| - 1]
         else resolved' == resolved && Pushed(rank, stack, stack') && top in parsed' && Expands(objects, top)
    ensures TargetLast(rank, stack', target)
    ensures var beaten, found' := Beaten(objects, target, before, others), wrote && stack[|stack| - 1] == target;
      TargetStands(objects, target, beaten, recorded', resolved', parsed', stack', found')
  {
    PushedLast(rank, stack, stack', target);
    var top := stack[|stack| - 1];
    if wrote && top == target && target !in parsed && objects[top].parents != [] {
      assert objects[top].parents[0] in objects[top].parents;
    }
  }

  class GraphStore {
    var records: map<Oid, CommitInfo>

    constructor ()
      ensures records == map[]
    {
      records := map[];
    }

    /** Handle an unresolved top: read it, then either record it from its resolved parents or expand it. */
    method ResolveTop(objects: Objects, gens: map<Oid, nat>, parsed: Parsed, stack: seq<Oid>, ghost rank: Oid -> nat,
                      ghost roots: set<Oid>)
      returns (r: Result<(map<Oid, nat>, Parsed, seq<Oid>)>)
      requires Acyclic(objects, rank) && WalkOk(objects, rank, roots, records, gens, parsed, stack)
      requires stack != [] && stack[|stack| - 1] !in gens
      modifies this
      ensures r.Err? ==> ParseFails(objects, roots, r.error) && records == old(records)
      ensures r.Ok? ==> var (gens', parsed', stack') := r.value;
        var top := stack[|stack| - 1];
        && WalkOk(objects, rank, roots, records, gens', parsed', stack')
        && parsed.Keys <= parsed'.Keys && parsed'.Keys <= objects.Keys
        && (parsed'.Keys == parsed.Keys ==> |stack'| < |stack|)
        && if top in gens'
           then && IsCommit(objects, top) && records == old(records)[top := TrueRecord(objects, rank, top)]
                && gens'.Keys == gens.Keys + {top} && stack' == stack[..|stack| - 1]
                && forall p :: p in objects[top].parents ==> p in gens
           else && records == old(records) && gens' == gens && Pushed(rank, stack, stack')
                && top in parsed' && Expands(objects, top)
    {
      hide Acyclic, Depth, WalkOk, Reachable;
      var top := stack[|stack| - 1];
      WalkTop(objects, rank, roots, records, gens, parsed, stack);
      if top !in parsed && !IsCommit(objects, top) {
        return Err(ParseError(objects, top));
      }
      var parsed' := if top in parsed then parsed else parsed[top := (objects[top].tree, objects[top].parents)];
      var (tree, parents) := parsed'[top];
      var missing := Missing(gens, parents);
      ResolvedFacts(objects, rank, roots, records, gens, parsed, stack);
      if missing == [] {
        assert forall p :: p in parents ==> p in gens;
        DepthOfCommit(objects, rank, top);
        var m := MaxGeneration(objects, rank, gens, parents, rank(top));
        DepthIs(objects, rank, top);
        WalkResolves(objects, rank, roots, records, gens, parsed, stack,
                     records[top := CommitInfo(1 + m, tree, parents)], parsed');
        records := records[top := CommitInfo(1 + m, tree, parents)];
        r := Ok((gens[top := 1 + m], parsed', stack[..|stack| - 1]));
      } else {
        assert missing[0] in missing;
        DepthOfCommit(objects, rank, top);
        assert forall k :: |stack| <= k < |stack + missing| ==> (stack + missing)[k] in missing;
        WalkExpands(objects, rank, roots, records, gens, parsed, stack, missing);
        r := Ok((gens, parsed', stack + missing));
      }
    }

    /** Handle an unresolved top in a backfill: take the stored record if there is one by now, else resolve it. */
    method ReadTop(objects: Objects, gens: map<Oid, nat>, parsed: Parsed, stack: seq<Oid>,
                   arrived: map<Oid, CommitInfo>, ghost rank: Oid -> nat, ghost roots: set<Oid>)
      returns (r: Result<(map<Oid, nat>, Parsed, seq<Oid>)>, wrote: bool)
      requires Acyclic(objects, rank) && Sound(objects, rank, records) && Sound(objects, rank, arrived)
      requires WalkOk(objects, rank, roots, records, gens, parsed, stack) && stack != [] && stack[|stack| - 1] !in gens
      requires parsed.Keys <= objects.Keys
      modifies this
      ensures Sound(objects, rank, records) && Kept(old(records), records)
      ensures records.Keys == old(records).Keys + arrived.Keys + if wrote then {stack[|stack| - 1]} else {}
      ensures r.Err? ==> ParseFails(objects, roots, r.error) && !wrote
      ensures stack[|stack| - 1] in old(records) || stack[|stack| - 1] in arrived ==> r.Ok?
      ensures r.Ok? ==> var (gens', parsed', stack') := r.value;
        var top := stack[|stack| - 1];
        && WalkOk(objects, rank, roots, records, gens', parsed', stack')
        && parsed.Keys <= parsed'.Keys && parsed'.Keys <= objects.Keys
        && (parsed'.Keys == parsed.Keys ==> |stack'| < |stack|)
        && (wrote <==> top in gens' && top !in old(records) && top !in arrived)
        && (wrote ==> IsCommit(objects, top) && forall p :: p in objects[top].parents ==> p in gens)
        && (top in old(records) || top in arrived ==> top in gens')
        && if top in gens' then gens'.Keys == gens.Keys + {top} && stack' == stack[..|stack| - 1]
           else gens' == gens && Pushed(rank, stack, stack') && top in parsed' && Expands(objects, top)
    {
      hide Acyclic, Depth, WalkOk, Reachable, SoundAt, ParseFails, Pushed;
      var top := stack[|stack| - 1];
      wrote := false;
      MergeKeeps(objects, rank, roots, records, arrived, gens, parsed, stack);
      records := records + arrived;
      if top in records {
        StoredIsTrue(objects, rank, records, top);
        WalkResolves(objects, rank, roots, records, gens, parsed, stack, records, parsed);
        return Ok((gens[top := records[top].generation], parsed, stack[..|stack| - 1])), false;
      }
      ghost var before := records;
      r := ResolveTop(objects, gens, parsed, stack, rank, roots);
      if r.Ok? {
        WrittenIsTrue(objects, rank, before, records, top);
        wrote := top in r.value.0;
      }
    }

    /** One read of a backfill, and what it means for who records the target first. */
    method TakeTurn(objects: Objects, target: Oid, others: Arrivals, gens: map<Oid, nat>, parsed: Parsed,
                    stack: seq<Oid>, ghost found0: bool, ghost rank: Oid -> nat, ghost before: map<Oid, CommitInfo>)
      returns (r: Result<(map<Oid, nat>, Parsed, seq<Oid>)>, found: bool)
      requires Acyclic(objects, rank) && Sound(objects, rank, records) && SoundArrivals(objects, rank, others)
      requires WalkOk(objects, rank, {target}, records, gens, parsed, stack) && TargetLast(rank, stack, target)
      requires stack != [] && stack[|stack| - 1] !in gens && parsed.Keys <= objects.Keys && Kept(before, records)
      requires Lasting(objects, target, others)
      requires var beaten := Beaten(objects, target, before, others);
        TargetStands(objects, target, beaten, records.Keys, gens.Keys, parsed.Keys, stack, found0)
      requires NoGaps(objects, before.Keys, records.Keys, others)
      modifies this
      ensures Sound(objects, rank, records) && Kept(before, records)
      ensures NoGaps(objects, before.Keys, records.Keys, others)
      ensures r.Err? ==> ParseFails(objects, {target}, r.error)
      ensures r.Ok? ==> var (gens', parsed', stack') := r.value;
        var beaten := Beaten(objects, target, before, others);
        && WalkOk(objects, rank, {target}, records, gens', parsed', stack') && TargetLast(rank, stack', target)
        && TargetStands(objects, target, beaten, records.Keys, gens'.Keys, parsed'.Keys, stack', found)
        && parsed.Keys <= parsed'.Keys <= objects.Keys && (parsed'.Keys == parsed.Keys ==> |stack'| < |stack|)
    {
      hide Acyclic, Depth, WalkOk, ParseFails, Sound, Kept, TargetStands, TargetLast, Pushed, Beaten, Lasting, NoGaps;
      ghost var was := records;
      KeptKeys(before, was);
      ResolvedRecorded(objects, rank, {target}, records, gens, parsed, stack);
      var top, wrote := stack[|stack| - 1], false;
      r, wrote := ReadTop(objects, gens, parsed, stack, others(top, top in parsed), rank, {target});
      KeptOn(before, was, records);
      GapsStay(objects, before.Keys, was.Keys, others, top, top in parsed, gens.Keys, wrote, records.Keys);
      found := wrote && top == target;
      if r.Ok? {
        TargetReads(objects, rank, target, before, others, was.Keys, gens.Keys, parsed.Keys, stack, found0,
                    records.Keys, r.value.0.Keys, r.value.1.Keys, r.value.2, wrote);
      }
    }

    /**
     Record the target and every ancestor without a record. Its record is returned exactly when nobody
     else had recorded it by its own turn, unless an ancestor cannot be read.
     */
    method Backfill(objects: Objects, target: Oid, others: Arrivals, ghost rank: Oid -> nat)
      returns (r: Result<CommitInfo>)
      requires Acyclic(objects, rank) && Sound(objects, rank, records) && SoundArrivals(objects, rank, others)
      requires Lasting(objects, target, others)
      modifies this
      ensures Sound(objects, rank, records) && Kept(old(records), records)
      ensures NoGaps(objects, old(records).Keys, records.Keys, others)
      ensures r.Ok? ==> SoundAt(objects, rank, records, target) && r.value == records[target]
      ensures r.Ok? ==> Describes(objects, target, r.value) && !Beaten(objects, target, old(records), others)
      ensures r.Err? && !ParseFails(objects, {target}, r.error) ==>
                r.error == MissingObject(target) && Beaten(objects, target, old(records), others)
    {
      hide Acyclic, Depth, WalkOk, Reachable, SoundAt, ParseFails, Sound, Kept, TargetStands, TargetLast, Beaten,
           NoGaps, Describes;
      var parsed: Parsed, gens: map<Oid, nat> := map[], map[];
      var found := false;
      var stack: seq<Oid> := [target];
      ghost var beaten := Beaten(objects, target, records, others);
      BackfillStarts(objects, rank, records, others, target);
      NothingWritten(objects, records.Keys, others);
      assert gens.Keys == {} && parsed.Keys == {};
      while stack != []
        invariant Sound(objects, rank, records) && Kept(old(records), records) && parsed.Keys <= objects.Keys
        invariant NoGaps(objects, old(records).Keys, records.Keys, others)
        invariant WalkOk(objects, rank, {target}, records, gens, parsed, stack) && TargetLast(rank, stack, target)
        invariant TargetStands(objects, target, beaten, records.Keys, gens.Keys, parsed.Keys, stack, found)
        decreases objects.Keys - parsed.Keys, |stack|
      {
        if stack[|stack| - 1] in gens {
          WalkPops(objects, rank, {target}, records, gens, parsed, stack);
          TargetPops(objects, rank, target, beaten, records.Keys, gens.Keys, parsed.Keys, stack, found);
          stack := stack[..|stack| - 1];
        } else {
          var step;
          step, found := TakeTurn(objects, target, others, gens, parsed, stack, found, rank, old(records));
          if step.Err? {
            return Err(step.error);
          }
          gens, parsed, stack := step.value.0, step.value.1, step.value.2;
        }
      }
      SoundHas(objects, rank, records);
      SoundDescribes(objects, rank, records);
      TargetSettled(objects, target, beaten, records.Keys, gens.Keys, parsed.Keys, found);
      r := if found then Ok(records[target]) else Err(MissingObject(target));
    }

    /** The record of a commit, from the store or by backfill. */
    method GetCommitInfo(objects: Objects, id: Oid, others: Arrivals, ghost rank: Oid -> nat)
      returns (r: Result<CommitInfo>)
      requires Acyclic(objects, rank) && Sound(objects, rank, records) && SoundArrivals(objects, rank, others)
      requires Lasting(objects, id, others)
      modifies this
      ensures Sound(objects, rank, records) && Kept(old(records), records)
      ensures NoGaps(objects, old(records).Keys, records.Keys, others)
      ensures r.Ok? ==> IsCommit(objects, id) && r.value == TrueRecord(objects, rank, id)
      ensures r.Ok? ==> Describes(objects, id, r.value)
      ensures r.Ok? ==> id in old(records) || !Beaten(objects, id, old(records), others)
      ensures r.Err? ==> id !in old(records)
      ensures r.Err? && !ParseFails(objects, {id}, r.error) ==>
                r.error == MissingObject(id) && Beaten(objects, id, old(records), others)
    {
      hide Acyclic, Depth, ParseFails, Describes;
      if id in records {
        SoundDescribes(objects, rank, records);
        return Ok(records[id]);
      }
      r := Backfill(objects, id, others, rank);
    }

    /**
     Two lookups of one batch whose ancestries overlap: if the other one has recorded this commit by its
     turn, the lookup of a commit with a whole history fails, and as a have the commit is dropped.
     */
    method LookupLosesRace(objects: Objects, id: Oid, others: Arrivals, ghost rank: Oid -> nat)
      returns (r: Result<CommitInfo>)
      requires Acyclic(objects, rank) && Sound(objects, rank, records) && SoundArrivals(objects, rank, others)
      requires Lasting(objects, id, others) && id !in records && id in others(id, Expands(objects, id))
      requires forall c :: Reachable(CommitEdges(objects), {id}, c) ==> IsCommit(objects, c)
      modifies this
      ensures r == Err(MissingObject(id)) && Excused(id, Failed(r.error))
    {
      hide Acyclic, Depth, Reachable;
      r := GetCommitInfo(objects, id, others, rank);
    }

    /** Recompute one root's ancestry without consulting any record; `gens` is shared between roots. */
    method RebuildFrom(objects: Objects, root: Oid, gens0: map<Oid, nat>, parsed0: Parsed, ghost rank: Oid -> nat,
                       ghost roots: set<Oid>, ghost before: map<Oid, CommitInfo>)
      returns (r: Result<(map<Oid, nat>, Parsed)>)
      requires Acyclic(objects, rank) && root in roots
      requires WalkOk(objects, rank, roots, records, gens0, parsed0, [])
      requires Rebuilt(objects, roots, before, records, gens0)
      requires parsed0.Keys <= objects.Keys
      modifies this
      ensures r.Err? ==> ParseFails(objects, roots, r.error) && OnlyTrueChanges(objects, rank, roots, before, records)
      ensures r.Ok? ==> WalkOk(objects, rank, roots, records, r.value.0, r.value.1, [])
      ensures r.Ok? ==> Rebuilt(objects, roots, before, records, r.value.0)
      ensures r.Ok? ==> root in r.value.0 && gens0.Keys <= r.value.0.Keys && r.value.1.Keys <= objects.Keys
    {
      hide Acyclic, Depth, WalkOk, Reachable, ParseFails, Rebuilt, OnlyTrueChanges;
      var gens, parsed := gens0, parsed0;
      var stack: seq<Oid> := [root];
      WalkStarts(objects, rank, roots, records, gens, parsed, root);
      while stack != []
        invariant WalkOk(objects, rank, roots, records, gens, parsed, stack)
        invariant Rebuilt(objects, roots, before, records, gens)
        invariant parsed.Keys <= objects.Keys
        invariant if stack == [] then root in gens else stack[0] == root
        invariant gens0.Keys <= gens.Keys
        decreases objects.Keys - parsed.Keys, |stack|
      {
        var top := stack[|stack| - 1];
        if top in gens {
          WalkPops(objects, rank, roots, records, gens, parsed, stack);
          stack := stack[..|stack| - 1];
        } else {
          WalkTop(objects, rank, roots, records, gens, parsed, stack);
          ghost var was := records;
          var step := ResolveTop(objects, gens, parsed, stack, rank, roots);
          if step.Err? {
            ChangesAreTrue(objects, rank, roots, before, records, gens, parsed, stack);
            return Err(step.error);
          }
          RebuiltMore(objects, rank, roots, before, was, records, gens, step.value.0, top);
          gens, parsed, stack := step.value.0, step.value.1, step.value.2;
        }
      }
      r := Ok((gens, parsed));
    }

    /** Rewrite the record of every commit reachable from the roots, whatever was stored; returns how many. */
    method Rebuild(objects: Objects, roots: seq<Oid>, ghost rank: Oid -> nat) returns (r: Result<nat>)
      requires Acyclic(objects, rank)
      modifies this
      ensures r.Err? ==> ParseFails(objects, Elements(roots), r.error)
      ensures OnlyTrueChanges(objects, rank, Elements(roots), old(records), records)
      ensures r.Ok? ==>
              forall c :: Reachable(CommitEdges(objects), Elements(roots), c) ==> SoundAt(objects, rank, records, c)
      ensures r.Ok? ==>
              forall c :: Reachable(CommitEdges(objects), Elements(roots), c) ==> Described(objects, records, c)
      ensures r.Ok? ==> forall c :: !Reachable(CommitEdges(objects), Elements(roots), c) ==>
                (c in records <==> c in old(records)) && (c in records ==> records[c] == old(records)[c])
      ensures r.Ok? ==> r.value == |set c | c in objects && Reachable(CommitEdges(objects), Elements(roots), c)|
    {
      hide Acyclic, Depth, WalkOk, Reachable, ParseFails, Rebuilt, CommitEdges, OnlyTrueChanges, Described;
      var parsed: Parsed, gens: map<Oid, nat> := map[], map[];
      NothingRebuilt(objects, Elements(roots), records);
      EmptyWalk(objects, rank, Elements(roots), records);
      for i := 0 to |roots|
        invariant WalkOk(objects, rank, Elements(roots), records, gens, parsed, [])
        invariant Rebuilt(objects, Elements(roots), old(records), records, gens)
        invariant parsed.Keys <= objects.Keys
        invariant forall j :: 0 <= j < i ==> roots[j] in gens
      {
        if roots[i] !in gens {
          assert roots[i] in Elements(roots);
          var step := RebuildFrom(objects, roots[i], gens, parsed, rank, Elements(roots), old(records));
          if step.Err? {
            return Err(step.error);
          }
          gens, parsed := step.value.0, step.value.1;
        }
      }
      ChangesAreTrue(objects, rank, Elements(roots), old(records), records, gens, parsed, []);
      RebuiltElsewhere(objects, Elements(roots), old(records), records, gens);
      RebuildComplete(objects, rank, roots, old(records), records, gens, parsed);
      SoundDescribes(objects, rank, records);
      r := Ok(|gens.Keys|);
    }

    /** The greatest generation among a commit's parents, each looked up or backfilled in a lookup of its own. */
    method MaxParentGeneration(objects: Objects, parents: seq<Oid>, others: nat -> Arrivals, ghost rank: Oid -> nat,
                               ghost bound: nat)
      returns (r: Result<nat>)
      requires Acyclic(objects, rank) && Sound(objects, rank, records)
      requires forall j :: SoundArrivals(objects, rank, others(j))
      requires EachLasting(objects, parents, others)
      requires forall p :: p in parents ==> rank(p) < bound
      modifies this
      ensures Sound(objects, rank, records) && Kept(old(records), records)
      ensures r.Ok? ==> r.value == MaxDepth(objects, rank, parents, bound)
      ensures r.Err? ==> ExtensionFails(objects, parents, old(records), others, r.error)
    {
      hide Acyclic, Depth, ParseFails, Sound, SoundArrivals, Beaten, Lasting, Kept;
      KeptSelf(records);
      var m: nat := 0;
      for j := 0 to |parents|
        invariant Sound(objects, rank, records) && Kept(old(records), records)
        invariant m == MaxDepth(objects, rank, parents[..j], bound)
      {
        assert parents[..j + 1][..j] == parents[..j];
        ghost var before := records;
        KeptKeys(old(records), before);
        var info := GetCommitInfo(objects, parents[j], others(j), rank);
        KeptOn(old(records), before, records);
        if info.Err? {
          LookupFailed(objects, parents[j], old(records), before, others(j), info.error);
          assert LookupFails(objects, parents[j], old(records), others(j), info.error);
          return Err(info.error);
        }
        if info.value.generation > m {
          m := info.value.generation;
        }
      }
      assert parents[..|parents|] == parents;
      r := Ok(m);
    }

    /** Push promotion: record each new commit, ancestors first, from its parents' records. */
    method ExtendGraph(objects: Objects, commits: seq<Oid>, others: nat -> nat -> Arrivals, ghost rank: Oid -> nat)
      returns (r: Result<()>)
      requires Acyclic(objects, rank) && Sound(objects, rank, records)
      requires forall i, j :: SoundArrivals(objects, rank, others(i)(j))
      requires forall c :: c in commits ==> IsCommit(objects, c)
      requires forall i :: 0 <= i < |commits| && IsCommit(objects, commits[i]) ==>
                 EachLasting(objects, objects[commits[i]].parents, others(i))
      modifies this
      ensures Sound(objects, rank, records) && Kept(old(records), records)
      ensures r.Ok? ==> forall c :: c in commits ==> SoundAt(objects, rank, records, c)
      ensures r.Ok? ==> forall c :: c in commits ==> Described(objects, records, c)
      ensures r.Err? ==>
              exists i :: 0 <= i < |commits| && CommitFails(objects, commits[i], old(records), others(i), r.error)
    {
      hide Acyclic, Depth, MaxDepth, ParseFails, ExtensionFails, SoundArrivals, EachLasting, Described, Sound, SoundAt,
           Kept;
      KeptSelf(records);
      for i := 0 to |commits|
        invariant Sound(objects, rank, records) && Kept(old(records), records)
        invariant forall j :: 0 <= j < i ==> commits[j] in records
      {
        var c := commits[i];
        assert c in commits;
        DepthOfCommit(objects, rank, c);
        ghost var before := records;
        var m := MaxParentGeneration(objects, objects[c].parents, others(i), rank, rank(c));
        KeptKeys(before, records);
        KeptOn(old(records), before, records);
        if m.Err? {
          EarlierToo(objects, objects[c].parents, old(records), before, others(i), m.error);
          return Err(m.error);
        }
        DepthIs(objects, rank, c);
        before := records;
        records := records[c := CommitInfo(m.value + 1, objects[c].tree, objects[c].parents)];
        WrittenAgain(objects, rank, before, c);
        KeptOn(old(records), before, records);
      }
      SoundHas(objects, rank, records);
      SoundDescribes(objects, rank, records);
      r := Ok(());
    }
  }

  /** Writing a true record over sound records changes none of them. */
  lemma WrittenAgain(objects: Objects, rank: Oid -> nat, before: map<Oid, CommitInfo>, c: Oid)
    requires Acyclic(objects, rank) && Sound(objects, rank, before) && IsCommit(objects, c)
    ensures var after := before[c := TrueRecord(objects, rank, c)]; Sound(objects, rank, after) && Kept(before, after)
  {
    hide Acyclic, Depth;
    var after := before[c := TrueRecord(objects, rank, c)];
    forall d | d in after
      ensures SoundAt(objects, rank, after, d)
    {
      assert d in before ==> SoundAt(objects, rank, before, d);
    }
    assert c in before ==> SoundAt(objects, rank, before, c);
  }

  /** A lookup's ancestry cannot be read, or its record was missing at first and then written by someone else. */
  ghost predicate LookupFails(objects: Objects, id: Oid, before: map<Oid, CommitInfo>, others: Arrivals, e: WalkError) {
    && id !in before
    && (ParseFails(objects, {id}, e) || (e == MissingObject(id) && id in others(id, Expands(objects, id))))
  }

  lemma LookupFailed(objects: Objects, id: Oid, earlier: map<Oid, CommitInfo>, before: map<Oid, CommitInfo>,
                     others: Arrivals, e: WalkError)
    requires earlier.Keys <= before.Keys && id !in before
    requires ParseFails(objects, {id}, e) || (e == MissingObject(id) && Beaten(objects, id, before, others))
    ensures LookupFails(objects, id, earlier, others, e)
  {
    hide ParseFails;
  }

  /** One of a commit's parents could not be looked up. */
  ghost predicate ExtensionFails(objects: Objects, parents: seq<Oid>, before: map<Oid, CommitInfo>,
                                 others: nat -> Arrivals, e: WalkError)
  {
    exists j :: 0 <= j < |parents| && LookupFails(objects, parents[j], before, others(j), e)
  }

  ghost predicate CommitFails(objects: Objects, c: Oid, before: map<Oid, CommitInfo>, others: nat -> Arrivals,
                              e: WalkError)
  {
    IsCommit(objects, c) && ExtensionFails(objects, objects[c].parents, before, others, e)
  }

  lemma EarlierToo(objects: Objects, parents: seq<Oid>, earlier: map<Oid, CommitInfo>, before: map<Oid, CommitInfo>,
                   others: nat -> Arrivals, e: WalkError)
    requires Kept(earlier, before) && ExtensionFails(objects, parents, before, others, e)
    ensures ExtensionFails(objects, parents, earlier, others, e)
  {
    hide ParseFails;
    var j :| 0 <= j < |parents| && LookupFails(objects, parents[j], before, others(j), e);
    assert LookupFails(objects, parents[j], earlier, others(j), e);
  }

  /** Resolved commits are reachable, closed under parents, and the only ones whose records changed. */
  ghost predicate Rebuilt(objects: Objects, roots: set<Oid>, before: map<Oid, CommitInfo>,
                          records: map<Oid, CommitInfo>, gens: map<Oid, nat>)
  {
    && (forall c :: c in gens ==> IsCommit(objects, c) && Reachable(CommitEdges(objects), roots, c))
    && (forall c, p :: c in gens && IsCommit(objects, c) && p in objects[c].parents ==> p in gens)
    && (forall c :: c !in gens ==> (c in records <==> c in before) && (c in records ==> records[c] == before[c]))
  }

  lemma RebuiltMore(objects: Objects, rank: Oid -> nat, roots: set<Oid>, before: map<Oid, CommitInfo>,
                    was: map<Oid, CommitInfo>, records: map<Oid, CommitInfo>, gens: map<Oid, nat>, gens': map<Oid, nat>,
                    top: Oid)
    requires Acyclic(objects, rank) && Rebuilt(objects, roots, before, was, gens)
    requires Reachable(CommitEdges(objects), roots, top)
    requires top in gens' ==> IsCommit(objects, top) && records == was[top := TrueRecord(objects, rank, top)]
    requires top in gens' ==> gens'.Keys == gens.Keys + {top} && forall p :: p in objects[top].parents ==> p in gens
    requires top !in gens' ==> records == was && gens' == gens
    ensures Rebuilt(objects, roots, before, records, gens')
  {
    hide Acyclic, Depth, Reachable;
  }

  /** No record is lost, and every record that differs is the true one of a reachable commit. */
  ghost predicate OnlyTrueChanges(objects: Objects, rank: Oid -> nat, roots: set<Oid>, before: map<Oid, CommitInfo>,
                                  records: map<Oid, CommitInfo>)
    requires Acyclic(objects, rank)
  {
    && before.Keys <= records.Keys
    && forall c :: c in records && (c !in before || records[c] != before[c]) ==>
         SoundAt(objects, rank, records, c) && Reachable(CommitEdges(objects), roots, c)
  }

  lemma ChangesAreTrue(objects: Objects, rank: Oid -> nat, roots: set<Oid>, before: map<Oid, CommitInfo>,
                       records: map<Oid, CommitInfo>, gens: map<Oid, nat>, parsed: Parsed, stack: seq<Oid>)
    requires Acyclic(objects, rank) && WalkOk(objects, rank, roots, records, gens, parsed, stack)
    requires Rebuilt(objects, roots, before, records, gens)
    ensures OnlyTrueChanges(objects, rank, roots, before, records)
  {
    hide Acyclic, Depth, Reachable, AllExpanded;
    forall c | c in before
      ensures c in records
    {
      assert c in gens ==> SoundAt(objects, rank, records, c);
    }
  }

  lemma NothingRebuilt(objects: Objects, roots: set<Oid>, records: map<Oid, CommitInfo>)
    ensures Rebuilt(objects, roots, records, records, map[])
  {
  }

  lemma RebuiltElsewhere(objects: Objects, roots: set<Oid>, before: map<Oid, CommitInfo>, records: map<Oid, CommitInfo>,
                         gens: map<Oid, nat>)
    requires Rebuilt(objects, roots, before, records, gens)
    ensures forall c :: c !in gens ==> (c in records <==> c in before) && (c in records ==> records[c] == before[c])
  {
  }

  lemma RebuildComplete(objects: Objects, rank: Oid -> nat, roots: seq<Oid>, before: map<Oid, CommitInfo>,
                        records: map<Oid, CommitInfo>, gens: map<Oid, nat>, parsed: Parsed)
    requires Acyclic(objects, rank) && WalkOk(objects, rank, Elements(roots), records, gens, parsed, [])
    requires Rebuilt(objects, Elements(roots), before, records, gens)
    requires forall j :: 0 <= j < |roots| ==> roots[j] in gens
    ensures forall c :: Reachable(CommitEdges(objects), Elements(roots), c) <==> c in gens
    ensures forall c :: c in gens ==> SoundAt(objects, rank, records, c)
    ensures gens.Keys == set c | c in objects && Reachable(CommitEdges(objects), Elements(roots), c)
  {
    hide Acyclic, Depth, Reachable, AllExpanded;
    ReachClosed(CommitEdges(objects), Elements(roots), iset c | c in gens);
  }

  /** Nothing recorded is lost or changed. */
  ghost predicate Kept(before: map<Oid, CommitInfo>, after: map<Oid, CommitInfo>) {
    forall c :: c in before ==> c in after && after[c] == before[c]
  }

  lemma EmptyWalk(objects: Objects, rank: Oid -> nat, roots: set<Oid>, records: map<Oid, CommitInfo>)
    requires Acyclic(objects, rank)
    ensures WalkOk(objects, rank, roots, records, map[], map[], [])
  {
  }

  /** Sound records written by others change nothing that was resolved. */
  lemma MergeKeeps(objects: Objects, rank: Oid -> nat, roots: set<Oid>, records: map<Oid, CommitInfo>,
                   more: map<Oid, CommitInfo>, gens: map<Oid, nat>, parsed: Parsed, stack: seq<Oid>)
    requires Acyclic(objects, rank) && Sound(objects, rank, records) && Sound(objects, rank, more)
    requires WalkOk(objects, rank, roots, records, gens, parsed, stack)
    ensures Sound(objects, rank, records + more) && Kept(records, records + more)
    ensures WalkOk(objects, rank, roots, records + more, gens, parsed, stack)
  {
    hide Acyclic, Depth, AllExpanded, Reachable;
    forall c | c in records + more
      ensures SoundAt(objects, rank, records + more, c)
    {
      assert c in more ==> SoundAt(objects, rank, more, c);
    }
    forall c | c in records
      ensures (records + more)[c] == records[c]
    {
      assert SoundAt(objects, rank, records, c) && SoundAt(objects, rank, records + more, c);
    }
  }

  lemma TargetSettled(objects: Objects, target: Oid, beaten: bool, recorded: set<Oid>, resolved: set<Oid>,
                      parsed: set<Oid>, found: bool)
    requires TargetStands(objects, target, beaten, recorded, resolved, parsed, [], found)
    ensures target in recorded && (found <==> !beaten)
  {
  }

  lemma KeptSelf(records: map<Oid, CommitInfo>)
    ensures Kept(records, records)
  {
  }

  lemma KeptKeys(a: map<Oid, CommitInfo>, b: map<Oid, CommitInfo>)
    requires Kept(a, b)
    ensures a.Keys <= b.Keys
  {
  }

  lemma KeptOn(a: map<Oid, CommitInfo>, b: map<Oid, CommitInfo>, c: map<Oid, CommitInfo>)
    requires Kept(a, b) && Kept(b, c)
    ensures Kept(a, c)
  {
  }

  /** Resolving or expanding the top keeps the target at the bottom, alone at its rank. */
  lemma PushedLast(rank: Oid -> nat, stack: seq<Oid>, stack': seq<Oid>, target: Oid)
    requires stack != [] && TargetLast(rank, stack, target)
    requires stack' == stack[..|stack| - 1] || Pushed(rank, stack, stack')
    ensures TargetLast(rank, stack', target)
    ensures stack[|stack| - 1] == target ==> |stack| == 1
    ensures Pushed(rank, stack, stack') ==> stack' != []
  {
  }

  lemma StoredIsTrue(objects: Objects, rank: Oid -> nat, records: map<Oid, CommitInfo>, c: Oid)
    requires Acyclic(objects, rank) && Sound(objects, rank, records) && c in records
    ensures IsCommit(objects, c) && records[c] == TrueRecord(objects, rank, c)
    ensures records == records[c := TrueRecord(objects, rank, c)]
    ensures records[c].generation == Depth(objects, rank, c)
  {
    assert SoundAt(objects, rank, records, c);
  }

  lemma WrittenIsTrue(objects: Objects, rank: Oid -> nat, before: map<Oid, CommitInfo>, after: map<Oid, CommitInfo>,
                      c: Oid)
    requires Acyclic(objects, rank) && Sound(objects, rank, before) && c !in before
    requires after == before || (IsCommit(objects, c) && after == before[c := TrueRecord(objects, rank, c)])
    ensures Sound(objects, rank, after) && Kept(before, after)
  {
    hide Acyclic, Depth;
    forall d | d in after
      ensures SoundAt(objects, rank, after, d)
    {
      assert d in before ==> SoundAt(objects, rank, before, d);
    }
  }

  lemma SoundHas(objects: Objects, rank: Oid -> nat, records: map<Oid, CommitInfo>)
    requires Acyclic(objects, rank) && Sound(objects, rank, records)
    ensures forall c :: c in records ==> SoundAt(objects, rank, records, c)
  {
  }

  lemma DepthIs(objects: Objects, rank: Oid -> nat, c: Oid)
    requires Acyclic(objects, rank) && IsCommit(objects, c) && forall p :: p in objects[c].parents ==> rank(p) < rank(c)
    ensures Depth(objects, rank, c) == 1 + MaxDepth(objects, rank, objects[c].parents, rank(c))
  {
  }

  lemma ResolvedFacts(objects: Objects, rank: Oid -> nat, roots: set<Oid>, records: map<Oid, CommitInfo>,
                      gens: map<Oid, nat>, parsed: Parsed, stack: seq<Oid>)
    requires Acyclic(objects, rank) && WalkOk(objects, rank, roots, records, gens, parsed, stack)
    ensures forall c :: c in gens ==> gens[c] == Depth(objects, rank, c)
    ensures parsed.Keys <= objects.Keys
  {
    hide Acyclic, Depth;
  }
}
