/**
 Phase I of a fetch: the WANT/HAVE walk over the commit graph, drained one
 generation at a time from a max-heap. Generation numbers come from derived
 records and are not trusted: the coverage result holds for any numbers, and
 the exactness result adds only that they decrease along parent edges.
 */
module CommitDiscovery {
  import opened Reachability
  import opened GitObjects
  import opened OrderedSets

  datatype CommitInfo = CommitInfo(generation: nat, tree: Oid, parents: seq<Oid>)

  /** What a lookup can fail with: it walks no frontier, so it never stalls. */
  type LookupError = e: WalkError | !e.DiscoveryStalled? witness StoreFailure

  /** What a commit-graph lookup answers; an error names the object at fault. */
  datatype Lookup = Found(info: CommitInfo) | Failed(error: LookupError)

  type Graph = map<Oid, Lookup>

  function LookupCommit(g: Graph, id: Oid): Lookup {
    if id in g then g[id] else Failed(MissingObject(id))
  }

  /** An unknown or non-commit have is dropped; a failure deeper down is not. */
  predicate Excused(have: Oid, l: Lookup) {
    l.Failed? && (l.error == MissingObject(have) || (l.error.UnexpectedKind? && l.error.oid == have))
  }

  predicate Known(g: Graph, id: Oid) {
    id in g && g[id].Found?
  }

  function Gen(g: Graph, id: Oid): nat
    requires Known(g, id)
  {
    g[id].info.generation
  }

  function Parents(g: Graph, id: Oid): seq<Oid>
    requires Known(g, id)
  {
    g[id].info.parents
  }

  ghost function ParentEdges(g: Graph): Edges {
    map x | x in g && g[x].Found? :: g[x].info.parents
  }

  /** Generations strictly decrease from a commit to its parents. */
  ghost predicate TrueGenerations(g: Graph) {
    forall x, p :: Known(g, x) && p in Parents(g, x) && Known(g, p) ==> Gen(g, p) < Gen(g, x)
  }

  datatype Flag = Want | Have

  datatype QueueEntry = QueueEntry(generation: nat, oid: Oid)

  predicate Above(a: QueueEntry, b: QueueEntry) {
    a.generation > b.generation || (a.generation == b.generation && a.oid > b.oid)
  }

  predicate IsTop(e: QueueEntry, q: multiset<QueueEntry>) {
    e in q && forall f :: f in q ==> !Above(f, e)
  }

  lemma TopExists(q: multiset<QueueEntry>) returns (e: QueueEntry)
    requires q != multiset{}
    ensures IsTop(e, q)
    decreases |q|
  {
    var f :| f in q;
    var rest := q - multiset{f};
    if rest == multiset{} {
      assert q == multiset{f};
      e := f;
    } else {
      var t := TopExists(rest);
      e := if Above(t, f) then t else f;
      assert forall x :: x in q ==> x == f || x in rest;
    }
  }

  datatype Marks = Marks(frontier: multiset<QueueEntry>, state: map<Oid, Flag>, pending: set<Oid>)

  predicate Changes(w: Marks, id: Oid, flag: Flag) {
    id !in w.state || (w.state[id] == Want && flag == Have)
  }

  function Marked(w: Marks, id: Oid, flag: Flag, generation: nat): Marks {
    if !Changes(w, id, flag) then w
    else Marks(
           w.frontier + multiset{QueueEntry(generation, id)},
           w.state[id := flag],
           if flag == Want then w.pending + {id}
           else if id in w.state then w.pending - {id} else w.pending)
  }

  function MarkedAll(g: Graph, w: Marks, ids: seq<Oid>, flag: Flag): Marks
    requires forall p :: p in ids ==> Known(g, p)
    decreases |ids|
  {
    if ids == [] then w
    else MarkedAll(g, Marked(w, ids[0], flag, Gen(g, ids[0])), ids[1..], flag)
  }

  /** Marking a batch in order, seen at one id and one queue entry. */
  lemma {:induction false} MarkedAllAt(g: Graph, w: Marks, ids: seq<Oid>, flag: Flag, x: Oid, e: QueueEntry)
    requires forall p :: p in ids ==> Known(g, p)
    ensures var w' := MarkedAll(g, w, ids, flag);
      && (x in w'.state <==> x in w.state || x in ids)
      && (x in w'.state ==> w'.state[x] == if x in ids && Changes(w, x, flag) then flag else w.state[x])
      && (x in ids && Changes(w, x, flag) ==> QueueEntry(Gen(g, x), x) in w'.frontier)
      && (x in w'.pending <==>
          if x in ids && Changes(w, x, flag) then flag == Want || (x in w.pending && x !in w.state)
          else x in w.pending)
      && w.frontier[e] <= w'.frontier[e]
      && (e in w'.frontier && e !in w.frontier ==>
          e.oid in ids && Changes(w, e.oid, flag) && e.generation == Gen(g, e.oid))
    decreases |ids|
  {
    if ids != [] {
      var w1 := Marked(w, ids[0], flag, Gen(g, ids[0]));
      MarkedAllAt(g, w1, ids[1..], flag, x, e);
      MarkedAllAt(g, w1, ids[1..], flag, x, QueueEntry(Gen(g, ids[0]), ids[0]));
      assert x in ids <==> x == ids[0] || x in ids[1..];
      assert e.oid in ids <==> e.oid == ids[0] || e.oid in ids[1..];
    }
  }

  /** A batch that leaves every mark as it was changes nothing at all. */
  lemma {:induction false} MarkedAllIdle(g: Graph, w: Marks, ids: seq<Oid>, flag: Flag)
    requires forall p :: p in ids ==> Known(g, p)
    requires forall p :: p in ids ==> !Changes(w, p, flag)
    ensures MarkedAll(g, w, ids, flag) == w
    decreases |ids|
  {
    if ids != [] {
      MarkedAllIdle(g, w, ids[1..], flag);
    }
  }

  class Discovery {
    var frontier: multiset<QueueEntry>
    var state: map<Oid, Flag>
    var pending: set<Oid>

    ghost function Value(): Marks
      reads this
    {
      Marks(frontier, state, pending)
    }

    constructor ()
      ensures Value() == Marks(multiset{}, map[], {})
    {
      frontier, state, pending := multiset{}, map[], {};
    }

    method Mark(id: Oid, flag: Flag, generation: nat)
      modifies this
      ensures Value() == Marked(old(Value()), id, flag, generation)
    {
      if id in state && (state[id] == Have || flag == Want) {
        return;
      }
      if id in state {
        pending := pending - {id};
      } else if flag == Want {
        pending := pending + {id};
      }
      state := state[id := flag];
      frontier := frontier + multiset{QueueEntry(generation, id)};
    }

    method MarkEach(g: Graph, records: map<Oid, CommitInfo>, ids: seq<Oid>, flag: Flag)
      requires CacheSound(g, records) && forall p :: p in ids ==> p in records
      modifies this
      ensures Value() == MarkedAll(g, old(Value()), ids, flag)
    {
      for i := 0 to |ids|
        invariant MarkedAll(g, Value(), ids[i..], flag) == MarkedAll(g, old(Value()), ids, flag)
      {
        assert ids[i..][1..] == ids[i + 1..];
        Mark(ids[i], flag, records[ids[i]].generation);
      }
    }

    /** Drain every entry of the highest generation, in descending id order, unvisited ids once each. */
    method PopLevel(visited: set<Oid>) returns (generation: nat, level: seq<Oid>)
      requires frontier != multiset{}
      modifies this`frontier
      ensures LevelOf(old(frontier), visited, generation, level, frontier)
      ensures |frontier| < |old(frontier)|
    {
      ghost var q := frontier;
      var top := Peek(frontier);
      generation := top.generation;
      level := [];
      var levelSeen: set<Oid> := {};
      assert QueueEntry(generation, top.oid) in q;
      while frontier != multiset{}
        invariant Draining(q, visited, generation, level, frontier)
        invariant frontier == q || |frontier| < |q|
        invariant forall x :: x in levelSeen <==> x in level
        decreases |frontier|
      {
        var entry := Peek(frontier);
        if entry.generation != generation {
          break;
        }
        DrainStep(q, visited, generation, level, frontier, entry);
        frontier := frontier - multiset{entry};
        var id := entry.oid;
        if id !in visited && id !in levelSeen {
          levelSeen := levelSeen + {id};
          level := level + [id];
        }
      }
    }
  }

  /** Part of the top generation of `q` has been moved to `level`; `rest` is still queued. */
  ghost predicate Draining(q: multiset<QueueEntry>, visited: set<Oid>, generation: nat, level: seq<Oid>,
                           rest: multiset<QueueEntry>)
  {
    && (forall e: QueueEntry :: rest[e] <= q[e])
    && (forall e: QueueEntry :: e.generation != generation ==> rest[e] == q[e])
    && (forall x :: x in level ==> QueueEntry(generation, x) in q && x !in visited)
    && (forall x :: QueueEntry(generation, x) in q && x !in visited && x !in level ==>
         QueueEntry(generation, x) in rest)
    && (forall x, y :: x in level && QueueEntry(generation, y) in rest ==> y <= x)
    && (forall i, j :: 0 <= i < j < |level| ==> level[i] > level[j])
  }

  lemma DrainStep(q: multiset<QueueEntry>, visited: set<Oid>, generation: nat, level: seq<Oid>,
                  rest: multiset<QueueEntry>, entry: QueueEntry)
    requires Draining(q, visited, generation, level, rest)
    requires IsTop(entry, rest) && entry.generation == generation
    ensures Draining(q, visited, generation,
                     if entry.oid !in visited && entry.oid !in level then level + [entry.oid] else level,
                     rest - multiset{entry})
  {
    assert entry == QueueEntry(generation, entry.oid);
    forall y: Oid | QueueEntry(generation, y) in rest
      ensures y <= entry.oid
    {
      assert !Above(QueueEntry(generation, y), entry);
    }
    forall i | 0 <= i < |level|
      ensures entry.oid <= level[i]
    {
      assert level[i] in level && QueueEntry(generation, entry.oid) in rest;
    }
    assert forall e: QueueEntry :: e != entry ==> (rest - multiset{entry})[e] == rest[e];
  }

  method Peek(q: multiset<QueueEntry>) returns (e: QueueEntry)
    requires q != multiset{}
    ensures IsTop(e, q)
  {
    ghost var t := TopExists(q);
    e :| e in q && IsTop(e, q);
  }

  /** `level` is what the top generation of `q` holds; `rest` is `q` without it. */
  ghost predicate LevelOf(q: multiset<QueueEntry>, visited: set<Oid>, generation: nat, level: seq<Oid>,
                          rest: multiset<QueueEntry>)
  {
    && (exists x :: QueueEntry(generation, x) in q)
    && (forall e :: e in q ==> e.generation <= generation)
    && (forall e: QueueEntry :: rest[e] == if e.generation == generation then 0 else q[e])
    && (forall x :: x in level <==> QueueEntry(generation, x) in q && x !in visited)
    && (forall i, j :: 0 <= i < j < |level| ==> level[i] > level[j])
  }

  // ---------------------------------------------------------------- records

  ghost predicate CacheSound(g: Graph, cache: map<Oid, CommitInfo>) {
    forall id :: id in cache ==> Known(g, id) && g[id].info == cache[id]
  }

  /** Each id with its own lookup result. */
  ghost predicate FetchedFor(g: Graph, fetched: seq<(Oid, Lookup)>, ids: seq<Oid>) {
    |fetched| == |ids| && forall i :: 0 <= i < |ids| ==> fetched[i] == (ids[i], LookupCommit(g, ids[i]))
  }

  lemma FetchedNext(g: Graph, fetched: seq<(Oid, Lookup)>, ids: seq<Oid>, id: Oid)
    requires FetchedFor(g, fetched, ids)
    ensures FetchedFor(g, fetched + [(id, LookupCommit(g, id))], ids + [id])
  {
  }

  lemma FetchedFacts(g: Graph, fetched: seq<(Oid, Lookup)>, ids: seq<Oid>)
    requires FetchedFor(g, fetched, ids)
    ensures FetchedIds(fetched) == ids
    ensures forall i :: 0 <= i < |fetched| ==> fetched[i].0 in ids && fetched[i].1 == LookupCommit(g, fetched[i].0)
    ensures forall id :: id in ids ==> (id, LookupCommit(g, id)) in fetched
  {
    forall id | id in ids
      ensures (id, LookupCommit(g, id)) in fetched
    {
      var i :| 0 <= i < |ids| && ids[i] == id;
      assert fetched[i] == (id, LookupCommit(g, id));
    }
  }

  /** Look up the ids that are not cached, each once in first-seen order. */
  method PrefetchRecords(g: Graph, cache: map<Oid, CommitInfo>, ids: seq<Oid>)
    returns (cache': map<Oid, CommitInfo>, fetched: seq<(Oid, Lookup)>)
    requires CacheSound(g, cache)
    ensures CacheSound(g, cache') && forall id :: id in cache' <==> id in cache || (id in ids && Known(g, id))
    ensures forall i :: 0 <= i < |fetched| ==>
              fetched[i].0 in ids && fetched[i].0 !in cache && fetched[i].1 == LookupCommit(g, fetched[i].0)
    ensures forall id :: id in ids && id !in cache ==> (id, LookupCommit(g, id)) in fetched
    ensures FetchedIds(fetched) == NewIn(ids, cache.Keys)
  {
    hide FetchedFor, FetchedIds, NewIn;
    NothingFetched(g, cache.Keys);
    fetched := [];
    var seen: set<Oid> := {};
    cache' := cache;
    for n := 0 to |ids|
      invariant forall id :: id in cache' <==> id in cache || (id in ids[..n] && Known(g, id))
      invariant CacheSound(g, cache')
      invariant forall id :: id in seen <==> id in ids[..n] && id !in cache
      invariant FetchedFor(g, fetched, NewIn(ids[..n], cache.Keys))
    {
      var id := ids[n];
      assert ids[..n + 1] == ids[..n] + [id];
      NewInNext(ids, n, cache.Keys);
      if id !in cache && id !in seen {
        FetchedNext(g, fetched, NewIn(ids[..n], cache.Keys), id);
        seen := seen + {id};
        var l := LookupCommit(g, id);
        fetched := fetched + [(id, l)];
        if l.Found? {
          cache' := cache'[id := l.info];
        }
      }
    }
    assert ids[..|ids|] == ids;
    FetchedFacts(g, fetched, NewIn(ids, cache.Keys));
  }

  ghost function FetchedIds(fetched: seq<(Oid, Lookup)>): seq<Oid> {
    seq(|fetched|, i requires 0 <= i < |fetched| => fetched[i].0)
  }

  lemma NothingFetched(g: Graph, seen: set<Oid>)
    ensures FetchedFor(g, [], NewIn([], seen))
  {
  }

  lemma FetchedAt(fetched: seq<(Oid, Lookup)>)
    ensures |FetchedIds(fetched)| == |fetched|
    ensures forall i :: 0 <= i < |fetched| ==> FetchedIds(fetched)[i] == fetched[i].0
    ensures forall i :: 0 <= i <= |fetched| ==> FetchedIds(fetched[..i]) == FetchedIds(fetched)[..i]
  {
  }

  // ------------------------------------------------------------ invariants

  /** Marks are justified by reachability, and the queue holds only marked commits at their own generation. */
  ghost predicate Justified(g: Graph, wants: set<Oid>, haves: set<Oid>, w: Marks) {
    && (forall x :: x in w.state ==> Known(g, x))
    && (forall x :: x in w.state && w.state[x] == Have ==> Reachable(ParentEdges(g), haves, x))
    && (forall x :: x in w.state && w.state[x] == Want ==> Reachable(ParentEdges(g), wants, x))
    && (forall e :: e in w.frontier ==> e.oid in w.state && e.generation == Gen(g, e.oid))
  }

  /**
   Bookkeeping for any generations. `todo` holds commits popped and not visited yet.
   A visited commit has all its parents marked; an unvisited marked one is still queued.
   */
  ghost predicate Tracked(g: Graph, w: Marks, visited: set<Oid>, todo: set<Oid>)
    requires forall x :: x in w.state ==> Known(g, x)
  {
    && (forall x :: x in visited || x in todo ==> x in w.state)
    && (forall x :: x in w.pending <==> x in w.state && w.state[x] == Want && x !in visited)
    && (forall x :: x in w.state && x !in visited && x !in todo ==> QueueEntry(Gen(g, x), x) in w.frontier)
    && (forall x, p :: x in visited && p in Parents(g, x) ==> p in w.state)
  }

  /** Every visited commit was emitted once or is a have. */
  ghost predicate Emitted(w: Marks, visited: set<Oid>, sent: seq<Oid>)
    requires forall x :: x in visited ==> x in w.state
  {
    && (forall x :: x in visited ==> x in sent || w.state[x] == Have)
    && (forall x :: x in sent ==> x in visited)
    && (forall i, j :: 0 <= i < j < |sent| ==> sent[i] != sent[j])
  }

  /** Without a have nothing is ever queued twice. */
  ghost predicate QueuedOnce(w: Marks, visited: set<Oid>, todo: set<Oid>) {
    forall e :: e in w.frontier ==> e.oid !in visited && e.oid !in todo
  }

  /** What true generations add: the walk descends, and HAVE reaches a commit before its visit does. */
  ghost predicate Descending(g: Graph, w: Marks, visited: set<Oid>, todo: set<Oid>, level: nat)
    requires forall x :: x in w.state ==> Known(g, x)
    requires forall x :: x in visited || x in todo ==> x in w.state
  {
    && (forall x :: x in visited ==> level <= Gen(g, x))
    && (forall x :: x in todo ==> Gen(g, x) == level)
    && (forall e :: e in w.frontier ==> e.generation < level)
    && (forall x, p :: x in visited && w.state[x] == Have && p in Parents(g, x) ==> p in w.state && w.state[p] == Have)
  }

  ghost predicate MarkedBy(g: Graph, w: Marks, visited: set<Oid>, x: Oid, flag: Flag, c: Oid) {
    c in visited && c in w.state && w.state[c] == flag && Known(g, c) && x in Parents(g, c)
  }

  /** With true generations a mark is a root's own, or a visited child with the same mark left it. */
  ghost predicate Sourced(g: Graph, wants: set<Oid>, haves: set<Oid>, w: Marks, visited: set<Oid>) {
    forall x :: x in w.state ==>
      || x in (if w.state[x] == Want then wants else haves)
      || exists c :: MarkedBy(g, w, visited, x, w.state[x], c)
  }

  ghost predicate Precedes(g: Graph, x: Oid, y: Oid) {
    Known(g, x) && Known(g, y) && Above(QueueEntry(Gen(g, x), x), QueueEntry(Gen(g, y), y))
  }

  /** Emitted commits are under no have and listed strictly decreasing, ahead of what is still to visit. */
  ghost predicate Listed(g: Graph, haves: set<Oid>, sent: seq<Oid>, todo: seq<Oid>) {
    && (forall x :: x in sent ==> !Reachable(ParentEdges(g), haves, x))
    && (forall i, j :: 0 <= i < j < |sent| ==> Precedes(g, sent[i], sent[j]))
    && (forall x, y :: x in sent && y in todo ==> Precedes(g, x, y))
    && (forall i, j :: 0 <= i < j < |todo| ==> Precedes(g, todo[i], todo[j]))
  }

  /** The marks after visiting `x`: emitted if wanted, then its flag passed on to its parents. */
  ghost function Visited(g: Graph, w: Marks, x: Oid): Marks
    requires x in w.state && Known(g, x) && forall p :: p in Parents(g, x) ==> Known(g, p)
  {
    MarkedAll(g, w.(pending := if w.state[x] == Want then w.pending - {x} else w.pending), Parents(g, x), w.state[x])
  }

  /** The effect of a visit, quantified over every id and queue entry. */
  lemma VisitedEffect(g: Graph, w: Marks, x: Oid, w': Marks)
    requires x in w.state && Known(g, x) && forall p :: p in Parents(g, x) ==> Known(g, p)
    requires w' == Visited(g, w, x)
    ensures var ps, flag := Parents(g, x), w.state[x];
      && (forall y :: y in w'.state <==> y in w.state || y in ps)
      && (forall y :: y in w'.state ==> w'.state[y] == if y in ps && Changes(w, y, flag) then flag else w.state[y])
      && (forall y :: y in ps && Changes(w, y, flag) ==> QueueEntry(Gen(g, y), y) in w'.frontier)
      && (forall e :: e in w.frontier ==> e in w'.frontier)
      && (forall e :: e in w'.frontier && e !in w.frontier ==>
            e.oid in ps && Changes(w, e.oid, flag) && e.generation == Gen(g, e.oid))
      && (forall y :: y in w'.pending <==>
            if y in ps && Changes(w, y, flag) then flag == Want || (y in w.pending && y !in w.state)
            else y in w.pending && (y != x || flag == Have))
  {
    var w0 := w.(pending := if w.state[x] == Want then w.pending - {x} else w.pending);
    var ps, flag := Parents(g, x), w.state[x];
    forall y: Oid
      ensures y in w'.state <==> y in w.state || y in ps
      ensures y in w'.state ==> w'.state[y] == if y in ps && Changes(w, y, flag) then flag else w.state[y]
      ensures y in ps && Changes(w, y, flag) ==> QueueEntry(Gen(g, y), y) in w'.frontier
      ensures y in w'.pending <==>
                if y in ps && Changes(w, y, flag) then flag == Want || (y in w.pending && y !in w.state)
                else y in w.pending && (y != x || flag == Have)
    {
      MarkedAllAt(g, w0, ps, flag, y, QueueEntry(0, y));
    }
    forall e: QueueEntry
      ensures e in w.frontier ==> e in w'.frontier
      ensures e in w'.frontier && e !in w.frontier ==>
                e.oid in ps && Changes(w, e.oid, flag) && e.generation == Gen(g, e.oid)
    {
      MarkedAllAt(g, w0, ps, flag, x, e);
    }
  }

  lemma VisitJustified(g: Graph, wants: set<Oid>, haves: set<Oid>, w: Marks, x: Oid, w': Marks)
    requires Justified(g, wants, haves, w)
    requires x in w.state && forall p :: p in Parents(g, x) ==> Known(g, p)
    requires w' == Visited(g, w, x)
    ensures Justified(g, wants, haves, w')
  {
    VisitedEffect(g, w, x, w');
    forall p | p in Parents(g, x)
      ensures w.state[x] == Have ==> Reachable(ParentEdges(g), haves, p)
      ensures w.state[x] == Want ==> Reachable(ParentEdges(g), wants, p)
    {
      ReachStep(ParentEdges(g), if w.state[x] == Have then haves else wants, x, p);
    }
  }

  lemma VisitTracked(g: Graph, wants: set<Oid>, haves: set<Oid>, w: Marks, visited: set<Oid>, todo: set<Oid>, x: Oid,
                     w': Marks)
    requires Justified(g, wants, haves, w) && Justified(g, wants, haves, w')
    requires Tracked(g, w, visited, todo)
    requires x in todo && forall p :: p in Parents(g, x) ==> Known(g, p)
    requires w' == Visited(g, w, x)
    ensures Tracked(g, w', visited + {x}, todo - {x})
  {
    VisitedEffect(g, w, x, w');
  }

  lemma VisitEmitted(g: Graph, w: Marks, visited: set<Oid>, x: Oid, sent: seq<Oid>, w': Marks)
    requires forall y :: y in visited ==> y in w.state
    requires Emitted(w, visited, sent)
    requires x in w.state && x !in visited && Known(g, x) && forall p :: p in Parents(g, x) ==> Known(g, p)
    requires w' == Visited(g, w, x)
    ensures forall y :: y in visited + {x} ==> y in w'.state
    ensures Emitted(w', visited + {x}, if w.state[x] == Want then sent + [x] else sent)
  {
    VisitedEffect(g, w, x, w');
  }

  lemma VisitQueuedOnce(g: Graph, wants: set<Oid>, w: Marks, visited: set<Oid>, todo: set<Oid>, x: Oid, w': Marks)
    requires Justified(g, wants, {}, w) && Tracked(g, w, visited, todo) && QueuedOnce(w, visited, todo)
    requires x in todo && forall p :: p in Parents(g, x) ==> Known(g, p)
    requires w' == Visited(g, w, x)
    ensures QueuedOnce(w', visited + {x}, todo - {x})
  {
    VisitedEffect(g, w, x, w');
    forall y | y in w.state
      ensures w.state[y] == Want
    {
      ReachNothing(ParentEdges(g), y);
    }
  }

  /** With true generations a commit still wanted when its level is visited is under no have. */
  lemma WantedIsNew(g: Graph, haves: set<Oid>, w: Marks, visited: set<Oid>, todo: set<Oid>, level: nat, x: Oid)
    requires TrueGenerations(g)
    requires forall y :: y in w.state ==> Known(g, y)
    requires Tracked(g, w, visited, todo) && Descending(g, w, visited, todo, level)
    requires forall h :: h in haves ==> h in w.state && w.state[h] == Have
    requires x in todo && w.state[x] == Want
    ensures !Reachable(ParentEdges(g), haves, x)
  {
    var s := iset y: Oid | !Known(g, y) || Gen(g, y) < level || (y in w.state && w.state[y] == Have);
    ReachClosed(ParentEdges(g), haves, s);
  }

  lemma VisitDescending(g: Graph, w: Marks, visited: set<Oid>, todo: set<Oid>, level: nat, x: Oid, w': Marks)
    requires TrueGenerations(g)
    requires forall y :: y in w.state ==> Known(g, y)
    requires forall y :: y in visited || y in todo ==> y in w.state
    requires Descending(g, w, visited, todo, level)
    requires x in todo && forall p :: p in Parents(g, x) ==> Known(g, p)
    requires w' == Visited(g, w, x)
    ensures forall y :: y in w'.state ==> Known(g, y)
    ensures forall y :: y in visited + {x} || y in todo - {x} ==> y in w'.state
    ensures Descending(g, w', visited + {x}, todo - {x}, level)
  {
    hide Visited, MarkedAll;
    VisitedEffect(g, w, x, w');
    assert forall y :: y in Parents(g, x) ==> Gen(g, y) < level && y !in visited;
    assert forall y :: y in visited + {x} ==> w'.state[y] == w.state[y];
    forall y, p | y in visited + {x} && w'.state[y] == Have && p in Parents(g, y)
      ensures p in w'.state && w'.state[p] == Have
    {
      assert y != x ==> w.state[p] == Have;
    }
  }

  lemma VisitSourced(g: Graph, wants: set<Oid>, haves: set<Oid>, w: Marks, visited: set<Oid>, todo: set<Oid>,
                     level: nat, x: Oid, w': Marks)
    requires TrueGenerations(g)
    requires forall y :: y in w.state ==> Known(g, y)
    requires forall y :: y in visited || y in todo ==> y in w.state
    requires Descending(g, w, visited, todo, level) && Sourced(g, wants, haves, w, visited)
    requires x in todo && forall p :: p in Parents(g, x) ==> Known(g, p)
    requires w' == Visited(g, w, x)
    ensures Sourced(g, wants, haves, w', visited + {x})
  {
    hide Visited, MarkedAll;
    VisitedEffect(g, w, x, w');
    assert forall y :: y in Parents(g, x) ==> Gen(g, y) < level && y !in visited && y != x;
    forall y | y in w'.state && y !in (if w'.state[y] == Want then wants else haves)
      ensures exists c :: MarkedBy(g, w', visited + {x}, y, w'.state[y], c)
    {
      if y in Parents(g, x) && Changes(w, y, w.state[x]) {
        assert MarkedBy(g, w', visited + {x}, y, w'.state[y], x);
      } else {
        var c :| MarkedBy(g, w, visited, y, w.state[y], c);
        assert MarkedBy(g, w', visited + {x}, y, w'.state[y], c);
      }
    }
  }

  lemma SourcedDrained(g: Graph, wants: set<Oid>, haves: set<Oid>, w: Marks, visited: set<Oid>,
                       rest: multiset<QueueEntry>)
    requires Sourced(g, wants, haves, w, visited)
    ensures Sourced(g, wants, haves, w.(frontier := rest), visited)
  {
    forall x, c | x in w.state && MarkedBy(g, w, visited, x, w.state[x], c)
      ensures MarkedBy(g, w.(frontier := rest), visited, x, w.state[x], c)
    {
    }
  }

  lemma VisitListed(g: Graph, haves: set<Oid>, w: Marks, visited: set<Oid>, todo: seq<Oid>, level: nat, sent: seq<Oid>)
    requires TrueGenerations(g)
    requires forall y :: y in w.state ==> Known(g, y)
    requires Tracked(g, w, visited, Elements(todo)) && Descending(g, w, visited, Elements(todo), level)
    requires forall h :: h in haves ==> h in w.state && w.state[h] == Have
    requires |todo| > 0 && Listed(g, haves, sent, todo)
    ensures Listed(g, haves, if w.state[todo[0]] == Want then sent + [todo[0]] else sent, todo[1..])
  {
    if w.state[todo[0]] == Want {
      WantedIsNew(g, haves, w, visited, Elements(todo), level, todo[0]);
    }
  }

  /** What any order of visits maintains, for any generations. */
  ghost predicate CoreInv(g: Graph, wants: set<Oid>, haves: set<Oid>, w: Marks, visited: set<Oid>, todo: seq<Oid>,
                          sent: seq<Oid>)
  {
    && Justified(g, wants, haves, w)
    && (forall h :: h in haves ==> h in w.state && w.state[h] == Have)
    && (forall x :: x in wants ==> x in w.state)
    && Tracked(g, w, visited, Elements(todo))
    && Emitted(w, visited, sent)
    && (forall x :: x in sent ==> Reachable(ParentEdges(g), wants, x))
    && (forall x :: x in todo ==> x !in visited)
  }

  /** Everything the walk maintains, between visits and between levels. */
  ghost predicate WalkInv(g: Graph, wants: set<Oid>, haves: set<Oid>, w: Marks, visited: set<Oid>, todo: seq<Oid>,
                          level: nat, sent: seq<Oid>)
  {
    && CoreInv(g, wants, haves, w, visited, todo, sent)
    && (haves == {} ==> QueuedOnce(w, visited, Elements(todo)))
    && (TrueGenerations(g) ==>
          && Descending(g, w, visited, Elements(todo), level) && Listed(g, haves, sent, todo)
          && Sourced(g, wants, haves, w, visited))
  }

  ghost function HaveSet(w: Marks): set<Oid> {
    set x | x in w.state && w.state[x] == Have
  }

  /** Marks only ever grow, and the queue grows only with them. */
  ghost predicate Grows(w: Marks, w': Marks) {
    && w.state.Keys <= w'.state.Keys
    && HaveSet(w) <= HaveSet(w')
    && (w.state.Keys == w'.state.Keys && HaveSet(w) == HaveSet(w') ==> w.frontier == w'.frontier)
  }

  lemma VisitGrows(g: Graph, w: Marks, x: Oid, w': Marks)
    requires x in w.state && Known(g, x) && forall p :: p in Parents(g, x) ==> Known(g, p)
    requires w' == Visited(g, w, x)
    ensures Grows(w, w')
    ensures forall y :: y in w'.state ==> y in w.state || y in Parents(g, x)
  {
    VisitedEffect(g, w, x, w');
    if w.state.Keys == w'.state.Keys && HaveSet(w) == HaveSet(w') {
      forall p | p in Parents(g, x)
        ensures !Changes(w, p, w.state[x])
      {
        assert p in w.state.Keys;
        assert p in HaveSet(w) <==> p in HaveSet(w');
      }
      MarkedAllIdle(g, w.(pending := if w.state[x] == Want then w.pending - {x} else w.pending), Parents(g, x),
                    w.state[x]);
    }
  }

  lemma GrowsSelf(w: Marks)
    ensures Grows(w, w)
  {
  }

  lemma GrowsOn(w: Marks, w1: Marks, w2: Marks)
    requires Grows(w, w1) && Grows(w1, w2)
    ensures Grows(w, w2)
  {
  }

  lemma WalkFacts(g: Graph, wants: set<Oid>, haves: set<Oid>, w: Marks, visited: set<Oid>, todo: seq<Oid>,
                  sent: seq<Oid>)
    requires CoreInv(g, wants, haves, w, visited, todo, sent)
    ensures forall y :: y in w.state ==> Known(g, y)
    ensures forall y :: y in visited || y in Elements(todo) ==> y in w.state
    ensures forall y :: y in todo && w.state[y] == Want ==> Reachable(ParentEdges(g), wants, y)
  {
  }

  lemma VisitCore(g: Graph, wants: set<Oid>, haves: set<Oid>, w: Marks, visited: set<Oid>, todo: seq<Oid>,
                  sent: seq<Oid>, w': Marks)
    requires CoreInv(g, wants, haves, w, visited, todo, sent)
    requires |todo| > 0 && todo[0] !in todo[1..] && todo[0] in w.state && Known(g, todo[0])
    requires forall p :: p in Parents(g, todo[0]) ==> Known(g, p)
    requires w' == Visited(g, w, todo[0])
    ensures CoreInv(g, wants, haves, w', visited + {todo[0]}, todo[1..],
                    if w.state[todo[0]] == Want then sent + [todo[0]] else sent)
  {
    hide Justified, Tracked, Emitted, Visited, Reachable;
    var x := todo[0];
    WalkFacts(g, wants, haves, w, visited, todo, sent);
    assert Elements(todo) - {x} == Elements(todo[1..]);
    VisitJustified(g, wants, haves, w, x, w');
    VisitTracked(g, wants, haves, w, visited, Elements(todo), x, w');
    VisitEmitted(g, w, visited, x, sent, w');
    VisitKeepsRoots(g, w, x, w', haves, wants);
  }

  lemma VisitKeeps(g: Graph, wants: set<Oid>, haves: set<Oid>, w: Marks, visited: set<Oid>, todo: seq<Oid>, level: nat,
                   sent: seq<Oid>, w': Marks)
    requires WalkInv(g, wants, haves, w, visited, todo, level, sent)
    requires |todo| > 0 && todo[0] !in todo[1..] && forall p :: p in Parents(g, todo[0]) ==> Known(g, p)
    requires w' == Visited(g, w, todo[0])
    ensures WalkInv(g, wants, haves, w', visited + {todo[0]}, todo[1..], level,
                    if w.state[todo[0]] == Want then sent + [todo[0]] else sent)
  {
    hide Justified, Tracked, Emitted, QueuedOnce, Descending, Sourced, Listed, Visited, TrueGenerations, Reachable;
    var x := todo[0];
    WalkFacts(g, wants, haves, w, visited, todo, sent);
    assert Elements(todo) - {x} == Elements(todo[1..]);
    VisitCore(g, wants, haves, w, visited, todo, sent, w');
    if haves == {} {
      VisitQueuedOnce(g, wants, w, visited, Elements(todo), x, w');
    }
    if TrueGenerations(g) {
      VisitDescending(g, w, visited, Elements(todo), level, x, w');
      VisitSourced(g, wants, haves, w, visited, Elements(todo), level, x, w');
      VisitListed(g, haves, w, visited, todo, level, sent);
    }
  }

  lemma VisitKeepsRoots(g: Graph, w: Marks, x: Oid, w': Marks, haves: set<Oid>, wants: set<Oid>)
    requires x in w.state && Known(g, x) && forall p :: p in Parents(g, x) ==> Known(g, p)
    requires w' == Visited(g, w, x)
    requires forall h :: h in haves ==> h in w.state && w.state[h] == Have
    requires forall y :: y in wants ==> y in w.state
    ensures forall h :: h in haves ==> h in w'.state && w'.state[h] == Have
    ensures forall y :: y in wants ==> y in w'.state
  {
    VisitedEffect(g, w, x, w');
  }

  lemma DrainTracked(g: Graph, wants: set<Oid>, haves: set<Oid>, w: Marks, visited: set<Oid>,
                     generation: nat, level: seq<Oid>, rest: multiset<QueueEntry>)
    requires Justified(g, wants, haves, w) && Tracked(g, w, visited, {})
    requires LevelOf(w.frontier, visited, generation, level, rest)
    ensures Justified(g, wants, haves, w.(frontier := rest))
    ensures Tracked(g, w.(frontier := rest), visited, Elements(level))
    ensures forall x :: x in level ==> x !in visited && x in w.state && Gen(g, x) == generation
  {
    assert forall e :: e in rest ==> e in w.frontier && e.generation != generation;
    forall x | x in level
      ensures x in w.state && Gen(g, x) == generation
    {
      assert QueueEntry(generation, x) in w.frontier;
    }
    forall x | x in w.state && x !in visited && x !in level
      ensures QueueEntry(Gen(g, x), x) in rest
    {
      assert QueueEntry(Gen(g, x), x) in w.frontier;
    }
  }

  lemma DrainQueuedOnce(g: Graph, wants: set<Oid>, w: Marks, visited: set<Oid>,
                        generation: nat, level: seq<Oid>, rest: multiset<QueueEntry>)
    requires Justified(g, wants, {}, w) && QueuedOnce(w, visited, {})
    requires LevelOf(w.frontier, visited, generation, level, rest)
    ensures QueuedOnce(w.(frontier := rest), visited, Elements(level))
  {
    forall e | e in rest
      ensures e in w.frontier && e.oid !in level
    {
    }
  }

  lemma DrainDescending(g: Graph, haves: set<Oid>, w: Marks, visited: set<Oid>, bound: nat, sent: seq<Oid>,
                        generation: nat, level: seq<Oid>, rest: multiset<QueueEntry>)
    requires forall x :: x in w.state ==> Known(g, x)
    requires forall x :: x in visited ==> x in w.state
    requires forall x :: x in level ==> x in w.state && Gen(g, x) == generation
    requires forall x :: x in sent ==> x in visited
    requires Descending(g, w, visited, {}, bound) && Listed(g, haves, sent, [])
    requires LevelOf(w.frontier, visited, generation, level, rest)
    ensures Descending(g, w.(frontier := rest), visited, Elements(level), generation)
    ensures Listed(g, haves, sent, level)
  {
    hide Reachable;
    var top :| QueueEntry(generation, top) in w.frontier;
    assert forall e :: e in rest ==> e in w.frontier && e.generation != generation;
  }

  /** Draining a level moves its commits from the queue to `todo`. */
  lemma DrainKeeps(g: Graph, wants: set<Oid>, haves: set<Oid>, w: Marks, visited: set<Oid>, bound: nat, sent: seq<Oid>,
                   generation: nat, level: seq<Oid>, rest: multiset<QueueEntry>)
    requires WalkInv(g, wants, haves, w, visited, [], bound, sent)
    requires LevelOf(w.frontier, visited, generation, level, rest)
    ensures WalkInv(g, wants, haves, w.(frontier := rest), visited, level, generation, sent)
  {
    hide Justified, Tracked, QueuedOnce, Descending, Sourced, Listed, LevelOf, TrueGenerations, Reachable;
    WalkFacts(g, wants, haves, w, visited, [], sent);
    assert Elements([]) == {};
    DrainTracked(g, wants, haves, w, visited, generation, level, rest);
    if haves == {} {
      DrainQueuedOnce(g, wants, w, visited, generation, level, rest);
    }
    if TrueGenerations(g) {
      DrainDescending(g, haves, w, visited, bound, sent, generation, level, rest);
      SourcedDrained(g, wants, haves, w, visited, rest);
    }
  }

  /** Once nothing is pending, everything wanted was sent or is under a have. */
  lemma Covered(g: Graph, wants: set<Oid>, haves: set<Oid>, w: Marks, visited: set<Oid>, sent: seq<Oid>)
    requires CoreInv(g, wants, haves, w, visited, [], sent) && w.pending == {}
    ensures forall x :: Reachable(ParentEdges(g), wants, x) ==> x in sent || Reachable(ParentEdges(g), haves, x)
  {
    var s := iset x | x in sent || Reachable(ParentEdges(g), haves, x);
    forall x | x in w.state
      ensures x in s && (w.state[x] == Want ==> x in visited)
    {
      assert x !in w.pending;
    }
    forall x, y | x in s && x in ParentEdges(g) && y in ParentEdges(g)[x]
      ensures y in s
    {
      if Reachable(ParentEdges(g), haves, x) {
        ReachStep(ParentEdges(g), haves, x, y);
      } else {
        assert x in visited && y in Parents(g, x);
      }
    }
    ReachClosed(ParentEdges(g), wants, s);
  }

  /** Without a have the frontier has run dry when nothing is pending. */
  lemma NothingLeft(g: Graph, wants: set<Oid>, w: Marks, visited: set<Oid>, sent: seq<Oid>)
    requires CoreInv(g, wants, {}, w, visited, [], sent) && QueuedOnce(w, visited, {}) && w.pending == {}
    ensures w.frontier == multiset{}
  {
    forall e: QueueEntry
      ensures e !in w.frontier
    {
      ReachNothing(ParentEdges(g), e.oid);
    }
  }

  // ------------------------------------------------- whether haves cut the walk short

  /** A child of `x` that lies at level `m` or above it. */
  ghost predicate ChildAbove(g: Graph, m: nat, x: Oid, c: Oid) {
    Known(g, c) && m <= Gen(g, c) && x in Parents(g, c)
  }

  /** Exploring down to level `m` meets `x` as wanted: it is a want, or the parent of a commit to send. */
  ghost predicate MetAsWant(g: Graph, wants: set<Oid>, haves: set<Oid>, m: nat, x: Oid) {
    var e := ParentEdges(g);
    x in wants || exists c :: ChildAbove(g, m, x, c) && Reachable(e, wants, c) && !Reachable(e, haves, c)
  }

  /** It meets `x` as had: it is a have, or the parent of a commit under one. */
  ghost predicate MetAsHave(g: Graph, haves: set<Oid>, m: nat, x: Oid) {
    x in haves || exists c :: ChildAbove(g, m, x, c) && Reachable(ParentEdges(g), haves, c)
  }

  /** At level `m` nothing wanted is left to explore: whatever was met as wanted below was met as had. */
  ghost predicate SettledAt(g: Graph, wants: set<Oid>, haves: set<Oid>, m: nat) {
    forall x :: Known(g, x) && Gen(g, x) < m && MetAsWant(g, wants, haves, m, x) ==> MetAsHave(g, haves, m, x)
  }

  ghost predicate LiesBelow(g: Graph, roots: set<Oid>, m: nat, x: Oid) {
    Known(g, x) && Gen(g, x) < m && Reachable(ParentEdges(g), roots, x)
  }

  /** Some level is settled with ancestry still below it. */
  ghost predicate StopsEarly(g: Graph, wants: set<Oid>, haves: set<Oid>) {
    exists m: nat, x :: SettledAt(g, wants, haves, m) && LiesBelow(g, wants + haves, m, x)
  }

  /** Between levels, with true generations: all a walk at level `m` knows about marks and visits. */
  ghost predicate AtLevel(g: Graph, wants: set<Oid>, haves: set<Oid>, w: Marks, visited: set<Oid>, m: nat,
                          sent: seq<Oid>)
  {
    && TrueGenerations(g) && CoreInv(g, wants, haves, w, visited, [], sent)
    && Descending(g, w, visited, {}, m) && Listed(g, haves, sent, []) && Sourced(g, wants, haves, w, visited)
  }

  lemma RootsReached(e: Edges, wants: set<Oid>, haves: set<Oid>)
    ensures forall x :: Reachable(e, wants, x) || Reachable(e, haves, x) ==> Reachable(e, wants + haves, x)
  {
    hide Reachable;
    forall r | r in wants + haves
      ensures Reachable(e, wants + haves, r)
    {
      ReachRoot(e, wants + haves, r);
    }
    ReachTrans(e, e, wants + haves, wants);
    ReachTrans(e, e, wants + haves, haves);
  }

  /** Exactly the reachable commits at the level and above have been visited. */
  lemma VisitedIs(g: Graph, wants: set<Oid>, haves: set<Oid>, w: Marks, visited: set<Oid>, m: nat, sent: seq<Oid>)
    requires AtLevel(g, wants, haves, w, visited, m, sent)
    ensures forall x :: x in visited <==> Known(g, x) && m <= Gen(g, x) && Reachable(ParentEdges(g), wants + haves, x)
  {
    hide Reachable, Emitted, Listed, Sourced;
    var e := ParentEdges(g);
    RootsReached(e, wants, haves);
    var s := iset x: Oid | x in visited || !Known(g, x) || Gen(g, x) < m;
    forall x | x in w.state
      ensures x in s
    {
      assert Elements([]) == {};
      assert x !in visited ==> QueueEntry(Gen(g, x), x) in w.frontier;
    }
    ReachClosed(e, wants + haves, s);
  }

  /** The mark of a visited commit says whether it is under a have. */
  lemma VisitedMark(g: Graph, wants: set<Oid>, haves: set<Oid>, w: Marks, visited: set<Oid>, m: nat, sent: seq<Oid>)
    requires AtLevel(g, wants, haves, w, visited, m, sent)
    ensures forall x :: x in visited ==> x in w.state
    ensures forall x :: x in visited ==> (w.state[x] == Have <==> Reachable(ParentEdges(g), haves, x))
    ensures forall x :: x in visited && w.state[x] == Want ==> Reachable(ParentEdges(g), wants, x)
  {
    hide Reachable, Sourced, Descending, TrueGenerations;
  }

  /** Unvisited marks are those met below the level, as the mark says. */
  lemma MetAsMarked(g: Graph, wants: set<Oid>, haves: set<Oid>, w: Marks, visited: set<Oid>, m: nat, sent: seq<Oid>,
                    x: Oid)
    requires AtLevel(g, wants, haves, w, visited, m, sent)
    ensures x in w.state && w.state[x] == Have ==> MetAsHave(g, haves, m, x)
    ensures x in w.state && w.state[x] == Want ==> MetAsWant(g, wants, haves, m, x)
  {
    hide Reachable, Justified, Tracked, Emitted, Listed, TrueGenerations;
    VisitedMark(g, wants, haves, w, visited, m, sent);
    VisitedIs(g, wants, haves, w, visited, m, sent);
    if x in w.state && x !in (if w.state[x] == Want then wants else haves) {
      var c :| MarkedBy(g, w, visited, x, w.state[x], c);
      assert ChildAbove(g, m, x, c);
    }
  }

  lemma MarkedAsMet(g: Graph, wants: set<Oid>, haves: set<Oid>, w: Marks, visited: set<Oid>, m: nat, sent: seq<Oid>,
                    x: Oid)
    requires AtLevel(g, wants, haves, w, visited, m, sent)
    ensures MetAsWant(g, wants, haves, m, x) ==> x in w.state
    ensures MetAsHave(g, haves, m, x) ==> x in w.state && w.state[x] == Have
  {
    hide Reachable, Justified, Emitted, Listed, Sourced;
    VisitedMark(g, wants, haves, w, visited, m, sent);
    VisitedIs(g, wants, haves, w, visited, m, sent);
    RootsReached(ParentEdges(g), wants, haves);
    assert forall c :: ChildAbove(g, m, x, c) && Reachable(ParentEdges(g), wants + haves, c) ==> c in visited;
  }

  /** Nothing is pending exactly when the level is settled. */
  lemma PendingIff(g: Graph, wants: set<Oid>, haves: set<Oid>, w: Marks, visited: set<Oid>, m: nat, sent: seq<Oid>)
    requires AtLevel(g, wants, haves, w, visited, m, sent)
    ensures w.pending == {} <==> SettledAt(g, wants, haves, m)
  {
    hide Reachable, Emitted, Listed, Sourced, MetAsWant, MetAsHave, TrueGenerations;
    assert Elements([]) == {};
    forall x: Oid
      ensures x in w.pending <==>
                Known(g, x) && Gen(g, x) < m && MetAsWant(g, wants, haves, m, x) && !MetAsHave(g, haves, m, x)
    {
      MetAsMarked(g, wants, haves, w, visited, m, sent, x);
      MarkedAsMet(g, wants, haves, w, visited, m, sent, x);
      assert x in w.state && x !in visited ==> QueueEntry(Gen(g, x), x) in w.frontier;
    }
  }

  /** With an empty frontier everything reachable has been visited, whatever the generations. */
  lemma AllVisited(g: Graph, wants: set<Oid>, haves: set<Oid>, w: Marks, visited: set<Oid>, sent: seq<Oid>)
    requires CoreInv(g, wants, haves, w, visited, [], sent) && w.frontier == multiset{}
    ensures forall x :: Reachable(ParentEdges(g), wants + haves, x) ==> x in visited && Known(g, x)
  {
    hide Reachable, Emitted;
    assert Elements([]) == {};
    assert forall x :: x in w.state ==> x in visited;
    ReachClosed(ParentEdges(g), wants + haves, iset x | x in visited);
  }

  /** No level above the one reached was settled, or the walk would have stopped there. */
  ghost predicate NotSettledAbove(g: Graph, wants: set<Oid>, haves: set<Oid>, visited: set<Oid>, level: nat) {
    visited == {} || forall m: nat :: m > level ==> !SettledAt(g, wants, haves, m)
  }

  lemma LowerLevel(g: Graph, wants: set<Oid>, haves: set<Oid>, w: Marks, visited: set<Oid>, level: nat, sent: seq<Oid>,
                   m: nat)
    requires AtLevel(g, wants, haves, w, visited, level, sent)
    requires m <= level || visited == {}
    requires forall e :: e in w.frontier ==> e.generation < m
    ensures AtLevel(g, wants, haves, w, visited, m, sent)
  {
    hide CoreInv, Listed, Sourced, TrueGenerations;
    WalkFacts(g, wants, haves, w, visited, [], sent);
  }

  /** A walk that goes on passes only levels that are not settled. */
  lemma LevelsPassed(g: Graph, wants: set<Oid>, haves: set<Oid>, w: Marks, visited: set<Oid>, level: nat,
                     sent: seq<Oid>, generation: nat, visited': set<Oid>)
    requires AtLevel(g, wants, haves, w, visited, level, sent) && w.pending != {}
    requires NotSettledAbove(g, wants, haves, visited, level)
    requires forall e :: e in w.frontier ==> e.generation <= generation
    ensures NotSettledAbove(g, wants, haves, visited', generation)
  {
    hide AtLevel, SettledAt;
    forall m: nat | m > generation
      ensures !SettledAt(g, wants, haves, m)
    {
      if m <= level || visited == {} {
        LowerLevel(g, wants, haves, w, visited, level, sent, m);
        PendingIff(g, wants, haves, w, visited, m, sent);
      }
    }
  }

  /** What is left in the frontier tells, with true generations, whether some level was settled early. */
  lemma LeftIffStopped(g: Graph, wants: set<Oid>, haves: set<Oid>, w: Marks, visited: set<Oid>, level: nat,
                       sent: seq<Oid>)
    requires AtLevel(g, wants, haves, w, visited, level, sent) && w.pending == {}
    requires NotSettledAbove(g, wants, haves, visited, level)
    ensures w.frontier != multiset{} <==> StopsEarly(g, wants, haves)
  {
    hide Reachable, SettledAt, Sourced, Listed, Emitted, Tracked, TrueGenerations;
    if w.frontier != multiset{} {
      var e :| e in w.frontier;
      PendingIff(g, wants, haves, w, visited, level, sent);
      RootsReached(ParentEdges(g), wants, haves);
      assert LiesBelow(g, wants + haves, level, e.oid);
    } else {
      AllVisited(g, wants, haves, w, visited, sent);
      forall m: nat, x | LiesBelow(g, wants + haves, m, x)
        ensures !SettledAt(g, wants, haves, m)
      {
        assert x in visited;
      }
    }
  }

  lemma NothingPassed(g: Graph, wants: set<Oid>, haves: set<Oid>, level: nat)
    ensures NotSettledAbove(g, wants, haves, {}, level)
  {
  }

  /**
   What `boundedByHaves` tells. For any generations: if false, all ancestry of wants and haves was explored.
   For true ones: it is true if and only if some level is settled with ancestry below it, and what was
   explored is the ancestry down to the first settled level.
   */
  ghost predicate Explores(g: Graph, wants: set<Oid>, haves: set<Oid>, sent: seq<Oid>, bounded: bool,
                           explored: set<Oid>)
  {
    var e := ParentEdges(g);
    && (forall x :: x in explored ==> Known(g, x) && Reachable(e, wants + haves, x))
    && (forall x :: x in sent ==> x in explored)
    && (!bounded ==> forall x :: Reachable(e, wants + haves, x) ==> x in explored && Known(g, x))
    && (TrueGenerations(g) ==> (bounded <==> StopsEarly(g, wants, haves)))
    && (TrueGenerations(g) ==> exists m: nat :: ExploredTo(g, wants, haves, m, explored))
  }

  ghost predicate ExploredTo(g: Graph, wants: set<Oid>, haves: set<Oid>, m: nat, explored: set<Oid>) {
    var e := ParentEdges(g);
    && (forall x :: x in explored <==> Known(g, x) && m <= Gen(g, x) && Reachable(e, wants + haves, x))
    && SettledAt(g, wants, haves, m) && NotSettledAbove(g, wants, haves, explored, m)
  }

  lemma WhatIsLeft(g: Graph, wants: set<Oid>, haves: set<Oid>, w: Marks, visited: set<Oid>, level: nat,
                   sent: seq<Oid>)
    requires WalkInv(g, wants, haves, w, visited, [], level, sent) && w.pending == {}
    requires TrueGenerations(g) ==> NotSettledAbove(g, wants, haves, visited, level)
    ensures Explores(g, wants, haves, sent, w.frontier != multiset{}, visited)
  {
    hide Reachable, Tracked, QueuedOnce, Descending, Listed, Sourced, TrueGenerations, NotSettledAbove, StopsEarly,
         SettledAt;
    assert Elements([]) == {};
    WalkFacts(g, wants, haves, w, visited, [], sent);
    RootsReached(ParentEdges(g), wants, haves);
    if w.frontier == multiset{} {
      AllVisited(g, wants, haves, w, visited, sent);
    }
    if TrueGenerations(g) {
      LeftIffStopped(g, wants, haves, w, visited, level, sent);
      VisitedIs(g, wants, haves, w, visited, level, sent);
      PendingIff(g, wants, haves, w, visited, level, sent);
      assert ExploredTo(g, wants, haves, level, visited);
    }
  }

  // --------------------------------------------------------------- the walk

  /** Visit one drained level in order. */
  method VisitLevel(d: Discovery, g: Graph, records: map<Oid, CommitInfo>, level: seq<Oid>, visited0: set<Oid>,
                    sent0: seq<Oid>, ghost wants: set<Oid>, ghost haves: set<Oid>, ghost generation: nat)
    returns (visited: set<Oid>, sent: seq<Oid>)
    requires WalkInv(g, wants, haves, d.Value(), visited0, level, generation, sent0)
    requires CacheSound(g, records) && forall x :: x in d.state ==> x in records
    requires forall x, p :: x in level && x in records && p in records[x].parents ==> p in records
    requires forall i, j :: 0 <= i < j < |level| ==> level[i] != level[j]
    modifies d
    ensures WalkInv(g, wants, haves, d.Value(), visited, [], generation, sent)
    ensures Grows(old(d.Value()), d.Value())
    ensures forall x :: x in d.state ==> x in records
  {
    hide CoreInv, QueuedOnce, Descending, Sourced, Listed, TrueGenerations, Reachable, Grows, MarkedAll, HaveSet;
    visited, sent := visited0, sent0;
    assert level[0..] == level;
    GrowsSelf(d.Value());
    for i := 0 to |level|
      invariant WalkInv(g, wants, haves, d.Value(), visited, level[i..], generation, sent)
      invariant Grows(old(d.Value()), d.Value())
      invariant forall x :: x in d.state ==> x in records
    {
      var id := level[i];
      ghost var w := d.Value();
      assert level[i..][0] == id && level[i..][1..] == level[i + 1..];
      WalkFacts(g, wants, haves, w, visited, level[i..], sent);
      assert id in level[i..];
      var flag := d.state[id];
      var parents := records[id].parents;
      assert parents == Parents(g, id);
      VisitKeeps(g, wants, haves, w, visited, level[i..], generation, sent, Visited(g, w, id));
      visited := visited + {id};
      if flag == Want {
        sent := sent + [id];
        d.pending := d.pending - {id};
      }
      d.MarkEach(g, records, parents, flag);
      VisitGrows(g, w, id, d.Value());
      GrowsOn(old(d.Value()), w, d.Value());
    }
    assert level[|level|..] == [];
  }

  /** A pending want is still queued, so the frontier cannot run dry first. */
  lemma NeverStalls(g: Graph, wants: set<Oid>, haves: set<Oid>, w: Marks, visited: set<Oid>, sent: seq<Oid>)
    requires CoreInv(g, wants, haves, w, visited, [], sent) && w.pending != {}
    ensures w.frontier != multiset{}
  {
    hide Reachable;
    var x :| x in w.pending;
    assert QueueEntry(Gen(g, x), x) in w.frontier;
  }

  /** What an error of the walk tells: some reachable commit has no usable record. */
  ghost predicate Unresolved(g: Graph, roots: set<Oid>, e: WalkError) {
    exists x :: Reachable(ParentEdges(g), roots, x) && !Known(g, x) && e == LookupCommit(g, x).error
  }

  lemma ParentUnresolved(g: Graph, wants: set<Oid>, haves: set<Oid>, w: Marks, visited: set<Oid>, todo: seq<Oid>,
                         sent: seq<Oid>, x: Oid, p: Oid)
    requires CoreInv(g, wants, haves, w, visited, todo, sent)
    requires x in todo && x in w.state && p in Parents(g, x) && !Known(g, p)
    ensures Unresolved(g, wants + haves, LookupCommit(g, p).error)
  {
    hide Reachable, Tracked, Emitted;
    var e := ParentEdges(g);
    forall r | r in wants + haves
      ensures Reachable(e, wants + haves, r)
    {
      ReachRoot(e, wants + haves, r);
    }
    ReachTrans(e, e, wants + haves, wants);
    ReachTrans(e, e, wants + haves, haves);
    ReachStep(e, wants + haves, x, p);
  }

  method LevelParents(g: Graph, records: map<Oid, CommitInfo>, level: seq<Oid>) returns (parents: seq<Oid>)
    requires CacheSound(g, records) && forall x :: x in level ==> x in records
    ensures forall x, p :: x in level && p in records[x].parents ==> p in parents
    ensures forall p :: p in parents ==> exists x :: x in level && p in records[x].parents
  {
    parents := [];
    for i := 0 to |level|
      invariant forall j, p :: 0 <= j < i && p in records[level[j]].parents ==> p in parents
      invariant forall p :: p in parents ==> exists x :: x in level && p in records[x].parents
    {
      assert forall p :: p in records[level[i]].parents ==> level[i] in level;
      parents := parents + records[level[i]].parents;
    }
  }

  /** Fetch the records of a level's parents; a parent without a usable record is an error. */
  method LoadParents(g: Graph, records: map<Oid, CommitInfo>, todo: seq<Oid>,
                     ghost w: Marks, ghost visited: set<Oid>, ghost sent: seq<Oid>,
                     ghost wants: set<Oid>, ghost haves: set<Oid>)
    returns (r: Result<map<Oid, CommitInfo>>)
    requires CoreInv(g, wants, haves, w, visited, todo, sent)
    requires CacheSound(g, records) && forall x :: x in w.state ==> x in records
    requires forall x :: x in todo ==> x in w.state
    ensures r.Err? ==> Unresolved(g, wants + haves, r.error)
    ensures r.Ok? ==> CacheSound(g, r.value) && forall x :: x in records ==> x in r.value
    ensures r.Ok? ==> forall x, p :: x in todo && x in r.value && p in r.value[x].parents ==> p in r.value
  {
    hide CoreInv, Reachable, FetchedIds, NewIn;
    var parents := LevelParents(g, records, todo);
    var cache, fetched := PrefetchRecords(g, records, parents);
    for i := 0 to |fetched|
      invariant forall j :: 0 <= j < i ==> fetched[j].1.Found?
    {
      if !fetched[i].1.Found? {
        ghost var x :| x in todo && fetched[i].0 in records[x].parents;
        ParentUnresolved(g, wants, haves, w, visited, todo, sent, x, fetched[i].0);
        return Err(fetched[i].1.error);
      }
    }
    FetchedKnown(g, records, parents, cache, fetched);
    r := Ok(cache);
  }

  /** One level of the walk: drain it, load its parents' records, visit it. */
  method VisitTopLevel(d: Discovery, g: Graph, records0: map<Oid, CommitInfo>, visited0: set<Oid>, sent0: seq<Oid>,
                       ghost wants: set<Oid>, ghost haves: set<Oid>, ghost bound: nat)
    returns (r: Result<map<Oid, CommitInfo>>, visited: set<Oid>, sent: seq<Oid>, ghost level: nat)
    requires WalkInv(g, wants, haves, d.Value(), visited0, [], bound, sent0) && d.pending != {}
    requires TrueGenerations(g) ==> NotSettledAbove(g, wants, haves, visited0, bound)
    requires CacheSound(g, records0) && forall x :: x in d.state ==> x in records0
    modifies d
    ensures r.Err? ==> Unresolved(g, wants + haves, r.error)
    ensures r.Ok? ==> WalkInv(g, wants, haves, d.Value(), visited, [], level, sent)
    ensures r.Ok? && TrueGenerations(g) ==> NotSettledAbove(g, wants, haves, visited, level)
    ensures r.Ok? ==> CacheSound(g, r.value) && forall x :: x in d.state ==> x in r.value
    ensures r.Ok? ==> Shrinks(g, old(d.Value()), d.Value())
  {
    hide CoreInv, QueuedOnce, Descending, Sourced, Listed, TrueGenerations, Reachable, LevelOf, Grows, Shrinks,
         NotSettledAbove;
    ghost var w := d.Value();
    NeverStalls(g, wants, haves, w, visited0, sent0);
    visited, sent, level := visited0, sent0, bound;
    var generation, todo := d.PopLevel(visited0);
    ghost var drained := d.Value();
    DrainKeeps(g, wants, haves, w, visited0, bound, sent0, generation, todo, d.frontier);
    WalkFacts(g, wants, haves, drained, visited0, todo, sent0);
    assert forall x :: x in todo ==> x in Elements(todo);
    LevelDistinct(w.frontier, visited0, generation, todo, d.frontier);
    r := LoadParents(g, records0, todo, drained, visited0, sent0, wants, haves);
    if r.Ok? {
      visited, sent := VisitLevel(d, g, r.value, todo, visited0, sent0, wants, haves, generation);
      KeysBounded(g, wants, haves, d.Value(), visited, sent);
      DrainShrinks(g, w, drained, d.Value());
      TopIsHighest(w.frontier, visited0, generation, todo, drained.frontier);
      if TrueGenerations(g) {
        assert Elements([]) == {};
        LevelsPassed(g, wants, haves, w, visited0, bound, sent0, generation, visited);
      }
      level := generation;
    }
  }

  /** The measure of the walk: marks left to make, then downgrades, then the queue. */
  ghost predicate Shrinks(g: Graph, w: Marks, w': Marks) {
    && w.state.Keys <= w'.state.Keys <= g.Keys
    && HaveSet(w) <= HaveSet(w') <= g.Keys
    && (w.state.Keys == w'.state.Keys && HaveSet(w) == HaveSet(w') ==> |w'.frontier| < |w.frontier|)
  }

  lemma DrainShrinks(g: Graph, w: Marks, drained: Marks, w': Marks)
    requires drained.state == w.state && |drained.frontier| < |w.frontier| && Grows(drained, w')
    requires w'.state.Keys <= g.Keys && HaveSet(w') <= g.Keys
    ensures Shrinks(g, w, w')
  {
    assert HaveSet(drained) == HaveSet(w);
  }

  /** Drain the frontier level by level until no want is pending. */
  method Discover(d: Discovery, g: Graph, records0: map<Oid, CommitInfo>, ghost wants: set<Oid>, ghost haves: set<Oid>,
                  ghost bound: nat)
    returns (r: Result<seq<Oid>>, boundedByHaves: bool, ghost explored: set<Oid>)
    requires WalkInv(g, wants, haves, d.Value(), {}, [], bound, [])
    requires CacheSound(g, records0) && forall x :: x in d.state ==> x in records0
    modifies d
    ensures r.Err? ==> Unresolved(g, wants + haves, r.error)
    ensures r.Ok? ==> Selects(g, wants, haves, r.value)
    ensures r.Ok? && haves == {} ==> !boundedByHaves
    ensures r.Ok? ==> Explores(g, wants, haves, r.value, boundedByHaves, explored)
  {
    hide CoreInv, QueuedOnce, Descending, Sourced, Listed, TrueGenerations, Reachable, Selects, NotSettledAbove,
         Explores;
    var records, visited, sent := records0, {}, [];
    explored := {};
    NothingPassed(g, wants, haves, bound);
    ghost var level := bound;
    while d.pending != {}
      invariant WalkInv(g, wants, haves, d.Value(), visited, [], level, sent)
      invariant TrueGenerations(g) ==> NotSettledAbove(g, wants, haves, visited, level)
      invariant CacheSound(g, records) && forall x :: x in d.state ==> x in records
      decreases g.Keys - d.state.Keys, g.Keys - HaveSet(d.Value()), |d.frontier|
    {
      var round;
      round, visited, sent, level := VisitTopLevel(d, g, records, visited, sent, wants, haves, level);
      if round.Err? {
        return Err(round.error), true, explored;
      }
      records := round.value;
    }
    Covered(g, wants, haves, d.Value(), visited, sent);
    Finished(g, wants, haves, d.Value(), visited, level, sent);
    if haves == {} {
      assert Elements([]) == {};
      NothingLeft(g, wants, d.Value(), visited, sent);
    }
    boundedByHaves := d.frontier != multiset{};
    explored := visited;
    WhatIsLeft(g, wants, haves, d.Value(), visited, level, sent);
    r := Ok(sent);
  }

  lemma TopIsHighest(q: multiset<QueueEntry>, visited: set<Oid>, generation: nat, level: seq<Oid>,
                     rest: multiset<QueueEntry>)
    requires LevelOf(q, visited, generation, level, rest)
    ensures forall e :: e in q ==> e.generation <= generation
  {
  }

  lemma LevelDistinct(q: multiset<QueueEntry>, visited: set<Oid>, generation: nat, level: seq<Oid>,
                      rest: multiset<QueueEntry>)
    requires LevelOf(q, visited, generation, level, rest)
    ensures forall i, j :: 0 <= i < j < |level| ==> level[i] != level[j]
  {
  }

  lemma FetchedKnown(g: Graph, records: map<Oid, CommitInfo>, ids: seq<Oid>, cache: map<Oid, CommitInfo>,
                     fetched: seq<(Oid, Lookup)>)
    requires CacheSound(g, records)
    requires forall id :: id in cache <==> id in records || (id in ids && Known(g, id))
    requires forall id :: id in ids && id !in records ==> (id, LookupCommit(g, id)) in fetched
    requires forall j :: 0 <= j < |fetched| ==> fetched[j].1.Found?
    ensures forall id :: id in ids ==> id in cache
  {
    forall id | id in ids && id !in records
      ensures Known(g, id)
    {
      var j :| 0 <= j < |fetched| && fetched[j] == (id, LookupCommit(g, id));
    }
  }

  lemma KeysBounded(g: Graph, wants: set<Oid>, haves: set<Oid>, w: Marks, visited: set<Oid>, sent: seq<Oid>)
    requires CoreInv(g, wants, haves, w, visited, [], sent)
    ensures w.state.Keys <= g.Keys && HaveSet(w) <= g.Keys
  {
  }

  /** Strictly decreasing by generation, then by id. */
  ghost predicate StrictlyDecreasing(g: Graph, sent: seq<Oid>) {
    forall i, j :: 0 <= i < j < |sent| ==>
      && Known(g, sent[i]) && Known(g, sent[j])
      && (Gen(g, sent[i]) > Gen(g, sent[j]) || (Gen(g, sent[i]) == Gen(g, sent[j]) && sent[i] > sent[j]))
  }

  /**
   What commit discovery promises. For any generations: nothing twice, nothing outside the
   wanted history, nothing missing that the haves do not cover. For true generations: exactly
   the difference, in strictly decreasing order.
   */
  ghost predicate Selects(g: Graph, wants: set<Oid>, haves: set<Oid>, sent: seq<Oid>) {
    && (forall i, j :: 0 <= i < j < |sent| ==> sent[i] != sent[j])
    && (forall x :: x in sent ==> Known(g, x) && Reachable(ParentEdges(g), wants, x))
    && (forall x :: Reachable(ParentEdges(g), wants, x) ==> x in sent || Reachable(ParentEdges(g), haves, x))
    && (TrueGenerations(g) ==> forall x :: x in sent ==> !Reachable(ParentEdges(g), haves, x))
    && (TrueGenerations(g) ==> StrictlyDecreasing(g, sent))
  }

  lemma Finished(g: Graph, wants: set<Oid>, haves: set<Oid>, w: Marks, visited: set<Oid>, level: nat, sent: seq<Oid>)
    requires WalkInv(g, wants, haves, w, visited, [], level, sent)
    requires forall x :: Reachable(ParentEdges(g), wants, x) ==> x in sent || Reachable(ParentEdges(g), haves, x)
    ensures Selects(g, wants, haves, sent)
  {
    hide Reachable, QueuedOnce, Descending, Sourced, TrueGenerations;
  }

  // ------------------------------------------------------------ entry point

  /** Two strictly decreasing listings of one set are the same list. */
  lemma {:induction false} DecreasingUnique(g: Graph, a: seq<Oid>, b: seq<Oid>)
    requires StrictlyDecreasing(g, a) && StrictlyDecreasing(g, b)
    requires forall x :: x in a <==> x in b
    ensures a == b
    decreases |a|
  {
    if a == [] {
      assert forall i :: 0 <= i < |b| ==> b[i] in b;
    } else {
      assert a[0] in a && b != [];
      assert b[0] in b;
      assert a[0] == b[0];
      forall x
        ensures x in a[1..] <==> x in b[1..]
      {
        assert x in a <==> x == a[0] || x in a[1..];
        assert x in b <==> x == b[0] || x in b[1..];
      }
      DecreasingUnique(g, a[1..], b[1..]);
    }
  }

  /**
   With true generations the promise determines the list: it is the exact difference in its one
   order, whichever walk computes it.
   */
  lemma SelectionDetermined(g: Graph, wants: set<Oid>, haves: set<Oid>, a: seq<Oid>, b: seq<Oid>)
    requires TrueGenerations(g) && Selects(g, wants, haves, a) && Selects(g, wants, haves, b)
    ensures forall x :: x in a <==> Reachable(ParentEdges(g), wants, x) && !Reachable(ParentEdges(g), haves, x)
    ensures a == b
  {
    hide Reachable, TrueGenerations, StrictlyDecreasing;
    DecreasingUnique(g, a, b);
  }

  lemma {:induction false} MarkedAllSnoc(g: Graph, w: Marks, ids: seq<Oid>, x: Oid, flag: Flag)
    requires Known(g, x) && forall p :: p in ids ==> Known(g, p)
    ensures MarkedAll(g, w, ids + [x], flag) == Marked(MarkedAll(g, w, ids, flag), x, flag, Gen(g, x))
    decreases |ids|
  {
    if ids == [] {
      assert [x][1..] == [];
    } else {
      assert (ids + [x])[1..] == ids[1..] + [x];
      MarkedAllSnoc(g, Marked(w, ids[0], flag, Gen(g, ids[0])), ids[1..], x, flag);
    }
  }

  lemma MarkedNone(g: Graph, w: Marks, flag: Flag)
    ensures MarkedAll(g, w, [], flag) == w
  {
  }

  const NO_MARKS := Marks(multiset{}, map[], {})

  ghost function KnownAmong(g: Graph, ids: seq<Oid>): set<Oid> {
    set h | h in ids && Known(g, h)
  }

  /** The first id in the list whose lookup failed for a reason that does not excuse it. */
  ghost predicate FirstFault(g: Graph, ids: seq<Oid>, e: WalkError) {
    exists i :: 0 <= i < |ids| && FaultAt(g, ids, e, i)
  }

  ghost predicate FaultAt(g: Graph, ids: seq<Oid>, e: WalkError, i: nat)
    requires i < |ids|
  {
    && !Known(g, ids[i]) && !Excused(ids[i], LookupCommit(g, ids[i])) && e == LookupCommit(g, ids[i]).error
    && forall j :: 0 <= j < i ==> Known(g, ids[j]) || Excused(ids[j], LookupCommit(g, ids[j]))
  }

  /** Mark the recognised haves in first-seen order; unknown and non-commit haves are dropped. */
  method MarkHaves(d: Discovery, g: Graph, haves: seq<Oid>) returns (r: Result<seq<Oid>>, records: map<Oid, CommitInfo>)
    requires d.Value() == NO_MARKS
    modifies d
    ensures r.Ok? <==> forall h :: h in haves ==> Known(g, h) || Excused(h, LookupCommit(g, h))
    ensures r.Ok? <==> forall h :: h in haves ==>
              || LookupCommit(g, h).Found? || LookupCommit(g, h).error == MissingObject(h)
              || (LookupCommit(g, h).error.UnexpectedKind? && LookupCommit(g, h).error.oid == h)
    ensures r.Err? ==> FirstFault(g, NewIn(haves, {}), r.error)
    ensures r.Ok? ==> r.value == Kept(NewIn(haves, {}), KnownAmong(g, haves)) && NoDuplicates(r.value)
    ensures r.Ok? ==> CacheSound(g, records) && forall h :: h in records <==> h in r.value
    ensures r.Ok? ==> d.Value() == MarkedAll(g, NO_MARKS, r.value, Have)
  {
    hide MarkedAll, Marked, FetchedIds, NewIn, Kept, NoDuplicates;
    MarkedNone(g, NO_MARKS, Have);
    var fetched;
    var none: map<Oid, CommitInfo> := map[];
    assert none.Keys == {};
    records, fetched := PrefetchRecords(g, none, haves);
    ghost var ids, known := NewIn(haves, {}), KnownAmong(g, haves);
    FetchedAt(fetched);
    KeptNothing(known);
    var common: seq<Oid> := [];
    for i := 0 to |fetched|
      invariant common == Kept(ids[..i], known)
      invariant forall j :: 0 <= j < i ==> Known(g, ids[j]) || Excused(ids[j], LookupCommit(g, ids[j]))
      invariant d.Value() == MarkedAll(g, NO_MARKS, common, Have)
    {
      var (have, l) := fetched[i];
      KeptNext(ids, i, known);
      if l.Found? {
        MarkedAllSnoc(g, NO_MARKS, common, have, Have);
        common := common + [have];
        d.Mark(have, Have, l.info.generation);
      } else if !Excused(have, l) {
        assert FaultAt(g, ids, l.error, i) && ids[i] in ids;
        return Err(l.error), records;
      }
    }
    assert ids[..|ids|] == ids;
    forall h | h in haves
      ensures Known(g, h) || Excused(h, LookupCommit(g, h))
    {
      assert h in ids;
    }
    KeptDistinct(ids, known);
    r := Ok(common);
  }

  /** The first id in the list without a usable record. */
  ghost predicate FirstUnknown(g: Graph, ids: seq<Oid>, e: WalkError) {
    exists i :: 0 <= i < |ids| && UnknownAt(g, ids, e, i)
  }

  ghost predicate UnknownAt(g: Graph, ids: seq<Oid>, e: WalkError, i: nat)
    requires i < |ids|
  {
    && !Known(g, ids[i]) && e == LookupCommit(g, ids[i]).error
    && forall j :: 0 <= j < i ==> Known(g, ids[j])
  }

  /** Mark the wanted commits that are not haves already. */
  method MarkWants(d: Discovery, g: Graph, records: map<Oid, CommitInfo>, wants: seq<Oid>)
    returns (r: Result<seq<Oid>>, cache: map<Oid, CommitInfo>)
    requires CacheSound(g, records)
    modifies d
    ensures r.Err? ==> FirstUnknown(g, NewIn(wants, records.Keys), r.error)
    ensures r.Ok? ==> CacheSound(g, cache) && forall x :: x in cache <==> x in records || x in wants
    ensures r.Ok? ==> r.value == NewIn(wants, records.Keys) && forall x :: x in r.value ==> Known(g, x)
    ensures r.Ok? ==> d.Value() == MarkedAll(g, old(d.Value()), r.value, Want)
  {
    hide MarkedAll, Marked, FetchedIds, NewIn;
    MarkedNone(g, d.Value(), Want);
    var fetched;
    cache, fetched := PrefetchRecords(g, records, wants);
    ghost var ids := NewIn(wants, records.Keys);
    FetchedAt(fetched);
    var marked: seq<Oid> := [];
    for i := 0 to |fetched|
      invariant marked == ids[..i] && forall j :: 0 <= j < i ==> fetched[j].1.Found?
      invariant forall x :: x in marked ==> Known(g, x)
      invariant d.Value() == MarkedAll(g, old(d.Value()), marked, Want)
    {
      var (want, l) := fetched[i];
      if !l.Found? {
        assert UnknownAt(g, ids, l.error, i);
        return Err(l.error), cache;
      }
      MarkedAllSnoc(g, old(d.Value()), marked, want, Want);
      marked := marked + [want];
      d.Mark(want, Want, l.info.generation);
    }
    FetchedKnown(g, records, wants, cache, fetched);
    r := Ok(marked);
  }

  /** The marks the walk starts from: a have on every recognised have, a want on every other want. */
  lemma StartMarks(g: Graph, common: seq<Oid>, marked: seq<Oid>, w: Marks)
    requires forall x :: x in common ==> Known(g, x)
    requires forall x :: x in marked ==> Known(g, x) && x !in common
    requires w == MarkedAll(g, MarkedAll(g, NO_MARKS, common, Have), marked, Want)
    ensures forall x :: x in w.state <==> x in common || x in marked
    ensures forall x :: x in w.state ==> w.state[x] == if x in common then Have else Want
    ensures forall x :: x in w.state ==> QueueEntry(Gen(g, x), x) in w.frontier
    ensures forall x :: x in w.pending <==> x in marked
    ensures forall e :: e in w.frontier ==> e.oid in w.state && e.generation == Gen(g, e.oid)
  {
    var w1 := MarkedAll(g, NO_MARKS, common, Have);
    forall x: Oid
      ensures x in w.state <==> x in common || x in marked
      ensures x in w.state ==> w.state[x] == if x in common then Have else Want
      ensures x in w.state ==> QueueEntry(Gen(g, x), x) in w.frontier
      ensures x in w.pending <==> x in marked
    {
      MarkedAllAt(g, NO_MARKS, common, Have, x, QueueEntry(0, x));
      var e := QueueEntry(if x in common then Gen(g, x) else 0, x);
      MarkedAllAt(g, w1, marked, Want, x, e);
    }
    forall e | e in w.frontier
      ensures e.oid in w.state && e.generation == Gen(g, e.oid)
    {
      MarkedAllAt(g, NO_MARKS, common, Have, e.oid, e);
      MarkedAllAt(g, w1, marked, Want, e.oid, e);
    }
  }

  lemma StartTracked(g: Graph, common: seq<Oid>, marked: seq<Oid>, wants: set<Oid>, w: Marks)
    requires forall x :: x in common ==> Known(g, x)
    requires forall x :: x in marked ==> Known(g, x) && x !in common && x in wants
    requires w == MarkedAll(g, MarkedAll(g, NO_MARKS, common, Have), marked, Want)
    ensures Justified(g, wants, Elements(common), w) && Tracked(g, w, {}, {})
  {
    hide MarkedAll, Reachable;
    StartMarks(g, common, marked, w);
    forall x | x in w.state
      ensures if w.state[x] == Have then Reachable(ParentEdges(g), Elements(common), x)
        else Reachable(ParentEdges(g), wants, x)
    {
      ReachRoot(ParentEdges(g), if w.state[x] == Have then Elements(common) else wants, x);
    }
  }

  /** The walk starts in its invariant. */
  lemma StartInv(g: Graph, common: seq<Oid>, marked: seq<Oid>, wants: set<Oid>, w: Marks) returns (bound: nat)
    requires forall x :: x in common ==> Known(g, x)
    requires forall x :: x in marked ==> Known(g, x) && x !in common && x in wants
    requires forall x :: x in wants ==> x in marked || x in common
    requires w == MarkedAll(g, MarkedAll(g, NO_MARKS, common, Have), marked, Want)
    ensures WalkInv(g, wants, Elements(common), w, {}, [], bound, [])
  {
    hide MarkedAll, Reachable, Justified, Tracked;
    StartMarks(g, common, marked, w);
    StartTracked(g, common, marked, wants, w);
    assert Elements([]) == {};
    bound := 0;
    if w.frontier != multiset{} {
      var top := TopExists(w.frontier);
      bound := top.generation + 1;
    }
  }
}
