/**
 The walk that commit discovery batches: pop one frontier entry, visit its
 commit, go on. It meets the same promise as the walk by whole levels, so with
 true generations the two send the same list.
 */
module EntryWalk {
  import opened Reachability
  import opened GitObjects
  import opened CommitDiscovery

  /**
   What true generations add when entries are popped one at a time: nothing queued is above
   anything visited, visited haves have passed their mark on, and the sent list is in order.
   */
  ghost predicate Sweeping(g: Graph, haves: set<Oid>, w: Marks, visited: set<Oid>, sent: seq<Oid>)
    requires forall x :: x in w.state ==> Known(g, x)
    requires forall x :: x in visited ==> x in w.state
  {
    && (forall x, e :: x in visited && e in w.frontier ==> !Above(e, QueueEntry(Gen(g, x), x)))
    && HavesPassedOn(g, w, visited)
    && (forall x :: x in sent ==> !Reachable(ParentEdges(g), haves, x))
    && StrictlyDecreasing(g, sent)
  }

  ghost predicate HavesPassedOn(g: Graph, w: Marks, visited: set<Oid>)
    requires forall x :: x in w.state ==> Known(g, x)
    requires forall x :: x in visited ==> x in w.state
  {
    forall x, p :: x in visited && w.state[x] == Have && p in Parents(g, x) ==> p in w.state && w.state[p] == Have
  }

  ghost predicate SweepInv(g: Graph, wants: set<Oid>, haves: set<Oid>, w: Marks, visited: set<Oid>, sent: seq<Oid>) {
    && CoreInv(g, wants, haves, w, visited, [], sent)
    && (TrueGenerations(g) ==> Sweeping(g, haves, w, visited, sent))
  }

  /** Popping an entry of a visited commit changes nothing that matters. */
  lemma SkipKeeps(g: Graph, wants: set<Oid>, haves: set<Oid>, w: Marks, visited: set<Oid>, sent: seq<Oid>,
                  e: QueueEntry)
    requires SweepInv(g, wants, haves, w, visited, sent) && e in w.frontier && e.oid in visited
    ensures SweepInv(g, wants, haves, w.(frontier := w.frontier - multiset{e}), visited, sent)
  {
    hide Reachable, TrueGenerations;
    var rest := w.frontier - multiset{e};
    assert forall f :: f in rest ==> f in w.frontier;
    assert forall f: QueueEntry :: f != e ==> rest[f] == w.frontier[f];
  }

  /** Popping an unvisited commit makes it the one to visit. */
  lemma PopKeeps(g: Graph, wants: set<Oid>, haves: set<Oid>, w: Marks, visited: set<Oid>, sent: seq<Oid>, e: QueueEntry)
    requires CoreInv(g, wants, haves, w, visited, [], sent) && e in w.frontier && e.oid !in visited
    ensures CoreInv(g, wants, haves, w.(frontier := w.frontier - multiset{e}), visited, [e.oid], sent)
    ensures e.oid in w.state && Known(g, e.oid) && e.generation == Gen(g, e.oid)
  {
    hide Reachable;
    var rest := w.frontier - multiset{e};
    assert forall f :: f in rest ==> f in w.frontier;
    assert forall f: QueueEntry :: f != e ==> rest[f] == w.frontier[f];
  }

  /** A commit still wanted when it comes to the top is under no have. */
  lemma PoppedIsNew(g: Graph, haves: set<Oid>, w: Marks, visited: set<Oid>, x: Oid)
    requires TrueGenerations(g) && forall y :: y in w.state ==> Known(g, y)
    requires Tracked(g, w, visited, {x}) && HavesPassedOn(g, w, visited)
    requires forall h :: h in haves ==> h in w.state && w.state[h] == Have
    requires forall e :: e in w.frontier ==> e.generation <= Gen(g, x)
    requires w.state[x] == Want
    ensures !Reachable(ParentEdges(g), haves, x)
  {
    var level := Gen(g, x);
    var s := iset y: Oid | !Known(g, y) || Gen(g, y) < level || (y in w.state && w.state[y] == Have);
    forall y, p | y in s && y in ParentEdges(g) && p in ParentEdges(g)[y]
      ensures p in s
    {
      if y in w.state && y !in visited && y != x {
        assert QueueEntry(Gen(g, y), y) in w.frontier;
      }
    }
    ReachClosed(ParentEdges(g), haves, s);
  }

  /** The top of the queue is below everything visited, and strictly so when it is new. */
  lemma TopBelowVisited(g: Graph, haves: set<Oid>, w: Marks, visited: set<Oid>, sent: seq<Oid>, e: QueueEntry)
    requires (forall x :: x in w.state ==> Known(g, x)) && forall x :: x in visited ==> x in w.state
    requires Sweeping(g, haves, w, visited, sent) && e in w.frontier && e.oid !in visited
    ensures forall x :: x in visited ==> Above(QueueEntry(Gen(g, x), x), e)
  {
  }

  /** What the popped commit's visit finds: its parents are known, below it, and not visited yet. */
  ghost predicate ParentsBelow(g: Graph, visited: set<Oid>, x: Oid)
    requires Known(g, x)
  {
    forall p :: p in Parents(g, x) ==> Known(g, p) && Gen(g, p) < Gen(g, x) && p !in visited
  }

  lemma TopParentsBelow(g: Graph, haves: set<Oid>, w: Marks, visited: set<Oid>, sent: seq<Oid>, e: QueueEntry)
    requires TrueGenerations(g) && (forall x :: x in w.state ==> Known(g, x))
    requires forall x :: x in visited ==> x in w.state
    requires Sweeping(g, haves, w, visited, sent) && e in w.frontier && e.oid !in visited
    requires e.oid in w.state && e.generation == Gen(g, e.oid) && forall p :: p in Parents(g, e.oid) ==> Known(g, p)
    ensures ParentsBelow(g, visited, e.oid)
  {
    hide Reachable, StrictlyDecreasing;
    TopBelowVisited(g, haves, w, visited, sent, e);
  }

  /** After the visit nothing queued is above anything visited. */
  lemma VisitQueue(g: Graph, w: Marks, visited: set<Oid>, e: QueueEntry, w': Marks)
    requires (forall x :: x in w.state ==> Known(g, x)) && forall x :: x in visited ==> x in w.state
    requires IsTop(e, w.frontier) && e.oid in w.state && e.generation == Gen(g, e.oid)
    requires ParentsBelow(g, visited, e.oid)
    requires forall x :: x in visited ==> Above(QueueEntry(Gen(g, x), x), e)
    requires w' == Visited(g, w.(frontier := w.frontier - multiset{e}), e.oid)
    ensures forall x, f :: x in visited + {e.oid} && f in w'.frontier ==> !Above(f, QueueEntry(Gen(g, x), x))
  {
    hide Visited;
    var x, w0 := e.oid, w.(frontier := w.frontier - multiset{e});
    assert forall f :: f in w0.frontier ==> f in w.frontier;
    VisitedEffect(g, w0, x, w');
    forall y, f | y in visited + {x} && f in w'.frontier
      ensures !Above(f, QueueEntry(Gen(g, y), y))
    {
      assert f !in w.frontier ==> Above(e, f);
    }
  }

  /** The visit leaves visited marks alone and passes the popped commit's own mark on. */
  lemma VisitMarks(g: Graph, w: Marks, visited: set<Oid>, x: Oid, w': Marks)
    requires (forall y :: y in w.state ==> Known(g, y)) && forall y :: y in visited ==> y in w.state
    requires HavesPassedOn(g, w, visited) && x in w.state && ParentsBelow(g, visited, x) && w' == Visited(g, w, x)
    ensures (forall y :: y in w'.state ==> Known(g, y)) && forall y :: y in visited + {x} ==> y in w'.state
    ensures HavesPassedOn(g, w', visited + {x})
  {
    hide Visited;
    VisitedEffect(g, w, x, w');
    forall y, p | y in visited + {x} && w'.state[y] == Have && p in Parents(g, y)
      ensures p in w'.state && w'.state[p] == Have
    {
      assert w'.state[y] == w.state[y];
    }
  }

  /** The sent list stays exact and in order. */
  lemma VisitSends(g: Graph, wants: set<Oid>, haves: set<Oid>, w: Marks, visited: set<Oid>, sent: seq<Oid>,
                   e: QueueEntry)
    requires SweepInv(g, wants, haves, w, visited, sent) && TrueGenerations(g)
    requires IsTop(e, w.frontier) && e.oid !in visited && e.oid in w.state && w.state[e.oid] == Want
    requires e.generation == Gen(g, e.oid)
    ensures forall x :: x in sent + [e.oid] ==> !Reachable(ParentEdges(g), haves, x)
    ensures StrictlyDecreasing(g, sent + [e.oid])
  {
    hide Reachable, StrictlyDecreasing, TrueGenerations, Justified, Tracked, Emitted;
    var w0 := w.(frontier := w.frontier - multiset{e});
    WalkFacts(g, wants, haves, w, visited, [], sent);
    PopKeeps(g, wants, haves, w, visited, sent, e);
    assert Elements([e.oid]) == {e.oid};
    SentDecreases(g, wants, haves, w, visited, sent, e);
    assert forall f :: f in w0.frontier ==> f in w.frontier;
    PoppedIsNew(g, haves, w0, visited, e.oid);
  }

  lemma SentDecreases(g: Graph, wants: set<Oid>, haves: set<Oid>, w: Marks, visited: set<Oid>, sent: seq<Oid>,
                      e: QueueEntry)
    requires CoreInv(g, wants, haves, w, visited, [], sent) && Sweeping(g, haves, w, visited, sent)
    requires e in w.frontier && e.oid !in visited && e.generation == Gen(g, e.oid)
    ensures StrictlyDecreasing(g, sent + [e.oid])
  {
    hide Reachable;
    TopBelowVisited(g, haves, w, visited, sent, e);
    forall i, j | 0 <= i < j < |sent + [e.oid]|
      ensures Precedes(g, (sent + [e.oid])[i], (sent + [e.oid])[j])
    {
      assert sent[i] in sent && sent[i] in visited;
    }
  }

  lemma VisitKeepsSweep(g: Graph, wants: set<Oid>, haves: set<Oid>, w: Marks, visited: set<Oid>, sent: seq<Oid>,
                        e: QueueEntry, w': Marks)
    requires SweepInv(g, wants, haves, w, visited, sent) && IsTop(e, w.frontier) && e.oid !in visited
    requires e.oid in w.state && Known(g, e.oid) && forall p :: p in Parents(g, e.oid) ==> Known(g, p)
    requires w' == Visited(g, w.(frontier := w.frontier - multiset{e}), e.oid)
    ensures SweepInv(g, wants, haves, w', visited + {e.oid}, if w.state[e.oid] == Want then sent + [e.oid] else sent)
  {
    hide Reachable, Visited, TrueGenerations, CoreInv, StrictlyDecreasing;
    var x, w0 := e.oid, w.(frontier := w.frontier - multiset{e});
    PopKeeps(g, wants, haves, w, visited, sent, e);
    VisitCore(g, wants, haves, w0, visited, [x], sent, w');
    assert [x][1..] == [];
    WalkFacts(g, wants, haves, w, visited, [], sent);
    if TrueGenerations(g) {
      TopParentsBelow(g, haves, w, visited, sent, e);
      TopBelowVisited(g, haves, w, visited, sent, e);
      VisitQueue(g, w, visited, e, w');
      VisitMarks(g, w0, visited, x, w');
      if w.state[x] == Want {
        VisitSends(g, wants, haves, w, visited, sent, e);
      }
    }
  }

  /** Pop the top entry and, unless its commit was visited before, load its parents' records and visit it. */
  method VisitTopEntry(d: Discovery, g: Graph, records0: map<Oid, CommitInfo>, visited0: set<Oid>, sent0: seq<Oid>,
                       ghost wants: set<Oid>, ghost haves: set<Oid>)
    returns (r: Result<map<Oid, CommitInfo>>, visited: set<Oid>, sent: seq<Oid>)
    requires SweepInv(g, wants, haves, d.Value(), visited0, sent0) && d.pending != {}
    requires CacheSound(g, records0) && forall x :: x in d.state ==> x in records0
    modifies d
    ensures r.Err? ==> Unresolved(g, wants + haves, r.error)
    ensures r.Ok? ==> SweepInv(g, wants, haves, d.Value(), visited, sent)
    ensures r.Ok? ==> CacheSound(g, r.value) && forall x :: x in d.state ==> x in r.value
    ensures r.Ok? ==> Shrinks(g, old(d.Value()), d.Value())
  {
    hide Reachable, Visited, TrueGenerations, CoreInv, Sweeping, MarkedAll, Grows, Shrinks;
    visited, sent := visited0, sent0;
    ghost var w := d.Value();
    NeverStalls(g, wants, haves, w, visited, sent);
    KeysBounded(g, wants, haves, w, visited, sent);
    var e := Peek(d.frontier);
    d.frontier := d.frontier - multiset{e};
    ghost var popped := d.Value();
    var x := e.oid;
    if x in visited {
      SkipKeeps(g, wants, haves, w, visited, sent, e);
      GrowsSelf(popped);
      DrainShrinks(g, w, popped, d.Value());
      return Ok(records0), visited, sent;
    }
    PopKeeps(g, wants, haves, w, visited, sent, e);
    r := LoadParents(g, records0, [x], popped, visited, sent, wants, haves);
    if r.Err? {
      return;
    }
    var flag, parents := d.state[x], r.value[x].parents;
    assert x in [x] && parents == Parents(g, x);
    VisitKeepsSweep(g, wants, haves, w, visited, sent, e, Visited(g, popped, x));
    visited := visited + {x};
    if flag == Want {
      sent := sent + [x];
      d.pending := d.pending - {x};
    }
    d.MarkEach(g, r.value, parents, flag);
    VisitIs(g, popped, x, d.Value());
    VisitGrows(g, popped, x, d.Value());
    KeysBounded(g, wants, haves, d.Value(), visited, sent);
    DrainShrinks(g, w, popped, d.Value());
  }

  lemma VisitIs(g: Graph, w: Marks, x: Oid, w': Marks)
    requires x in w.state && Known(g, x) && forall p :: p in Parents(g, x) ==> Known(g, p)
    requires w' == MarkedAll(g, w.(pending := if w.state[x] == Want then w.pending - {x} else w.pending), Parents(g, x),
                             w.state[x])
    ensures w' == Visited(g, w, x)
  {
  }

  /** Drain the frontier entry by entry until no want is pending. */
  method DiscoverByEntry(d: Discovery, g: Graph, records0: map<Oid, CommitInfo>, ghost wants: set<Oid>,
                         ghost haves: set<Oid>, ghost bound: nat)
    returns (r: Result<seq<Oid>>)
    requires WalkInv(g, wants, haves, d.Value(), {}, [], bound, [])
    requires CacheSound(g, records0) && forall x :: x in d.state ==> x in records0
    modifies d
    ensures r.Err? ==> Unresolved(g, wants + haves, r.error)
    ensures r.Ok? ==> Selects(g, wants, haves, r.value)
  {
    hide Reachable, TrueGenerations, CoreInv, Selects, QueuedOnce, Descending, Listed;
    var records, visited, sent := records0, {}, [];
    SweepStarts(g, wants, haves, d.Value(), bound);
    while d.pending != {}
      invariant SweepInv(g, wants, haves, d.Value(), visited, sent)
      invariant CacheSound(g, records) && forall x :: x in d.state ==> x in records
      decreases g.Keys - d.state.Keys, g.Keys - HaveSet(d.Value()), |d.frontier|
    {
      var step;
      step, visited, sent := VisitTopEntry(d, g, records, visited, sent, wants, haves);
      if step.Err? {
        return Err(step.error);
      }
      records := step.value;
    }
    Covered(g, wants, haves, d.Value(), visited, sent);
    SweepFinished(g, wants, haves, d.Value(), visited, sent);
    r := Ok(sent);
  }

  lemma SweepStarts(g: Graph, wants: set<Oid>, haves: set<Oid>, w: Marks, bound: nat)
    requires WalkInv(g, wants, haves, w, {}, [], bound, [])
    ensures SweepInv(g, wants, haves, w, {}, [])
  {
    hide Reachable, QueuedOnce, Descending, Listed;
  }

  lemma SweepFinished(g: Graph, wants: set<Oid>, haves: set<Oid>, w: Marks, visited: set<Oid>, sent: seq<Oid>)
    requires SweepInv(g, wants, haves, w, visited, sent)
    requires forall x :: Reachable(ParentEdges(g), wants, x) ==> x in sent || Reachable(ParentEdges(g), haves, x)
    ensures Selects(g, wants, haves, sent)
  {
    hide Reachable, TrueGenerations;
  }

  /** Every commit below the roots has a usable record. */
  ghost predicate AllKnown(g: Graph, roots: set<Oid>) {
    forall x :: Reachable(ParentEdges(g), roots, x) ==> Known(g, x)
  }

  lemma NotAllKnown(g: Graph, roots: set<Oid>, e: WalkError)
    requires Unresolved(g, roots, e)
    ensures !AllKnown(g, roots)
  {
    hide Reachable;
  }

  /** From the same marks, with true generations, the two walks send the same list; both succeed on a whole graph. */
  method WalksAgree(byLevel: Discovery, byEntry: Discovery, g: Graph, records: map<Oid, CommitInfo>,
                    ghost wants: set<Oid>, ghost haves: set<Oid>, ghost bound: nat)
    returns (levels: Result<seq<Oid>>, entries: Result<seq<Oid>>)
    requires byLevel != byEntry && byLevel.Value() == byEntry.Value()
    requires WalkInv(g, wants, haves, byLevel.Value(), {}, [], bound, [])
    requires CacheSound(g, records) && forall x :: x in byLevel.state ==> x in records
    modifies byLevel, byEntry
    ensures levels.Ok? && entries.Ok? && TrueGenerations(g) ==> levels.value == entries.value
    ensures AllKnown(g, wants + haves) ==> levels.Ok? && entries.Ok?
    ensures levels.Err? ==> Unresolved(g, wants + haves, levels.error)
    ensures entries.Err? ==> Unresolved(g, wants + haves, entries.error)
  {
    hide TrueGenerations, WalkInv, Selects, Unresolved, AllKnown, Explores;
    var bounded;
    ghost var explored;
    levels, bounded, explored := Discover(byLevel, g, records, wants, haves, bound);
    entries := DiscoverByEntry(byEntry, g, records, wants, haves, bound);
    if levels.Err? {
      NotAllKnown(g, wants + haves, levels.error);
    }
    if entries.Err? {
      NotAllKnown(g, wants + haves, entries.error);
    }
    if levels.Ok? && entries.Ok? && TrueGenerations(g) {
      SelectionDetermined(g, wants, haves, levels.value, entries.value);
    }
  }
}
