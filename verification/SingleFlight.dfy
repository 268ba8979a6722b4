/**
 Deduplication of concurrent calls: a locked map from keys to reference-counted
 once-cells, entered when a call starts and cleaned up when its guard is
 dropped. Calls may finish, fail or be cancelled at any wait. Over every run the
 reference counts are exact, a live guard's cell is the mapped one, at most one
 producer runs per key, and calls for one key that overlap get one value.
 */
module SingleFlight {
  type Key = string
  type Value = seq<nat>
  type Caller = nat
  type Cell = nat

  // ---------------------------------------------------------------- the shared map

  /** The map, the number of references to each cell, and the cell to allocate next. */
  datatype Table = Table(inFlight: map<Key, Cell>, counts: map<Cell, nat>, next: Cell)

  function Count(t: Table, cell: Cell): nat {
    if cell in t.counts then t.counts[cell] else 0
  }

  /** What a call does under the lock: share the mapped cell, or insert a fresh one. */
  function Joined(t: Table, key: Key): (Table, Cell) {
    if key in t.inFlight then
      (t.(counts := t.counts[t.inFlight[key] := Count(t, t.inFlight[key]) + 1]), t.inFlight[key])
    else
      (Table(t.inFlight[key := t.next], t.counts[t.next := 2], t.next + 1), t.next)
  }

  /** What a dropped guard does under the lock: give up its reference, then clean up behind the last one. */
  function Released(t: Table, key: Key, cell: Cell): Table
    requires Count(t, cell) > 0
  {
    var t1 := t.(counts := t.counts[cell := Count(t, cell) - 1]);
    if key in t.inFlight && Count(t1, t.inFlight[key]) == 1 then
      t1.(inFlight := t.inFlight - {key}, counts := t1.counts[t.inFlight[key] := 0])
    else t1
  }

  /** The map as the calls update it in place. */
  class Group {
    var inFlight: map<Key, Cell>
    var counts: map<Cell, nat>
    var next: Cell

    function View(): Table
      reads this
    {
      Table(inFlight, counts, next)
    }

    constructor ()
      ensures View() == Table(map[], map[], 0)
    {
      inFlight, counts, next := map[], map[], 0;
    }

    method Join(key: Key) returns (cell: Cell)
      modifies this
      ensures (View(), cell) == Joined(old(View()), key)
    {
      if key in inFlight {
        cell := inFlight[key];
        counts := counts[cell := (if cell in counts then counts[cell] else 0) + 1];
      } else {
        cell := next;
        next := next + 1;
        counts := counts[cell := 1];
        inFlight := inFlight[key := cell];
        counts := counts[cell := counts[cell] + 1];
        assert counts == old(counts)[cell := 2];
      }
    }

    method Release(key: Key, cell: Cell)
      requires Count(View(), cell) > 0
      modifies this
      ensures View() == Released(old(View()), key, cell)
    {
      counts := counts[cell := counts[cell] - 1];
      if key in inFlight {
        var mapped := inFlight[key];
        if mapped in counts && counts[mapped] == 1 {
          inFlight := inFlight - {key};
          counts := counts[mapped := 0];
        }
      }
    }
  }

  // ---------------------------------------------------------------- calls, step by step

  datatype Phase = Waiting | Running | Returned

  datatype Guard = Guard(key: Key, cell: Cell, phase: Phase)

  /**
   Live guards, the callers holding a cell's one permit, and the values of
   initialised cells; `joined` and `results` record for good which cell each
   call joined and what each successful call returned.
   */
  datatype State = State(
    table: Table,
    guards: map<Caller, Guard>,
    permits: map<Cell, Caller>,
    values: map<Cell, Value>,
    joined: map<Caller, (Key, Cell)>,
    results: map<Caller, Value>)

  datatype Action =
    | Enter(key: Key)        // take or create the cell
    | Start                  // win the permit of an uninitialised cell and run the producer
    | Finish(value: Value)   // the producer succeeds
    | Stop                   // the producer fails or its caller is cancelled while it runs
    | Observe                // a waiter finds the cell initialised
    | Drop                   // the guard goes away, also when a waiter is cancelled

  ghost predicate Init(s: State) {
    s == State(Table(map[], map[], 0), map[], map[], map[], map[], map[])
  }

  ghost predicate Live(s: State, c: Caller, phase: Phase) {
    c in s.guards && s.guards[c].phase == phase
  }

  ghost predicate Next(s: State, c: Caller, a: Action, s': State) {
    match a
    case Enter(key) => c !in s.joined && s' == Entered(s, c, key)
    case Start =>
      && Live(s, c, Waiting) && s.guards[c].cell !in s.values && s.guards[c].cell !in s.permits
      && s' == s.(guards := s.guards[c := s.guards[c].(phase := Running)], permits := s.permits[s.guards[c].cell := c])
    case Finish(value) => Live(s, c, Running) && s' == Finished(s, c, value)
    case Stop =>
      && Live(s, c, Running)
      && s' == s.(guards := s.guards[c := s.guards[c].(phase := Returned)], permits := s.permits - {s.guards[c].cell})
    case Observe =>
      && Live(s, c, Waiting) && s.guards[c].cell in s.values
      && s' == s.(guards := s.guards[c := s.guards[c].(phase := Returned)],
                  results := s.results[c := s.values[s.guards[c].cell]])
    case Drop =>
      && c in s.guards && s.guards[c].phase != Running && Count(s.table, s.guards[c].cell) > 0
      && s' == s.(table := Released(s.table, s.guards[c].key, s.guards[c].cell), guards := s.guards - {c})
  }

  ghost function Entered(s: State, c: Caller, key: Key): State {
    var (table, cell) := Joined(s.table, key);
    s.(table := table, guards := s.guards[c := Guard(key, cell, Waiting)], joined := s.joined[c := (key, cell)])
  }

  ghost function Finished(s: State, c: Caller, value: Value): State
    requires c in s.guards
  {
    var g := s.guards[c];
    s.(guards := s.guards[c := g.(phase := Returned)],
       permits := s.permits - {g.cell},
       values := s.values[g.cell := value],
       results := s.results[c := value])
  }

  // ---------------------------------------------------------------- the invariant

  type Guards = map<Caller, Guard>

  ghost function Holders(guards: Guards, cell: Cell): set<Caller> {
    set c | c in guards && guards[c].cell == cell
  }

  /** A live guard's cell is the one mapped for its key. */
  ghost predicate GuardsMapped(t: Table, guards: Guards) {
    forall c :: c in guards ==> Mapped(t, guards[c].key, guards[c].cell)
  }

  ghost predicate Mapped(t: Table, key: Key, cell: Cell) {
    key in t.inFlight && t.inFlight[key] == cell
  }

  /** Keys have cells of their own, allocated before. */
  ghost predicate CellsApart(t: Table) {
    && (forall k :: k in t.inFlight ==> t.inFlight[k] < t.next)
    && (forall j, k :: j in t.inFlight && k in t.inFlight && t.inFlight[j] == t.inFlight[k] ==> j == k)
  }

  /** A mapped cell is held by at least one guard, and referred to by the map and by its guards. */
  ghost predicate CountsExact(t: Table, guards: Guards) {
    forall k :: k in t.inFlight ==> CountExact(t, guards, t.inFlight[k])
  }

  ghost predicate CountExact(t: Table, guards: Guards, cell: Cell) {
    Holders(guards, cell) != {} && Count(t, cell) == |Holders(guards, cell)| + 1
  }

  ghost predicate TableOk(t: Table, guards: Guards) {
    GuardsMapped(t, guards) && CellsApart(t) && CountsExact(t, guards)
  }

  /** A cell's permit is held exactly by its running producer, and not once it is initialised. */
  ghost predicate PermitsOk(s: State) {
    && (forall c :: c in s.guards ==> HasPermit(s, c))
    && (forall x :: x in s.permits ==> x !in s.values && IsProducer(s, x, s.permits[x]))
  }

  ghost predicate HasPermit(s: State, c: Caller)
    requires c in s.guards
  {
    s.guards[c].phase == Running ==> s.guards[c].cell in s.permits && s.permits[s.guards[c].cell] == c
  }

  ghost predicate IsProducer(s: State, x: Cell, c: Caller) {
    Live(s, c, Running) && s.guards[c].cell == x
  }

  /** Every call's record agrees with its guard, and cells joined have one key. */
  ghost predicate JoinedOk(s: State) {
    && (forall c :: c in s.guards ==> c in s.joined && s.joined[c] == (s.guards[c].key, s.guards[c].cell))
    && (forall c :: c in s.joined ==> s.joined[c].1 < s.table.next)
    && (forall c, d :: c in s.joined && d in s.joined ==> OneKey(s.joined[c], s.joined[d]))
  }

  ghost predicate OneKey(x: (Key, Cell), y: (Key, Cell)) {
    x.1 == y.1 ==> x.0 == y.0
  }

  /** Every successful call returned its cell's value. */
  ghost predicate ResultsOk(s: State) {
    && (forall c :: c in s.results ==> ResultOk(s, c))
    && (forall x :: x in s.values ==> x < s.table.next)
  }

  ghost predicate ResultOk(s: State, c: Caller)
    requires c in s.results
  {
    c in s.joined && s.joined[c].1 in s.values && s.results[c] == s.values[s.joined[c].1]
  }

  ghost predicate Inv(s: State) {
    TableOk(s.table, s.guards) && PermitsOk(s) && JoinedOk(s) && ResultsOk(s)
  }

  /** Records of the past are never changed. */
  ghost predicate Grows(s: State, s': State) {
    && (forall c :: c in s.joined ==> c in s'.joined && s'.joined[c] == s.joined[c])
    && (forall c :: c in s.results ==> c in s'.results && s'.results[c] == s.results[c])
    && (forall x :: x in s.values ==> x in s'.values && s'.values[x] == s.values[x])
  }

  // ---------------------------------------------------------------- each step

  lemma Apart(t: Table, j: Key, k: Key)
    requires CellsApart(t) && j in t.inFlight && k in t.inFlight && j != k
    ensures t.inFlight[j] != t.inFlight[k] && t.inFlight[j] < t.next
  {
  }

  /** Entering keeps the table exact: the fresh cell has two references, a shared one gains one. */
  lemma JoinKeeps(t: Table, guards: Guards, c: Caller, key: Key)
    requires TableOk(t, guards) && c !in guards
    ensures var (t', cell) := Joined(t, key); TableOk(t', guards[c := Guard(key, cell, Waiting)])
  {
    hide CellsApart, GuardsMapped, CountExact;
    JoinApart(t, key);
    JoinMapped(t, guards, c, key);
    var (t', cell) := Joined(t, key);
    forall k | k in t'.inFlight
      ensures CountExact(t', guards[c := Guard(key, cell, Waiting)], t'.inFlight[k])
    {
      JoinCount(t, guards, c, key, k);
    }
  }

  lemma JoinApart(t: Table, key: Key)
    requires CellsApart(t)
    ensures CellsApart(Joined(t, key).0)
  {
  }

  lemma JoinMapped(t: Table, guards: Guards, c: Caller, key: Key)
    requires GuardsMapped(t, guards)
    ensures var (t', cell) := Joined(t, key); GuardsMapped(t', guards[c := Guard(key, cell, Waiting)])
  {
    var (t', cell) := Joined(t, key);
    forall d | d in guards
      ensures Mapped(t', guards[d].key, guards[d].cell)
    {
      assert Mapped(t, guards[d].key, guards[d].cell);
    }
  }

  lemma JoinCount(t: Table, guards: Guards, c: Caller, key: Key, k: Key)
    requires TableOk(t, guards) && c !in guards && k in Joined(t, key).0.inFlight
    ensures var (t', cell) := Joined(t, key); CountExact(t', guards[c := Guard(key, cell, Waiting)], t'.inFlight[k])
  {
    hide CellsApart, GuardsMapped;
    var (t', cell) := Joined(t, key);
    var x := t'.inFlight[k];
    assert k in t.inFlight ==> CountExact(t, guards, x);
    HoldersJoin(guards, c, Guard(key, cell, Waiting), x);
    if k != key {
      JoinApart(t, key);
      Apart(t', k, key);
    } else if key !in t.inFlight {
      NoHolders(t, guards, x);
    }
  }

  lemma HoldersJoin(guards: Guards, c: Caller, g: Guard, x: Cell)
    requires c !in guards
    ensures Holders(guards[c := g], x) == if x == g.cell then Holders(guards, x) + {c} else Holders(guards, x)
    ensures c !in Holders(guards, x)
  {
  }

  lemma NoHolders(t: Table, guards: Guards, x: Cell)
    requires TableOk(t, guards) && t.next <= x
    ensures Holders(guards, x) == {}
  {
    forall d | d in guards
      ensures guards[d].cell != x
    {
      assert Mapped(t, guards[d].key, guards[d].cell);
    }
  }

  /** Dropping a guard removes its key exactly when no other guard holds the cell, and keeps the table exact. */
  lemma ReleaseKeeps(t: Table, guards: Guards, c: Caller)
    requires TableOk(t, guards) && c in guards
    ensures Count(t, guards[c].cell) >= 2
    ensures var t' := Released(t, guards[c].key, guards[c].cell);
            && t'.inFlight == (if Holders(guards, guards[c].cell) == {c} then t.inFlight - {guards[c].key}
                               else t.inFlight)
            && TableOk(t', guards - {c})
  {
    hide CellsApart, GuardsMapped, CountExact;
    var Guard(key, cell, _) := guards[c];
    OthersHold(t, guards, c);
    ReleaseApart(t, key, cell);
    ReleaseMapped(t, guards, c);
    var t' := Released(t, key, cell);
    forall k | k in t'.inFlight
      ensures CountExact(t', guards - {c}, t'.inFlight[k])
    {
      ReleaseCount(t, guards, c, k);
    }
  }

  lemma ReleaseApart(t: Table, key: Key, cell: Cell)
    requires CellsApart(t) && Count(t, cell) > 0
    ensures CellsApart(Released(t, key, cell))
  {
  }

  lemma ReleaseMapped(t: Table, guards: Guards, c: Caller)
    requires TableOk(t, guards) && c in guards && Count(t, guards[c].cell) > 0
    ensures GuardsMapped(Released(t, guards[c].key, guards[c].cell), guards - {c})
  {
    hide CellsApart;
    var Guard(key, cell, _) := guards[c];
    OthersHold(t, guards, c);
    forall d | d in guards - {c}
      ensures Mapped(Released(t, key, cell), guards[d].key, guards[d].cell)
    {
      assert Mapped(t, guards[d].key, guards[d].cell);
      assert guards[d].key == key ==> d in Holders(guards, cell);
    }
  }

  lemma ReleaseCount(t: Table, guards: Guards, c: Caller, k: Key)
    requires TableOk(t, guards) && c in guards && Count(t, guards[c].cell) > 0
    requires k in Released(t, guards[c].key, guards[c].cell).inFlight
    ensures CountExact(Released(t, guards[c].key, guards[c].cell), guards - {c}, t.inFlight[k])
  {
    hide CellsApart, GuardsMapped;
    var Guard(key, cell, _) := guards[c];
    OthersHold(t, guards, c);
    assert CountExact(t, guards, t.inFlight[k]);
    if k == key {
      assert Holders(guards - {c}, cell) == Holders(guards, cell) - {c};
    } else {
      Apart(t, k, key);
      assert Holders(guards - {c}, t.inFlight[k]) == Holders(guards, t.inFlight[k]);
    }
  }

  /** The count without the guard's own reference is one exactly when it holds the cell alone. */
  lemma OthersHold(t: Table, guards: Guards, c: Caller)
    requires TableOk(t, guards) && c in guards
    ensures Mapped(t, guards[c].key, guards[c].cell)
    ensures c in Holders(guards, guards[c].cell)
    ensures Count(t, guards[c].cell) == |Holders(guards, guards[c].cell)| + 1 >= 2
    ensures Count(t, guards[c].cell) == 2 <==> Holders(guards, guards[c].cell) == {c}
  {
    var Guard(key, cell, _) := guards[c];
    assert Mapped(t, key, cell);
    assert CountExact(t, guards, cell);
    var holders := Holders(guards, cell);
    assert c in holders;
    assert |holders| == |holders - {c}| + 1;
    assert holders - {c} == {} ==> holders == {c};
  }

  /** Moving a live call along changes neither who holds a cell nor who joined it. */
  lemma PhaseKeeps(t: Table, guards: Guards, c: Caller, phase: Phase)
    requires TableOk(t, guards) && c in guards
    ensures TableOk(t, guards[c := guards[c].(phase := phase)])
  {
    var guards' := guards[c := guards[c].(phase := phase)];
    forall k | k in t.inFlight
      ensures CountExact(t, guards', t.inFlight[k])
    {
      assert CountExact(t, guards, t.inFlight[k]);
      assert Holders(guards', t.inFlight[k]) == Holders(guards, t.inFlight[k]);
    }
    forall d | d in guards'
      ensures Mapped(t, guards'[d].key, guards'[d].cell)
    {
      assert Mapped(t, guards[d].key, guards[d].cell);
    }
  }

  ghost predicate Moves(a: Action) {
    !a.Enter? && !a.Drop?
  }

  lemma MoveShape(s: State, c: Caller, a: Action, s': State)
    requires Next(s, c, a, s') && Moves(a)
    ensures s'.table == s.table && s'.joined == s.joined
    ensures c in s.guards && c in s'.guards && s'.guards == s.guards[c := s.guards[c].(phase := s'.guards[c].phase)]
  {
  }

  lemma MovesPermits(s: State, c: Caller, a: Action, s': State)
    requires PermitsOk(s) && Next(s, c, a, s') && Moves(a)
    ensures PermitsOk(s')
  {
    forall d | d in s'.guards
      ensures HasPermit(s', d)
    {
      assert HasPermit(s, d);
      assert HasPermit(s, c);
    }
    forall x | x in s'.permits
      ensures x !in s'.values && IsProducer(s', x, s'.permits[x])
    {
      assert x in s.permits ==> IsProducer(s, x, s.permits[x]);
    }
  }

  lemma MovesJoined(s: State, c: Caller, a: Action, s': State)
    requires JoinedOk(s) && Next(s, c, a, s') && Moves(a)
    ensures JoinedOk(s')
  {
    MoveShape(s, c, a, s');
    hide Next;
  }

  /** A result is only ever recorded next to its cell's value, and a value is only ever given to a cell without one. */
  lemma MovesResults(s: State, c: Caller, a: Action, s': State)
    requires Inv(s) && Next(s, c, a, s') && Moves(a)
    ensures ResultsOk(s') && Grows(s, s')
  {
    hide TableOk, PermitsOk, JoinedOk, ResultsOk, Grows;
    RecordedCell(s, c, a, s');
    if a.Finish? {
      ProducerFinishes(s, c, a.value);
    } else if a.Observe? {
      WaiterObserves(s, c, s');
    } else {
      NothingRecorded(s, s');
    }
  }

  lemma RecordedCell(s: State, c: Caller, a: Action, s': State)
    requires Inv(s) && Next(s, c, a, s') && Moves(a)
    ensures c in s.guards && c in s.joined && s.joined[c].1 == s.guards[c].cell < s.table.next
    ensures s.guards[c].phase == Running ==> s.guards[c].cell !in s.values
  {
    hide TableOk, ResultsOk;
    assert HasPermit(s, c);
  }

  lemma NothingRecorded(s: State, s': State)
    requires ResultsOk(s) && (s'.table, s'.joined, s'.values, s'.results) == (s.table, s.joined, s.values, s.results)
    ensures ResultsOk(s') && Grows(s, s')
  {
    forall d | d in s'.results
      ensures ResultOk(s', d)
    {
      assert ResultOk(s, d);
    }
  }

  lemma ProducerFinishes(s: State, c: Caller, value: Value)
    requires ResultsOk(s) && c in s.guards && c in s.joined && s.joined[c].1 == s.guards[c].cell < s.table.next
    requires s.guards[c].cell !in s.values
    ensures ResultsOk(Finished(s, c, value)) && Grows(s, Finished(s, c, value))
  {
    var s' := Finished(s, c, value);
    assert c in s.results ==> ResultOk(s, c);
    forall d | d in s'.results
      ensures ResultOk(s', d)
    {
      assert d in s.results ==> ResultOk(s, d);
    }
  }

  lemma WaiterObserves(s: State, c: Caller, s': State)
    requires ResultsOk(s) && c in s.guards && c in s.joined && s.joined[c].1 == s.guards[c].cell
    requires s.guards[c].cell in s.values
    requires (s'.table, s'.joined, s'.values) == (s.table, s.joined, s.values)
    requires s'.results == s.results[c := s.values[s.guards[c].cell]]
    ensures ResultsOk(s') && Grows(s, s')
  {
    assert c in s.results ==> ResultOk(s, c);
    forall d | d in s'.results
      ensures ResultOk(s', d)
    {
      assert d in s.results ==> ResultOk(s, d);
    }
  }

  lemma EnterResults(s: State, c: Caller, key: Key)
    requires ResultsOk(s) && c !in s.joined
    ensures ResultsOk(Entered(s, c, key)) && Grows(s, Entered(s, c, key))
  {
    var s' := Entered(s, c, key);
    forall d | d in s'.results
      ensures ResultOk(s', d)
    {
      assert ResultOk(s, d);
    }
  }

  lemma EnterJoined(s: State, c: Caller, key: Key)
    requires TableOk(s.table, s.guards) && JoinedOk(s) && c !in s.joined
    ensures JoinedOk(Entered(s, c, key))
  {
    hide TableOk;
    if key in s.table.inFlight {
      JoinedKey(s, key);
    }
    var s' := Entered(s, c, key);
    var cell := Joined(s.table, key).1;
    forall d | d in s.joined
      ensures OneKey((key, cell), s.joined[d]) && OneKey(s.joined[d], (key, cell))
    {
      assert s.joined[d].1 < s.table.next;
    }
  }

  /** The calls that joined a mapped cell joined it under its key. */
  lemma JoinedKey(s: State, key: Key)
    requires TableOk(s.table, s.guards) && JoinedOk(s) && key in s.table.inFlight
    ensures s.table.inFlight[key] < s.table.next
    ensures forall d :: d in s.joined && s.joined[d].1 == s.table.inFlight[key] ==> s.joined[d].0 == key
  {
    var cell := s.table.inFlight[key];
    assert CountExact(s.table, s.guards, cell);
    var d :| d in Holders(s.guards, cell);
    assert Mapped(s.table, s.guards[d].key, cell);
    assert s.joined[d] == (key, cell);
  }

  lemma EnterPermits(s: State, c: Caller, key: Key)
    requires PermitsOk(s) && c !in s.guards
    ensures PermitsOk(Entered(s, c, key))
  {
    var s' := Entered(s, c, key);
    forall d | d in s'.guards
      ensures HasPermit(s', d)
    {
      assert d != c ==> HasPermit(s, d);
    }
    forall x | x in s'.permits
      ensures IsProducer(s', x, s'.permits[x])
    {
      assert IsProducer(s, x, s.permits[x]);
    }
  }

  lemma DropPermits(s: State, c: Caller, s': State)
    requires PermitsOk(s) && Next(s, c, Drop, s')
    ensures PermitsOk(s')
  {
    forall d | d in s'.guards
      ensures HasPermit(s', d)
    {
      assert HasPermit(s, d);
    }
    forall x | x in s'.permits
      ensures IsProducer(s', x, s'.permits[x])
    {
      assert IsProducer(s, x, s.permits[x]);
    }
  }

  lemma DropHistory(s: State, c: Caller, s': State)
    requires JoinedOk(s) && ResultsOk(s) && Next(s, c, Drop, s')
    ensures JoinedOk(s') && ResultsOk(s') && Grows(s, s')
  {
  }

  lemma NextKeeps(s: State, c: Caller, a: Action, s': State)
    requires Inv(s) && Next(s, c, a, s')
    ensures Inv(s') && Grows(s, s')
  {
    hide TableOk, PermitsOk, ResultsOk, Grows;
    if a.Enter? {
      JoinKeeps(s.table, s.guards, c, a.key);
      EnterPermits(s, c, a.key);
      EnterJoined(s, c, a.key);
      EnterResults(s, c, a.key);
    } else if a.Drop? {
      ReleaseKeeps(s.table, s.guards, c);
      DropPermits(s, c, s');
      DropHistory(s, c, s');
    } else {
      MoveShape(s, c, a, s');
      PhaseKeeps(s.table, s.guards, c, s'.guards[c].phase);
      MovesPermits(s, c, a, s');
      MovesJoined(s, c, a, s');
      MovesResults(s, c, a, s');
    }
  }

  // ---------------------------------------------------------------- every run

  ghost predicate Steps(s: State, s': State) {
    exists c, a :: Next(s, c, a, s')
  }

  ghost predicate IsRun(run: seq<State>) {
    && |run| > 0 && Init(run[0])
    && forall i :: 0 <= i < |run| - 1 ==> Steps(run[i], run[i + 1])
  }

  lemma InitInv(s: State)
    requires Init(s)
    ensures Inv(s)
  {
  }

  lemma {:induction false} RunKeeps(run: seq<State>, k: nat)
    requires IsRun(run) && k < |run|
    ensures Inv(run[k])
  {
    hide Next, Inv, Init;
    if k == 0 {
      InitInv(run[0]);
    } else {
      RunKeeps(run, k - 1);
      assert Steps(run[k - 1], run[k - 1 + 1]);
      var c, a :| Next(run[k - 1], c, a, run[k]);
      NextKeeps(run[k - 1], c, a, run[k]);
    }
  }

  lemma {:induction false} RunGrows(run: seq<State>, j: nat, k: nat)
    requires IsRun(run) && j <= k < |run|
    ensures Grows(run[j], run[k])
    decreases k - j
  {
    hide Next, Inv, Init;
    if j < k {
      RunGrows(run, j, k - 1);
      RunKeeps(run, k - 1);
      assert Steps(run[k - 1], run[k - 1 + 1]);
      var c, a :| Next(run[k - 1], c, a, run[k]);
      NextKeeps(run[k - 1], c, a, run[k]);
    }
  }

  /**
   At every moment a key is mapped exactly while a guard for it lives, and at most one of its guards
   runs a producer.
   */
  lemma OneProducerPerKey(run: seq<State>, k: nat, key: Key)
    requires IsRun(run) && k < |run|
    ensures key in run[k].table.inFlight <==> exists c :: c in run[k].guards && run[k].guards[c].key == key
    ensures forall c, d :: (Live(run[k], c, Running) && Live(run[k], d, Running)
                            && run[k].guards[c].key == key && run[k].guards[d].key == key) ==> c == d
  {
    hide IsRun;
    RunKeeps(run, k);
    var s := run[k];
    if key in s.table.inFlight {
      assert CountExact(s.table, s.guards, s.table.inFlight[key]);
      var c :| c in Holders(s.guards, s.table.inFlight[key]);
      assert Mapped(s.table, s.guards[c].key, s.guards[c].cell);
      assert s.guards[c].key == key;
    }
  }

  /** Two calls for one key that were ever live together return, whenever they succeed, one value. */
  lemma OverlappingCallsAgree(run: seq<State>, i: nat, j: nat, k: nat, c: Caller, d: Caller)
    requires IsRun(run) && i < |run| && j < |run| && k < |run|
    requires c in run[i].guards && d in run[i].guards && run[i].guards[c].key == run[i].guards[d].key
    requires c in run[j].results && d in run[k].results
    ensures run[j].results[c] == run[k].results[d]
  {
    hide IsRun, Next;
    var last := |run| - 1;
    RunKeeps(run, i);
    RunKeeps(run, last);
    RunGrows(run, i, last);
    RunGrows(run, j, last);
    RunGrows(run, k, last);
  }

  /** A call that finds no other live call for its key starts afresh: no value and no permit is left over. */
  lemma LonelyCallStartsAfresh(run: seq<State>, k: nat, c: Caller, key: Key)
    requires IsRun(run) && k < |run| && c !in run[k].joined
    requires forall d :: d in run[k].guards ==> run[k].guards[d].key != key
    ensures var s' := Entered(run[k], c, key);
      && Next(run[k], c, Enter(key), s')
      && s'.guards[c].cell !in s'.values && s'.guards[c].cell !in s'.permits
    ensures forall d :: d in run[k].joined ==> run[k].joined[d].1 != Entered(run[k], c, key).guards[c].cell
  {
    OneProducerPerKey(run, k, key);
    RunKeeps(run, k);
  }

  /** No waiter is stuck: it can read the value, win the permit, or wait for a producer that is running. */
  lemma WaitersProgress(run: seq<State>, k: nat, c: Caller)
    requires IsRun(run) && k < |run| && Live(run[k], c, Waiting)
    ensures || (exists s' :: Next(run[k], c, Observe, s'))
            || (exists s' :: Next(run[k], c, Start, s'))
            || (exists d :: Live(run[k], d, Running) && run[k].guards[d].cell == run[k].guards[c].cell)
  {
    hide IsRun, TableOk, JoinedOk, ResultsOk;
    RunKeeps(run, k);
    var s, cell := run[k], run[k].guards[c].cell;
    if cell in s.values {
      ObserveEnabled(s, c);
    } else if cell in s.permits {
      assert IsProducer(s, cell, s.permits[cell]);
    } else {
      StartEnabled(s, c);
    }
  }

  lemma ObserveEnabled(s: State, c: Caller)
    requires Live(s, c, Waiting) && s.guards[c].cell in s.values
    ensures exists s' :: Next(s, c, Observe, s')
  {
    assert Next(s, c, Observe, s.(guards := s.guards[c := s.guards[c].(phase := Returned)],
                                  results := s.results[c := s.values[s.guards[c].cell]]));
  }

  lemma StartEnabled(s: State, c: Caller)
    requires Live(s, c, Waiting) && s.guards[c].cell !in s.values && s.guards[c].cell !in s.permits
    ensures exists s' :: Next(s, c, Start, s')
  {
    assert Next(s, c, Start, s.(guards := s.guards[c := s.guards[c].(phase := Running)],
                                permits := s.permits[s.guards[c].cell := c]));
  }

  /** A guard can always be dropped: its reference is one of those counted. */
  lemma GuardsCanDrop(run: seq<State>, k: nat, c: Caller)
    requires IsRun(run) && k < |run| && c in run[k].guards && run[k].guards[c].phase != Running
    ensures Count(run[k].table, run[k].guards[c].cell) >= 2
    ensures exists s' :: Next(run[k], c, Drop, s')
  {
    hide IsRun, TableOk, PermitsOk, JoinedOk, ResultsOk;
    RunKeeps(run, k);
    var s := run[k];
    OthersHold(s.table, s.guards, c);
    assert Next(s, c, Drop, s.(table := Released(s.table, s.guards[c].key, s.guards[c].cell),
                               guards := s.guards - {c}));
  }
}
