/**
 Ref updates as optimistic transactions. A call reads its commands' refs from a
 snapshot taken at `begin`, buffers its writes, and commits only if nothing it
 read has changed; a conflict is retried once. Over every interleaving the calls
 behave as if each had applied its commands atomically at one version in its span.
 */
module RefTransactions {
  import opened Options
  import opened Reachability

  datatype RefTarget = Direct(oid: Oid) | Symbolic(name: string)

  type Refs = map<string, RefTarget>

  datatype RefUpdate = RefUpdate(name: string, expectedOld: Option<Oid>, updated: Option<Oid>)

  datatype Reason = NonFastForward | SymbolicRef | Conflict

  datatype Outcome = Updated | Rejected(reason: Reason)

  const UPDATE_REFS_ATTEMPTS := 2

  /** One command on the refs, as git's non-atomic default has it: a mismatch rejects only this command. */
  function ApplyOne(refs: Refs, u: RefUpdate): (Refs, Outcome) {
    if u.name in refs && refs[u.name].Symbolic? then (refs, Rejected(SymbolicRef))
    else
      var current := if u.name in refs then Some(refs[u.name].oid) else None;
      if current != u.expectedOld then (refs, Rejected(NonFastForward))
      else if u.updated.Some? then (refs[u.name := Direct(u.updated.value)], Updated)
      else (refs - {u.name}, Updated)
  }

  /** The specification: the commands one by one, repeated names included. */
  function ApplyAll(refs: Refs, us: seq<RefUpdate>): (Refs, seq<Outcome>) {
    if us == [] then (refs, [])
    else
      var (before, outcomes) := ApplyAll(refs, us[..|us| - 1]);
      var (after, outcome) := ApplyOne(before, us[|us| - 1]);
      (after, outcomes + [outcome])
  }

  // ------------------------------------------------- what a command promises

  /** The ref is where the client believes it to be: absent, or a direct ref to exactly the old id. */
  ghost predicate AsExpected(refs: Refs, u: RefUpdate) {
    match u.expectedOld
    case None => u.name !in refs
    case Some(oid) => u.name in refs && refs[u.name] == Direct(oid)
  }

  ghost predicate SameAt(before: Refs, after: Refs, n: string) {
    (n in after <==> n in before) && (n in after ==> after[n] == before[n])
  }

  /** One command's promise: it takes effect if and only if its ref is as expected, and touches no other ref. */
  ghost predicate Obeys(before: Refs, u: RefUpdate, outcome: Outcome, after: Refs) {
    && (outcome == Updated <==> AsExpected(before, u))
    && (outcome == Rejected(SymbolicRef) <==> u.name in before && before[u.name].Symbolic?)
    && (outcome == Rejected(NonFastForward) <==>
        !AsExpected(before, u) && !(u.name in before && before[u.name].Symbolic?))
    && (outcome == Updated && u.updated.Some? ==> u.name in after && after[u.name] == Direct(u.updated.value))
    && (outcome == Updated && u.updated.None? ==> u.name !in after)
    && (outcome != Updated ==> after == before)
    && forall n :: n != u.name ==> SameAt(before, after, n)
  }

  /** Each command obeys that promise from the refs the commands before it left. */
  ghost predicate EachObeys(states: seq<Refs>, us: seq<RefUpdate>, outcomes: seq<Outcome>) {
    && |states| == |us| + 1 && |outcomes| == |us|
    && forall i :: 0 <= i < |us| ==> Obeys(states[i], us[i], outcomes[i], states[i + 1])
  }

  /** The commands, one by one in order, lead from `before` to `after` with these outcomes. */
  ghost predicate Executes(before: Refs, us: seq<RefUpdate>, outcomes: seq<Outcome>, after: Refs) {
    exists states :: EachObeys(states, us, outcomes) && states[0] == before && states[|us|] == after
  }

  ghost predicate LeadTo(before: Refs, us: seq<RefUpdate>, after: Refs) {
    exists outcomes :: Executes(before, us, outcomes, after)
  }

  lemma ApplyOneObeys(refs: Refs, u: RefUpdate)
    ensures Obeys(refs, u, ApplyOne(refs, u).1, ApplyOne(refs, u).0)
  {
  }

  lemma ExecutesNothing(refs: Refs)
    ensures Executes(refs, [], [], refs)
  {
    assert EachObeys([refs], [], []);
  }

  lemma ExecutesNext(before: Refs, us: seq<RefUpdate>, outcomes: seq<Outcome>, mid: Refs, u: RefUpdate,
                     outcome: Outcome, after: Refs)
    requires Executes(before, us, outcomes, mid) && Obeys(mid, u, outcome, after)
    ensures Executes(before, us + [u], outcomes + [outcome], after)
  {
    hide Obeys;
    var states :| EachObeys(states, us, outcomes) && states[0] == before && states[|us|] == mid;
    assert EachObeys(states + [after], us + [u], outcomes + [outcome]);
  }

  /** The specification function meets the promise. */
  lemma {:induction false} ApplyAllExecutes(refs: Refs, us: seq<RefUpdate>)
    ensures Executes(refs, us, ApplyAll(refs, us).1, ApplyAll(refs, us).0)
    decreases |us|
  {
    hide ApplyOne, Obeys, Executes;
    if us == [] {
      ExecutesNothing(refs);
    } else {
      var rest, u := us[..|us| - 1], us[|us| - 1];
      ApplyAllExecutes(refs, rest);
      var (mid, outcomes) := ApplyAll(refs, rest);
      ApplyOneObeys(mid, u);
      ExecutesNext(refs, rest, outcomes, mid, u, ApplyOne(mid, u).1, ApplyOne(mid, u).0);
      assert us == rest + [u];
    }
  }

  /** The promise leaves no choice: it determines every outcome and the refs. */
  lemma ExecutesUnique(before: Refs, us: seq<RefUpdate>, a: seq<Outcome>, after: Refs, b: seq<Outcome>, after': Refs)
    requires Executes(before, us, a, after) && Executes(before, us, b, after')
    ensures a == b && after == after'
  {
    var s :| EachObeys(s, us, a) && s[0] == before && s[|us|] == after;
    var t :| EachObeys(t, us, b) && t[0] == before && t[|us|] == after';
    for i := 0 to |us|
      invariant s[i] == t[i] && a[..i] == b[..i]
    {
      ObeysUnique(s[i], us[i], a[i], s[i + 1], b[i], t[i + 1]);
      assert a[..i + 1] == a[..i] + [a[i]] && b[..i + 1] == b[..i] + [b[i]];
    }
    assert a == a[..|us|] && b == b[..|us|];
  }

  lemma ObeysUnique(before: Refs, u: RefUpdate, a: Outcome, after: Refs, b: Outcome, after': Refs)
    requires Obeys(before, u, a, after) && Obeys(before, u, b, after')
    ensures a == b && after == after'
  {
    forall n
      ensures SameAt(after, after', n)
    {
      if n != u.name {
        assert SameAt(before, after, n) && SameAt(before, after', n);
      }
    }
    SameEverywhere(after, after');
  }

  lemma SameEverywhere(a: Refs, b: Refs)
    requires forall n :: SameAt(a, b, n)
    ensures a == b
  {
    forall n
      ensures n in a.Keys <==> n in b.Keys
      ensures n in a && n in b ==> a[n] == b[n]
    {
      assert SameAt(a, b, n);
    }
  }

  /** Refs no command names keep their value. */
  lemma {:induction false} UnnamedKept(before: Refs, us: seq<RefUpdate>, outcomes: seq<Outcome>, after: Refs, n: string)
    requires Executes(before, us, outcomes, after) && n !in Names(us)
    ensures SameAt(before, after, n)
  {
    hide Obeys;
    var states :| EachObeys(states, us, outcomes) && states[0] == before && states[|us|] == after;
    for i := 0 to |us|
      invariant SameAt(before, states[i], n)
    {
      assert us[i] in us;
      ObeysElsewhere(states[i], us[i], outcomes[i], states[i + 1], n);
    }
  }

  lemma ObeysElsewhere(before: Refs, u: RefUpdate, outcome: Outcome, after: Refs, n: string)
    requires Obeys(before, u, outcome, after) && n != u.name
    ensures SameAt(before, after, n)
  {
  }

  // ------------------------------------------------------ one transaction

  /** Buffered writes of a transaction; `None` deletes. */
  type Writes = map<string, Option<RefTarget>>

  function Overlay(refs: Refs, writes: Writes): Refs {
    map n | n in refs.Keys + writes.Keys && (n in writes ==> writes[n].Some?) ::
      if n in writes then writes[n].value else refs[n]
  }

  function Names(us: seq<RefUpdate>): set<string> {
    set u | u in us :: u.name
  }

  datatype Txn = Txn(writes: Writes, results: seq<Outcome>)

  /** Process one command against the snapshot seen through the writes buffered so far. */
  function ReadStep(snapshot: Refs, t: Txn, u: RefUpdate): Txn {
    var seen := if u.name in t.writes then t.writes[u.name] else if u.name in snapshot then Some(snapshot[u.name])
      else None;
    if seen.Some? && seen.value.Symbolic? then t.(results := t.results + [Rejected(SymbolicRef)])
    else
      var current := if seen.Some? then Some(seen.value.oid) else None;
      if current != u.expectedOld then t.(results := t.results + [Rejected(NonFastForward)])
      else
        Txn(t.writes[u.name := if u.updated.Some? then Some(Direct(u.updated.value)) else None], t.results + [Updated])
  }

  function ReadSteps(snapshot: Refs, us: seq<RefUpdate>): Txn {
    if us == [] then Txn(map[], [])
    else ReadStep(snapshot, ReadSteps(snapshot, us[..|us| - 1]), us[|us| - 1])
  }

  lemma ReadStepApplies(snapshot: Refs, t: Txn, u: RefUpdate)
    ensures Overlay(snapshot, ReadStep(snapshot, t, u).writes) == ApplyOne(Overlay(snapshot, t.writes), u).0
    ensures ReadStep(snapshot, t, u).results == t.results + [ApplyOne(Overlay(snapshot, t.writes), u).1]
  {
  }

  /** A transaction over its own snapshot computes the specification, and so executes its commands. */
  lemma {:induction false} ReadStepsApply(snapshot: Refs, us: seq<RefUpdate>)
    ensures Overlay(snapshot, ReadSteps(snapshot, us).writes) == ApplyAll(snapshot, us).0
    ensures ReadSteps(snapshot, us).results == ApplyAll(snapshot, us).1
    ensures ReadSteps(snapshot, us).writes.Keys <= Names(us)
    ensures Executes(snapshot, us, ReadSteps(snapshot, us).results, Overlay(snapshot, ReadSteps(snapshot, us).writes))
    decreases |us|
  {
    hide Executes;
    ApplyAllExecutes(snapshot, us);
    if us == [] {
      assert Overlay(snapshot, map[]) == snapshot;
    } else {
      var rest, u := us[..|us| - 1], us[|us| - 1];
      ReadStepsApply(snapshot, rest);
      ReadStepApplies(snapshot, ReadSteps(snapshot, rest), u);
      assert us == rest + [u];
    }
  }

  ghost predicate AgreeOn(a: Refs, b: Refs, names: set<string>) {
    forall n :: n in names ==> (n in a <==> n in b) && (n in a ==> a[n] == b[n])
  }

  lemma ReadStepLocal(a: Refs, b: Refs, t: Txn, u: RefUpdate)
    requires (u.name in a <==> u.name in b) && (u.name in a ==> a[u.name] == b[u.name])
    ensures ReadStep(a, t, u) == ReadStep(b, t, u)
  {
  }

  /** What a transaction computes depends only on the names it reads. */
  lemma {:induction false} ReadStepsLocal(a: Refs, b: Refs, us: seq<RefUpdate>)
    requires AgreeOn(a, b, Names(us))
    ensures ReadSteps(a, us) == ReadSteps(b, us)
    decreases |us|
  {
    hide ReadStep;
    if us != [] {
      var rest, u := us[..|us| - 1], us[|us| - 1];
      assert us == rest + [u];
      assert u in us && u.name in Names(us) && Names(rest) <= Names(us);
      ReadStepsLocal(a, b, rest);
      ReadStepLocal(a, b, ReadSteps(a, rest), u);
    }
  }

  /** The attempt loop: read each command's ref, buffer the write, record the outcome. */
  method RunCommands(snapshot: Refs, us: seq<RefUpdate>)
    returns (writes: Writes, names: set<string>, results: seq<Outcome>)
    ensures names == Names(us) && writes.Keys <= names
    ensures results == ApplyAll(snapshot, us).1
    ensures forall now :: AgreeOn(snapshot, now, names) ==>
              && Executes(now, us, results, Overlay(now, writes))
              && Overlay(now, writes) == ApplyAll(now, us).0 && results == ApplyAll(now, us).1
  {
    hide Overlay, ApplyAll, AgreeOn, ReadSteps, Executes;
    writes, names, results := map[], {}, [];
    EmptyTxn(snapshot);
    for i := 0 to |us|
      invariant Txn(writes, results) == ReadSteps(snapshot, us[..i])
      invariant names == Names(us[..i])
    {
      var u := us[i];
      NextCommand(snapshot, us, i);
      names := names + {u.name};
      var seen := if u.name in writes then writes[u.name] else if u.name in snapshot then Some(snapshot[u.name])
        else None;
      if seen.Some? && seen.value.Symbolic? {
        results := results + [Rejected(SymbolicRef)];
      } else if (if seen.Some? then Some(seen.value.oid) else None) != u.expectedOld {
        results := results + [Rejected(NonFastForward)];
      } else {
        writes := writes[u.name := if u.updated.Some? then Some(Direct(u.updated.value)) else None];
        results := results + [Updated];
      }
    }
    assert us[..|us|] == us;
    ReadStepsApply(snapshot, us);
    forall now | AgreeOn(snapshot, now, names)
      ensures Executes(now, us, results, Overlay(now, writes))
      ensures Overlay(now, writes) == ApplyAll(now, us).0 && results == ApplyAll(now, us).1
    {
      ReadStepsLocal(snapshot, now, us);
      ReadStepsApply(now, us);
    }
  }

  lemma NextCommand(snapshot: Refs, us: seq<RefUpdate>, i: nat)
    requires i < |us|
    ensures ReadSteps(snapshot, us[..i + 1]) == ReadStep(snapshot, ReadSteps(snapshot, us[..i]), us[i])
    ensures Names(us[..i + 1]) == Names(us[..i]) + {us[i].name}
  {
    hide ReadStep;
    assert us[..i + 1] == us[..i] + [us[i]] && us[..i + 1][..i] == us[..i];
  }

  // ----------------------------------------------------- all interleavings

  /** A value the refs have had, and the call that wrote it. */
  datatype Version = Version(refs: Refs, writer: Option<nat>)

  datatype Phase =
    | Waiting(attempt: nat)
    | Open(attempt: nat, snapshot: nat, txn: Txn, read: nat)
    | Applied(results: seq<Outcome>, at: nat)
    | Returned(results: seq<Outcome>, at: nat, until: nat, wrote: bool)
    | Lost(results: seq<Outcome>, at: nat)
    | Exhausted(rejections: seq<Outcome>)
    | Failed

  datatype Call = Call(updates: seq<RefUpdate>, since: nat, phase: Phase)

  /** `versions` records every value of the refs; only its last entry is the store's content. */
  datatype State = State(versions: seq<Version>, calls: map<nat, Call>)

  datatype Action =
    | Invoke(updates: seq<RefUpdate>)
    | Begin
    | ReadNext
    | CommitWrites
    | CommitNothing
    | CommitConflicts
    | Return
    | Break

  ghost predicate Init(s: State) {
    |s.versions| == 1 && s.versions[0].writer == None && s.calls == map[]
  }

  /** One step of call `id`. */
  ghost predicate Next(s: State, id: nat, a: Action, s': State)
    requires |s.versions| > 0
  {
    var now := |s.versions| - 1;
    match a
    case Invoke(us) =>
      && id !in s.calls
      && s' == s.(calls := s.calls[id := Call(us, now, Waiting(0))])
    case Return =>
      && id in s.calls && s.calls[id].phase.Applied?
      && s' == s.(calls := s.calls[id := s.calls[id].(phase := Returned(s.calls[id].phase.results, s.calls[id].phase.at,
                                                                        now, true))])
    case Break =>
      // The call errs or is cancelled at any wait; a commit it was waiting for may have been applied.
      && id in s.calls && (s.calls[id].phase.Waiting? || s.calls[id].phase.Open? || s.calls[id].phase.Applied?)
      && s' == s.(calls := s.calls[id := s.calls[id].(phase :=
           if s.calls[id].phase.Applied? then Lost(s.calls[id].phase.results, s.calls[id].phase.at) else Failed)])
    case Begin =>
      && id in s.calls && s.calls[id].phase.Waiting?
      && s' == s.(calls := s.calls[id := s.calls[id].(phase := Open(s.calls[id].phase.attempt, now, Txn(map[], []),
                                                                    0))])
    case _ =>
      && id in s.calls && s.calls[id].phase.Open? && s.calls[id].phase.snapshot < |s.versions|
      && OpenStep(s, id, a, s')
  }

  ghost predicate OpenStep(s: State, id: nat, a: Action, s': State)
    requires id in s.calls && s.calls[id].phase.Open? && s.calls[id].phase.snapshot < |s.versions|
  {
    var now, call := |s.versions| - 1, s.calls[id];
    var Open(attempt, snapshot, txn, read) := call.phase;
    match a
    case ReadNext =>
      && read < |call.updates|
      && var seen := ReadStep(s.versions[snapshot].refs, txn, call.updates[read]);
         s' == s.(calls := s.calls[id := call.(phase := Open(attempt, snapshot, seen, read + 1))])
    case CommitWrites =>
      && read == |call.updates| && txn.writes != map[]
      && AgreeOn(s.versions[snapshot].refs, s.versions[now].refs, Names(call.updates))
      && s' == State(s.versions + [Version(Overlay(s.versions[now].refs, txn.writes), Some(id))],
                     s.calls[id := call.(phase := Applied(txn.results, now))])
    case CommitNothing =>
      && read == |call.updates| && txn.writes == map[]
      && s' == s.(calls := s.calls[id := call.(phase := Returned(txn.results, snapshot, now, false))])
    case CommitConflicts =>
      && read == |call.updates|
      && s' == s.(calls := s.calls[id := call.(phase :=
           if attempt + 1 >= UPDATE_REFS_ATTEMPTS
           then Exhausted(seq(|call.updates|, _ => Rejected(Conflict)))
           else Waiting(attempt + 1))])
    case _ => false
  }

  /** A call is where its phase says it is. */
  ghost predicate CallInv(versions: seq<Version>, id: nat, call: Call) {
    && call.since < |versions|
    && match call.phase
       case Waiting(attempt) => attempt < UPDATE_REFS_ATTEMPTS
       case Open(attempt, snapshot, txn, read) =>
         && attempt < UPDATE_REFS_ATTEMPTS && call.since <= snapshot < |versions|
         && read <= |call.updates|
         && txn == ReadSteps(versions[snapshot].refs, call.updates[..read])
       case Applied(results, at) => WroteAt(versions, id, call, results, at)
       case Lost(results, at) => WroteAt(versions, id, call, results, at)
       case Returned(results, at, until, wrote) => Atomic(versions, id, call)
       case Exhausted(rejections) => |rejections| == |call.updates| && forall r :: r in rejections ==>
         r == Rejected(Conflict)
       case _ => true
  }

  /** The call's commands took the refs from version `at` to the next one. */
  ghost predicate WroteAt(versions: seq<Version>, id: nat, call: Call, results: seq<Outcome>, at: nat) {
    && call.since <= at && at + 1 < |versions|
    && results == ApplyAll(versions[at].refs, call.updates).1
    && versions[at + 1] == Version(ApplyAll(versions[at].refs, call.updates).0, Some(id))
  }

  /** The call applied its commands at one version within its span, and nowhere else. */
  ghost predicate Atomic(versions: seq<Version>, id: nat, call: Call)
    requires call.phase.Returned?
  {
    var Returned(results, at, until, wrote) := call.phase;
    && call.since <= at <= until < |versions|
    && if wrote
       then at < until && WroteAt(versions, id, call, results, at)
       else ApplyAll(versions[at].refs, call.updates) == (versions[at].refs, results)
  }

  /** Where a call wrote, whether it has returned, is about to, or was lost after its commit. */
  ghost function AppliedAt(phase: Phase): Option<nat> {
    match phase
    case Applied(_, at) => Some(at)
    case Lost(_, at) => Some(at)
    case Returned(_, at, _, wrote) => if wrote then Some(at) else None
    case _ => None
  }

  /** Every version after the first was written by one call that applied its commands there. */
  ghost predicate Inv(s: State) {
    && |s.versions| > 0
    && (forall id :: id in s.calls ==> CallInv(s.versions, id, s.calls[id]))
    && s.versions[0].writer == None
    && (forall n :: 0 < n < |s.versions| ==> WrittenOnce(s, n))
  }

  ghost predicate WrittenOnce(s: State, n: nat)
    requires 0 < n < |s.versions|
  {
    && s.versions[n].writer.Some? && s.versions[n].writer.value in s.calls
    && AppliedAt(s.calls[s.versions[n].writer.value].phase) == Some(n - 1)
  }

  lemma ReadKeeps(versions: seq<Version>, id: nat, call: Call)
    requires call.phase.Open? && CallInv(versions, id, call) && call.phase.read < |call.updates|
    ensures var p := call.phase;
      && p.snapshot < |versions|
      && var seen := ReadStep(versions[p.snapshot].refs, p.txn, call.updates[p.read]);
         CallInv(versions, id, call.(phase := Open(p.attempt, p.snapshot, seen, p.read + 1)))
  {
    var p := call.phase;
    assert call.updates[..p.read + 1] == call.updates[..p.read] + [call.updates[p.read]];
    assert call.updates[..p.read + 1][..p.read] == call.updates[..p.read];
  }

  lemma CommitKeeps(versions: seq<Version>, id: nat, call: Call)
    requires |versions| > 0 && call.phase.Open? && CallInv(versions, id, call) && call.phase.read == |call.updates|
    ensures var p, now := call.phase, |versions| - 1;
      && (p.txn.writes == map[] ==> CallInv(versions, id,
                                            call.(phase := Returned(p.txn.results, p.snapshot, now, false))))
      && (AgreeOn(versions[p.snapshot].refs, versions[now].refs, Names(call.updates)) ==>
            CallInv(versions + [Version(Overlay(versions[now].refs, p.txn.writes), Some(id))], id,
                    call.(phase := Applied(p.txn.results, now))))
  {
    hide Executes;
    var p, now := call.phase, |versions| - 1;
    assert call.updates[..p.read] == call.updates;
    ReadStepsApply(versions[p.snapshot].refs, call.updates);
    if p.txn.writes == map[] {
      assert Overlay(versions[p.snapshot].refs, map[]) == versions[p.snapshot].refs;
    }
    if AgreeOn(versions[p.snapshot].refs, versions[now].refs, Names(call.updates)) {
      ReadStepsLocal(versions[p.snapshot].refs, versions[now].refs, call.updates);
      ReadStepsApply(versions[now].refs, call.updates);
    }
  }

  /** An applied call returns its results or is lost; its change stands either way. */
  lemma AnswerKeeps(versions: seq<Version>, id: nat, call: Call)
    requires |versions| > 0 && call.phase.Applied? && CallInv(versions, id, call)
    ensures CallInv(versions, id, call.(phase := Returned(call.phase.results, call.phase.at, |versions| - 1, true)))
    ensures CallInv(versions, id, call.(phase := Lost(call.phase.results, call.phase.at)))
  {
    hide ApplyAll;
  }

  lemma OthersKeep(versions: seq<Version>, v: Version, id: nat, call: Call)
    requires CallInv(versions, id, call)
    ensures CallInv(versions + [v], id, call)
  {
  }

  lemma NextKeeps(s: State, id: nat, a: Action, s': State)
    requires Inv(s) && Next(s, id, a, s')
    ensures Inv(s')
  {
    hide ReadSteps, ApplyAll, Overlay, ReadStep, AgreeOn, Atomic, WroteAt;
    forall other | other in s'.calls
      ensures CallInv(s'.versions, other, s'.calls[other])
    {
      if other != id {
        if s'.versions != s.versions {
          OthersKeep(s.versions, s'.versions[|s.versions|], other, s.calls[other]);
        }
      } else if id in s.calls && s.calls[id].phase.Applied? {
        AnswerKeeps(s.versions, id, s.calls[id]);
      } else if a.ReadNext? {
        ReadKeeps(s.versions, id, s.calls[id]);
      } else if a.CommitWrites? || a.CommitNothing? {
        CommitKeeps(s.versions, id, s.calls[id]);
      } else if a.Begin? {
        assert ReadSteps(s.versions[|s.versions| - 1].refs, []) == Txn(map[], []) by {
          EmptyTxn(s.versions[|s.versions| - 1].refs);
        }
      }
    }
    forall n | 0 < n < |s'.versions|
      ensures WrittenOnce(s', n)
    {
      if n < |s.versions| {
        assert WrittenOnce(s, n);
      }
    }
  }

  lemma EmptyTxn(refs: Refs)
    ensures ReadSteps(refs, []) == Txn(map[], [])
  {
  }

  ghost predicate IsRun(run: seq<State>) {
    && |run| > 0 && Init(run[0])
    && forall i :: 0 <= i < |run| - 1 ==> Steps(run[i], run[i + 1])
  }

  ghost predicate Steps(s: State, s': State) {
    |s.versions| > 0 && exists id, a :: Next(s, id, a, s')
  }

  /**
   Over every interleaving: returned calls are atomic at one version of their span, and every
   change of the refs is one call's commands applied once, its answer delivered or lost.
   */
  lemma {:induction false} UpdateRefsLinearizable(run: seq<State>, k: nat)
    requires IsRun(run) && k < |run|
    ensures Inv(run[k])
    ensures forall id :: id in run[k].calls && run[k].calls[id].phase.Returned? ==>
              ExecutedAt(run[k].versions, id, run[k].calls[id])
  {
    hide Next, Inv, ExecutedAt;
    if k > 0 {
      UpdateRefsLinearizable(run, k - 1);
      assert Steps(run[k - 1], run[k - 1 + 1]);
      var id, a :| Next(run[k - 1], id, a, run[k]);
      NextKeeps(run[k - 1], id, a, run[k]);
    } else {
      InitInv(run[0]);
    }
    forall id | id in run[k].calls && run[k].calls[id].phase.Returned?
      ensures ExecutedAt(run[k].versions, id, run[k].calls[id])
    {
      CallOf(run[k], id);
      ReturnedExecuted(run[k].versions, id, run[k].calls[id]);
    }
  }

  lemma CallOf(s: State, id: nat)
    requires Inv(s) && id in s.calls
    ensures CallInv(s.versions, id, s.calls[id])
  {
  }

  /** The answer a call returned is that of its commands, executed in order at one version of its span. */
  ghost predicate ExecutedAt(versions: seq<Version>, id: nat, call: Call)
    requires call.phase.Returned?
  {
    var Returned(results, at, until, wrote) := call.phase;
    && call.since <= at <= until < |versions| && (wrote ==> at < until && versions[at + 1].writer == Some(id))
    && Executes(versions[at].refs, call.updates, results, versions[if wrote then at + 1 else at].refs)
  }

  lemma ReturnedExecuted(versions: seq<Version>, id: nat, call: Call)
    requires CallInv(versions, id, call) && call.phase.Returned?
    ensures ExecutedAt(versions, id, call)
  {
    hide ApplyAll, Executes;
    ApplyAllExecutes(versions[call.phase.at].refs, call.updates);
  }

  lemma InitInv(s: State)
    requires Init(s)
    ensures Inv(s)
  {
  }

  /**
   A call writes at most one version, and only by applying its commands: one that exhausted its
   retries, failed before its commit, or has not applied yet wrote none.
   */
  lemma WritesAtMostOnce(run: seq<State>, k: nat, id: nat, n: nat)
    requires IsRun(run) && k < |run| && id in run[k].calls && n < |run[k].versions|
    ensures run[k].versions[n].writer == Some(id) <==> AppliedAt(run[k].calls[id].phase) == Some(n - 1)
    ensures AppliedAt(run[k].calls[id].phase).None? ==> run[k].versions[n].writer != Some(id)
  {
    hide IsRun, ApplyAll, Overlay, ReadSteps;
    UpdateRefsLinearizable(run, k);
    assert CallInv(run[k].versions, id, run[k].calls[id]);
    if n > 0 {
      assert WrittenOnce(run[k], n);
    }
  }

  ghost predicate ChangedBy(versions: seq<Version>, n: nat, id: nat, us: seq<RefUpdate>)
    requires 0 < n < |versions|
  {
    versions[n].writer == Some(id) && LeadTo(versions[n - 1].refs, us, versions[n].refs)
  }

  /** From each version to the next, the refs change by the commands of one call. */
  lemma EachVersionIsOneCall(run: seq<State>, k: nat, n: nat)
    requires IsRun(run) && k < |run| && 0 < n < |run[k].versions|
    ensures exists id :: id in run[k].calls && ChangedBy(run[k].versions, n, id, run[k].calls[id].updates)
  {
    hide IsRun, ApplyAll, Overlay, ReadSteps, Executes, ExecutedAt;
    UpdateRefsLinearizable(run, k);
    assert WrittenOnce(run[k], n);
    var id := run[k].versions[n].writer.value;
    assert CallInv(run[k].versions, id, run[k].calls[id]);
    ApplyAllExecutes(run[k].versions[n - 1].refs, run[k].calls[id].updates);
  }

  // ------------------------------------------------ a call lost after its commit

  const NEW_MAIN := [RefUpdate("main", None, Some(1))]
  const MAIN_WRITTEN := Txn(map["main" := Some(Direct(1))], [Updated])
  const NO_REFS: seq<Version> := [Version(map[], None)]
  const WITH_MAIN: seq<Version> := NO_REFS + [Version(map["main" := Direct(1)], Some(0))]

  lemma MainIsRead()
    ensures ReadStep(map[], Txn(map[], []), NEW_MAIN[0]) == MAIN_WRITTEN
    ensures Overlay(map[], MAIN_WRITTEN.writes) == map["main" := Direct(1)]
    ensures MAIN_WRITTEN.writes != map[]
  {
    assert "main" in MAIN_WRITTEN.writes;
  }

  lemma LostSteps(s0: State, s1: State, s2: State, s3: State, s4: State, s5: State)
    requires s0 == State(NO_REFS, map[]) && s1 == State(NO_REFS, map[0 := Call(NEW_MAIN, 0, Waiting(0))])
    requires s2 == State(NO_REFS, map[0 := Call(NEW_MAIN, 0, Open(0, 0, Txn(map[], []), 0))])
    requires s3 == State(NO_REFS, map[0 := Call(NEW_MAIN, 0, Open(0, 0, MAIN_WRITTEN, 1))])
    requires s4 == State(WITH_MAIN, map[0 := Call(NEW_MAIN, 0, Applied([Updated], 0))])
    requires s5 == State(WITH_MAIN, map[0 := Call(NEW_MAIN, 0, Lost([Updated], 0))])
    ensures Steps(s0, s1) && Steps(s1, s2) && Steps(s2, s3) && Steps(s3, s4) && Steps(s4, s5)
  {
    hide ReadStep, Overlay;
    MainIsRead();
    assert Next(s0, 0, Invoke(NEW_MAIN), s1);
    assert Next(s1, 0, Begin, s2);
    assert Next(s2, 0, ReadNext, s3);
    assert Next(s3, 0, CommitWrites, s4);
    assert Next(s4, 0, Break, s5);
  }

  /** A call that is lost while it waits for its commit can have created a ref. */
  lemma LostCallCanHaveWritten() returns (run: seq<State>)
    ensures IsRun(run)
    ensures var last := run[|run| - 1];
      && |last.versions| == 2 && 0 in last.calls && last.calls[0].phase.Lost?
      && last.versions[0].refs == map[] && last.versions[1].refs == map["main" := Direct(1)]
  {
    hide Steps;
    run := [State(NO_REFS, map[]), State(NO_REFS, map[0 := Call(NEW_MAIN, 0, Waiting(0))]),
            State(NO_REFS, map[0 := Call(NEW_MAIN, 0, Open(0, 0, Txn(map[], []), 0))]),
            State(NO_REFS, map[0 := Call(NEW_MAIN, 0, Open(0, 0, MAIN_WRITTEN, 1))]),
            State(WITH_MAIN, map[0 := Call(NEW_MAIN, 0, Applied([Updated], 0))]),
            State(WITH_MAIN, map[0 := Call(NEW_MAIN, 0, Lost([Updated], 0))])];
    LostSteps(run[0], run[1], run[2], run[3], run[4], run[5]);
  }
}
