/**
 Any number of concurrent pushes, step by step, over one append-only log that a
 crash cuts to a prefix. Validation, single-record writes, blob uploads, graph
 records, flushes and ref transactions interleave freely. In every reachable
 state every prefix of the log is a consistent repository.
 */
module PushProtocol {
  import opened Options
  import opened Reachability
  import opened GitObjects
  import opened RefTransactions
  import opened Promotion

  datatype Record =
    | ObjectRecord(oid: Oid, pointer: bool)
    | GraphRecord(oid: Oid)
    | RefRecord(writes: Writes)

  /** Where the write of one object stands: existence check, blob upload, record append. */
  datatype PutStage = Check | Upload | Append

  datatype PushPhase =
    | Validating(walk: Walk)
    | Writing(next: nat, stage: PutStage)
    | Extending(commits: seq<Oid>, next: nat)
    | Flushing
    | Updating
    | Committed(at: nat, results: seq<Outcome>)
    | Answered(at: nat, results: seq<Outcome>)
    | Unchanged

  /** `order` lists what the push writes, `since` is the length of the log when it began to. */
  datatype Push = Push(staged: Objects, updates: seq<RefUpdate>, phase: PushPhase, order: seq<Oid>, since: nat)

  /** What a client asked for and was told. */
  datatype Ack = Ack(updates: seq<RefUpdate>, results: seq<Outcome>)

  /** `acked` holds what was answered, by the log position of the ref record. */
  datatype System = System(log: seq<Record>, blobs: set<Oid>, durable: nat, acked: map<nat, Ack>,
                           pushes: map<nat, Push>)

  /** All object contents there are, and the size above which a blob is stored outside the log. */
  datatype Config = Config(world: Objects, inlineThreshold: nat)

  ghost function Stored(log: seq<Record>): set<Oid> {
    set r | r in log && r.ObjectRecord? :: r.oid
  }

  ghost function RefsOf(log: seq<Record>): Refs {
    if log == [] then map[]
    else
      var before := RefsOf(log[..|log| - 1]);
      var last := log[|log| - 1];
      if last.RefRecord? then Overlay(before, last.writes) else before
  }

  ghost function Tips(us: seq<RefUpdate>): set<Oid> {
    set u | u in us && u.updated.Some? :: u.updated.value
  }

  ghost predicate Large(cfg: Config, x: Oid) {
    x in cfg.world && cfg.world[x].BlobObject? && cfg.world[x].size > cfg.inlineThreshold
  }

  ghost predicate Consistent(world: Objects, staged: Objects) {
    forall x :: x in staged ==> x in world && world[x] == staged[x]
  }

  // ------------------------------------------------------------------- steps

  datatype Action =
    | Receive(staged: Objects, updates: seq<RefUpdate>, tips: seq<Oid>)
    | Visit
    | BeginWrites
    | CheckStored
    | UploadBlob
    | AppendObject
    | EndWrites
    | AppendGraph
    | EndGraph
    | Flush
    | CommitRefs
    | ChangeNoRef
    | Acknowledge
    | Abort
    | Backfill(oid: Oid)
    | Crash(keep: nat)

  function SetPhase(s: System, id: nat, p: PushPhase): System
    requires id in s.pushes
  {
    s.(pushes := s.pushes[id := s.pushes[id].(phase := p)])
  }

  function Received(staged: Objects, updates: seq<RefUpdate>, tips: seq<Oid>): Push {
    Push(staged, updates, Validating(Walk(EnterTips(tips), {}, [])), [], 0)
  }

  ghost predicate Next(cfg: Config, s: System, id: nat, a: Action, s': System) {
    match a
    case Receive(staged, updates, tips) =>
      && id !in s.pushes && Consistent(cfg.world, staged) && Elements(tips) == Tips(updates)
      && s' == s.(pushes := s.pushes[id := Received(staged, updates, tips)])
    case Crash(keep) =>
      s.durable <= keep <= |s.log| && s' == s.(log := s.log[..keep], durable := keep, pushes := map[])
    case Backfill(x) =>
      // Walkers write records of stored commits at any time.
      x in Stored(s.log) && s' == s.(log := s.log + [GraphRecord(x)])
    case Abort =>
      id in s.pushes && s' == s.(pushes := s.pushes - {id})
    case _ =>
      id in s.pushes && PushStep(cfg, s, id, s.pushes[id], a, s')
  }

  ghost predicate PushStep(cfg: Config, s: System, id: nat, push: Push, a: Action, s': System)
    requires id in s.pushes
  {
    match (push.phase, a)
    case (Validating(w), Visit) =>
      && w.stack != [] && !Stuck(push.staged, Stored(s.log), w)
      && s' == SetPhase(s, id, Validating(WalkStep(push.staged, Stored(s.log), w)))
    case (Validating(w), BeginWrites) =>
      && w.stack == [] && (forall x :: x in w.post ==> x in push.staged)
      && var order := WriteOrder(push.staged, w.post);
         s' == s.(pushes := s.pushes[id := push.(phase := Writing(0, Check), order := order, since := |s.log|)])
    case (Writing(next, stage), _) =>
      WriteStep(cfg, s, id, push.order, next, stage, a, s')
    case (Extending(commits, next), AppendGraph) =>
      && next < |commits|
      && s' == SetPhase(s.(log := s.log + [GraphRecord(commits[next])]), id, Extending(commits, next + 1))
    case (Extending(commits, next), EndGraph) =>
      next == |commits| && s' == SetPhase(s, id, Flushing)
    case (Flushing, Flush) =>
      s' == SetPhase(s.(durable := |s.log|), id, Updating)
    case (Updating, CommitRefs) =>
      // The transaction is atomic at its commit; see UpdateRefsLinearizable.
      var txn := ReadSteps(RefsOf(s.log), push.updates);
      s' == SetPhase(s.(log := s.log + [RefRecord(txn.writes)]), id, Committed(|s.log|, txn.results))
    case (Updating, ChangeNoRef) =>
      s' == SetPhase(s, id, Unchanged)
    case (Committed(at, results), Acknowledge) =>
      s' == SetPhase(s.(durable := |s.log|, acked := s.acked[at := Ack(push.updates, results)]), id,
                     Answered(at, results))
    case _ => false
  }

  /** Writing one object: skip it if a record exists, upload a large blob, then append the record. */
  ghost predicate WriteStep(cfg: Config, s: System, id: nat, order: seq<Oid>, next: nat, stage: PutStage, a: Action,
                            s': System)
    requires id in s.pushes
  {
    match (stage, a)
    case (Check, CheckStored) =>
      && next < |order|
      && s' == SetPhase(s, id, if order[next] in Stored(s.log) then Writing(next + 1, Check)
                        else Writing(next, Upload))
    case (Upload, UploadBlob) =>
      && next < |order|
      && s' == SetPhase(if Large(cfg, order[next]) then s.(blobs := s.blobs + {order[next]})
                        else s, id, Writing(next, Append))
    case (Append, AppendObject) =>
      && next < |order|
      && s' == SetPhase(s.(log := s.log + [ObjectRecord(order[next], Large(cfg, order[next]))]), id,
                        Writing(next + 1, Check))
    case (Check, EndWrites) =>
      && next == |order| && (forall x :: x in order ==> x in cfg.world)
      && s' == SetPhase(s, id, Extending(OfKind(cfg.world, order, Commit), 0))
    case _ => false
  }

  // -------------------------------------------------------------- invariants

  /** A consistent repository: closures complete, offloaded blobs present, refs and graph records resolvable. */
  ghost predicate Good(cfg: Config, blobs: set<Oid>, log: seq<Record>) {
    && (forall x :: x in Stored(log) ==> x in cfg.world)
    && Closed(cfg.world, Stored(log))
    && (forall r :: r in log && r.ObjectRecord? ==>
         (r.pointer <==> Large(cfg, r.oid)) && (r.pointer ==> r.oid in blobs))
    && (forall r :: r in log && r.GraphRecord? ==> r.oid in Stored(log))
    && (forall n :: n in RefsOf(log) && RefsOf(log)[n].Direct? ==> RefsOf(log)[n].oid in Stored(log))
  }

  ghost predicate EveryPrefixGood(cfg: Config, blobs: set<Oid>, log: seq<Record>) {
    forall n :: 0 <= n <= |log| ==> Good(cfg, blobs, log[..n])
  }

  /** What a push relies on; only the store growing can happen to it from outside. */
  ghost predicate PushInv(cfg: Config, rank: Oid -> nat, stored: set<Oid>, blobs: set<Oid>, push: Push) {
    && Consistent(cfg.world, push.staged)
    && match push.phase
       case Validating(w) => WalkInv(push.staged, rank, Tips(push.updates), stored, w)
       case Writing(next, stage) =>
         var order := push.order;
         && next <= |order|
         && ChildrenFirst(cfg.world, stored, order)
         && Elements(order[..next]) <= stored
         && Tips(push.updates) <= stored + Elements(order)
         && (stage == Append && next < |order| && Large(cfg, order[next]) ==> order[next] in blobs)
       case Extending(commits, next) => Tips(push.updates) <= stored && Elements(commits) <= stored
       case _ => Tips(push.updates) <= stored
  }

  ghost predicate Inv(cfg: Config, rank: Oid -> nat, s: System) {
    && EveryPrefixGood(cfg, s.blobs, s.log)
    && s.durable <= |s.log|
    && (forall id :: id in s.pushes ==> PushInv(cfg, rank, Stored(s.log), s.blobs, s.pushes[id]))
    && Ledger(cfg, s)
  }

  /** The record at `at` is what these commands, one by one, do to the refs before it, with these outcomes. */
  ghost predicate Moved(log: seq<Record>, at: nat, us: seq<RefUpdate>, results: seq<Outcome>) {
    at < |log| && Executes(RefsOf(log[..at]), us, results, RefsOf(log[..at + 1]))
  }

  ghost predicate IsCommit(objects: Objects, x: Oid) {
    x in objects && objects[x].CommitObject?
  }

  /** Everything below the tips was stored when the push began to write, or is listed by it. */
  ghost predicate Lists(cfg: Config, log: seq<Record>, push: Push) {
    && push.since <= |log|
    && forall x :: InClosure(cfg.world, Tips(push.updates), x) ==> x in Stored(log[..push.since]) || x in push.order
  }

  ghost predicate Graphed(cfg: Config, log: seq<Record>, order: seq<Oid>) {
    forall x :: x in order && IsCommit(cfg.world, x) ==> GraphRecord(x) in log
  }

  /** What a push has to show for in the log. */
  ghost predicate Accounted(cfg: Config, log: seq<Record>, push: Push) {
    match push.phase
    case Validating(_) => true
    case Writing(_, _) => Lists(cfg, log, push)
    case Extending(commits, next) =>
      && Lists(cfg, log, push) && next <= |commits|
      && (forall x :: x in push.order && IsCommit(cfg.world, x) ==> x in commits)
      && (forall i :: 0 <= i < next ==> GraphRecord(commits[i]) in log)
    case Committed(at, results) =>
      Lists(cfg, log, push) && Graphed(cfg, log, push.order) && Moved(log, at, push.updates, results)
    case _ => Lists(cfg, log, push) && Graphed(cfg, log, push.order)
  }

  /** What was answered is durable and true. */
  ghost predicate AcksHold(log: seq<Record>, durable: nat, acked: map<nat, Ack>) {
    forall n :: n in acked ==> n < durable && Moved(log, n, acked[n].updates, acked[n].results)
  }

  ghost predicate AllAccounted(cfg: Config, log: seq<Record>, pushes: map<nat, Push>) {
    forall id :: id in pushes ==> Accounted(cfg, log, pushes[id])
  }

  ghost predicate Commits(pushes: map<nat, Push>, id: nat) {
    id in pushes && pushes[id].phase.Committed?
  }

  /** An answered push is on record with its answer; a committed one has a record of its own still to answer for. */
  ghost predicate Answers(acked: map<nat, Ack>, pushes: map<nat, Push>) {
    && (forall id :: id in pushes && pushes[id].phase.Answered? ==>
          && pushes[id].phase.at in acked
          && acked[pushes[id].phase.at] == Ack(pushes[id].updates, pushes[id].phase.results))
    && (forall id :: Commits(pushes, id) ==> pushes[id].phase.at !in acked)
    && (forall i, j :: Commits(pushes, i) && Commits(pushes, j) && i != j ==> pushes[i].phase.at != pushes[j].phase.at)
  }

  predicate PastFlush(phase: PushPhase) {
    phase.Updating? || phase.Committed? || phase.Answered? || phase.Unchanged?
  }

  /** Past its flush, what a push's tips reach and the graph records of what it listed are durable. */
  ghost predicate Flushed(cfg: Config, durable: seq<Record>, push: Push) {
    && (forall x :: InClosure(cfg.world, Tips(push.updates), x) ==> x in Stored(durable))
    && Graphed(cfg, durable, push.order)
  }

  ghost predicate AllFlushed(cfg: Config, durable: seq<Record>, pushes: map<nat, Push>) {
    forall id :: id in pushes && PastFlush(pushes[id].phase) ==> Flushed(cfg, durable, pushes[id])
  }

  ghost predicate Ledger(cfg: Config, s: System) {
    && AcksHold(s.log, s.durable, s.acked) && AllAccounted(cfg, s.log, s.pushes) && Answers(s.acked, s.pushes)
    && s.durable <= |s.log| && AllFlushed(cfg, s.log[..s.durable], s.pushes)
  }

  lemma StoredGrows(log: seq<Record>, r: Record)
    ensures Stored(log + [r]) == Stored(log) + if r.ObjectRecord? then {r.oid} else {}
    ensures RefsOf(log + [r]) == if r.RefRecord? then Overlay(RefsOf(log), r.writes) else RefsOf(log)
  {
    assert (log + [r])[..|log|] == log;
    forall x
      ensures x in Stored(log + [r]) <==> x in Stored(log) || (r.ObjectRecord? && x == r.oid)
    {
      if x in Stored(log) {
        var q :| q in log && q.ObjectRecord? && q.oid == x;
        assert q in log + [r];
      }
      assert r in log + [r];
    }
  }

  lemma PrefixesExtend(cfg: Config, blobs: set<Oid>, more: set<Oid>, log: seq<Record>, r: Record)
    requires EveryPrefixGood(cfg, blobs, log) && blobs <= more && Good(cfg, more, log + [r])
    ensures EveryPrefixGood(cfg, more, log + [r])
  {
    hide Stored, RefsOf, Closed;
    forall n | 0 <= n <= |log + [r]|
      ensures Good(cfg, more, (log + [r])[..n])
    {
      if n <= |log| {
        assert (log + [r])[..n] == log[..n];
      } else {
        assert (log + [r])[..n] == log + [r];
      }
    }
  }

  lemma PrefixesBlobs(cfg: Config, blobs: set<Oid>, more: set<Oid>, log: seq<Record>)
    requires EveryPrefixGood(cfg, blobs, log) && blobs <= more
    ensures EveryPrefixGood(cfg, more, log)
  {
    hide Stored, RefsOf, Closed;
  }

  lemma PrefixesCut(cfg: Config, blobs: set<Oid>, log: seq<Record>, keep: nat)
    requires EveryPrefixGood(cfg, blobs, log) && keep <= |log|
    ensures EveryPrefixGood(cfg, blobs, log[..keep])
  {
    hide Good;
    forall n | 0 <= n <= keep
      ensures Good(cfg, blobs, log[..keep][..n])
    {
      assert log[..keep][..n] == log[..n];
    }
  }

  lemma WholeGood(cfg: Config, blobs: set<Oid>, log: seq<Record>)
    requires EveryPrefixGood(cfg, blobs, log)
    ensures Good(cfg, blobs, log)
  {
    assert log[..|log|] == log;
  }

  lemma ObjectAppended(cfg: Config, blobs: set<Oid>, log: seq<Record>, x: Oid)
    requires Good(cfg, blobs, log) && x in cfg.world
    requires forall c :: c in Children(cfg.world[x]) ==> c in Stored(log)
    requires Large(cfg, x) ==> x in blobs
    ensures Good(cfg, blobs, log + [ObjectRecord(x, Large(cfg, x))])
  {
    hide Stored, RefsOf, Children;
    StoredGrows(log, ObjectRecord(x, Large(cfg, x)));
  }

  lemma GraphAppended(cfg: Config, blobs: set<Oid>, log: seq<Record>, x: Oid)
    requires Good(cfg, blobs, log) && x in Stored(log)
    ensures Good(cfg, blobs, log + [GraphRecord(x)])
  {
    hide Stored, RefsOf, Children;
    StoredGrows(log, GraphRecord(x));
  }

  /** Applying commands leaves direct refs only where they were or at one of the new ids. */
  lemma {:induction false} AppliedTargets(refs: Refs, us: seq<RefUpdate>, n: string)
    ensures var after := ApplyAll(refs, us).0;
      n in after && after[n].Direct? ==> (n in refs && refs[n] == after[n]) || after[n].oid in Tips(us)
    decreases |us|
  {
    if us != [] {
      var rest, u := us[..|us| - 1], us[|us| - 1];
      AppliedTargets(refs, rest, n);
      assert us == rest + [u];
      assert u in us && Tips(rest) <= Tips(us);
    }
  }

  lemma RefsAppended(cfg: Config, blobs: set<Oid>, log: seq<Record>, us: seq<RefUpdate>)
    requires Good(cfg, blobs, log) && Tips(us) <= Stored(log)
    ensures Good(cfg, blobs, log + [RefRecord(ReadSteps(RefsOf(log), us).writes)])
  {
    hide Stored, RefsOf, Children, ReadSteps, ApplyAll, Overlay, Tips;
    var r := RefRecord(ReadSteps(RefsOf(log), us).writes);
    StoredGrows(log, r);
    ReadStepsApply(RefsOf(log), us);
    forall n | n in RefsOf(log + [r]) && RefsOf(log + [r])[n].Direct?
      ensures RefsOf(log + [r])[n].oid in Stored(log + [r])
    {
      AppliedTargets(RefsOf(log), us, n);
    }
  }

  lemma StoreGrowthKeepsPush(cfg: Config, rank: Oid -> nat, stored: set<Oid>, more: set<Oid>, blobs: set<Oid>,
                             moreBlobs: set<Oid>, push: Push)
    requires PushInv(cfg, rank, stored, blobs, push) && stored <= more && blobs <= moreBlobs
    ensures PushInv(cfg, rank, more, moreBlobs, push)
  {
    hide WalkInv, ChildrenFirst;
    match push.phase
    case Validating(w) => StoreGrowthKeeps(push.staged, rank, Tips(push.updates), stored, more, w);
    case Writing(_, _) => ChildrenFirstMore(cfg.world, stored, more, push.order);
    case _ =>
  }

  // ---------------------------------------------------------- steps keep it

  /** What one step of a push does to the shared state and to itself. */
  ghost predicate StepOk(cfg: Config, rank: Oid -> nat, s: System, id: nat, s': System) {
    && EveryPrefixGood(cfg, s'.blobs, s'.log)
    && Stored(s.log) <= Stored(s'.log) && s.blobs <= s'.blobs
    && id in s'.pushes && PushInv(cfg, rank, Stored(s'.log), s'.blobs, s'.pushes[id])
  }

  lemma VisitOk(cfg: Config, rank: Oid -> nat, s: System, id: nat, s': System)
    requires Inv(cfg, rank, s) && Acyclic(cfg.world, rank) && id in s.pushes && s.pushes[id].phase.Validating?
    requires PushStep(cfg, s, id, s.pushes[id], Visit, s')
    ensures StepOk(cfg, rank, s, id, s')
  {
    hide WalkInv, EveryPrefixGood, Stored, WalkStep, Children;
    var push := s.pushes[id];
    assert Acyclic(push.staged, rank);
    StepKeeps(push.staged, rank, Tips(push.updates), Stored(s.log), push.phase.walk);
  }

  /** A finished walk leaves every tip stored or listed. */
  lemma TipsListed(staged: Objects, rank: Oid -> nat, tips: set<Oid>, stored: set<Oid>, w: Walk)
    requires WalkInv(staged, rank, tips, stored, w) && w.stack == []
    ensures tips <= stored + Elements(w.post)
  {
    forall t | t in tips
      ensures t in stored || t in w.post
    {
      assert t in w.done;
    }
  }

  lemma {:induction false} ChildrenFirstIn(objects: Objects, world: Objects, base: set<Oid>, s: seq<Oid>)
    requires Consistent(world, objects) && ChildrenFirst(objects, base, s)
    ensures ChildrenFirst(world, base, s)
    decreases |s|
  {
    if s != [] {
      ChildrenFirstIn(objects, world, base + {s[0]}, s[1..]);
    }
  }

  lemma BeginWritesOk(cfg: Config, rank: Oid -> nat, kind: Oid -> Kind, s: System, id: nat, s': System)
    requires Inv(cfg, rank, s) && KindsAgree(cfg.world, kind) && id in s.pushes && s.pushes[id].phase.Validating?
    requires PushStep(cfg, s, id, s.pushes[id], BeginWrites, s')
    ensures StepOk(cfg, rank, s, id, s')
  {
    hide WalkInv, EveryPrefixGood, Stored, Children, ChildrenFirst, WriteOrder;
    var push := s.pushes[id];
    var w, stored := push.phase.walk, Stored(s.log);
    assert KindsAgree(push.staged, kind);
    PostFacts(push.staged, rank, Tips(push.updates), stored, w);
    TipsListed(push.staged, rank, Tips(push.updates), stored, w);
    WriteOrderFirst(push.staged, kind, stored, w.post);
    var order := WriteOrder(push.staged, w.post);
    ChildrenFirstIn(push.staged, cfg.world, stored, order);
    assert Elements(order) == Elements(w.post);
    assert Elements(order[..0]) == {};
  }

  /** The next object to write has all its children stored. */
  lemma NextIsReady(objects: Objects, stored: set<Oid>, order: seq<Oid>, next: nat)
    requires ChildrenFirst(objects, stored, order) && next < |order| && Elements(order[..next]) <= stored
    ensures order[next] in objects && forall c :: c in Children(objects[order[next]]) ==> c in stored
  {
    assert order == order[..next] + order[next..];
    ChildrenFirstConcat(objects, stored, order[..next], order[next..]);
    assert stored + Elements(order[..next]) == stored;
  }

  lemma WriteOk(cfg: Config, rank: Oid -> nat, s: System, id: nat, a: Action, s': System)
    requires Inv(cfg, rank, s) && id in s.pushes && s.pushes[id].phase.Writing?
    requires PushStep(cfg, s, id, s.pushes[id], a, s')
    ensures StepOk(cfg, rank, s, id, s')
  {
    hide EveryPrefixGood, Stored, Children, ChildrenFirst, WalkInv, Large, OfKind;
    var push := s.pushes[id];
    var Writing(next, stage) := push.phase;
    var order := push.order;
    var stored := Stored(s.log);
    if next < |order| {
      assert order[..next + 1] == order[..next] + [order[next]];
      NextIsReady(cfg.world, stored, order, next);
    } else {
      assert order[..next] == order;
    }
    match a
    case CheckStored =>
    case UploadBlob =>
      PrefixesBlobs(cfg, s.blobs, s'.blobs, s.log);
    case AppendObject =>
      var r := ObjectRecord(order[next], Large(cfg, order[next]));
      WholeGood(cfg, s.blobs, s.log);
      ObjectAppended(cfg, s.blobs, s.log, order[next]);
      PrefixesExtend(cfg, s.blobs, s.blobs, s.log, r);
      StoredGrows(s.log, r);
      ChildrenFirstMore(cfg.world, stored, Stored(s'.log), order);
    case EndWrites =>
      CommitsOf(cfg.world, order);
    case _ =>
  }

  lemma CommitsOf(objects: Objects, order: seq<Oid>)
    requires forall x :: x in order ==> x in objects
    ensures Elements(OfKind(objects, order, Commit)) <= Elements(order)
  {
  }

  lemma TailOk(cfg: Config, rank: Oid -> nat, s: System, id: nat, a: Action, s': System)
    requires Inv(cfg, rank, s) && id in s.pushes && !s.pushes[id].phase.Writing? && !s.pushes[id].phase.Validating?
    requires PushStep(cfg, s, id, s.pushes[id], a, s')
    ensures StepOk(cfg, rank, s, id, s')
  {
    hide EveryPrefixGood, Stored, Children, ChildrenFirst, WalkInv, Large, RefsOf, ReadSteps, Tips, Good;
    var push := s.pushes[id];
    WholeGood(cfg, s.blobs, s.log);
    if a.AppendGraph? {
      var x := push.phase.commits[push.phase.next];
      assert x in Elements(push.phase.commits);
      GraphAppended(cfg, s.blobs, s.log, x);
      PrefixesExtend(cfg, s.blobs, s.blobs, s.log, GraphRecord(x));
      StoredGrows(s.log, GraphRecord(x));
    } else if a.CommitRefs? {
      var r := RefRecord(ReadSteps(RefsOf(s.log), push.updates).writes);
      RefsAppended(cfg, s.blobs, s.log, push.updates);
      PrefixesExtend(cfg, s.blobs, s.blobs, s.log, r);
      StoredGrows(s.log, r);
    }
  }

  /** The durable part of the log and what was acknowledged outlast every step, crashes included. */
  ghost predicate DurableKept(s: System, s': System) {
    && s.durable <= s'.durable <= |s'.log| && s.durable <= |s.log|
    && s'.log[..s.durable] == s.log[..s.durable]
    && forall n :: n in s.acked ==> n in s'.acked && s'.acked[n] == s.acked[n]
  }

  lemma StepOfPushOk(cfg: Config, rank: Oid -> nat, kind: Oid -> Kind, s: System, id: nat, a: Action, s': System)
    requires Inv(cfg, rank, s) && Acyclic(cfg.world, rank) && KindsAgree(cfg.world, kind)
    requires id in s.pushes && PushStep(cfg, s, id, s.pushes[id], a, s')
    ensures StepOk(cfg, rank, s, id, s')
  {
    hide Inv, StepOk, Acyclic, KindsAgree;
    if s.pushes[id].phase.Validating? {
      if a.Visit? {
        VisitOk(cfg, rank, s, id, s');
      } else {
        BeginWritesOk(cfg, rank, kind, s, id, s');
      }
    } else if s.pushes[id].phase.Writing? {
      WriteOk(cfg, rank, s, id, a, s');
    } else {
      TailOk(cfg, rank, s, id, a, s');
    }
  }

  lemma StepLog(cfg: Config, s: System, id: nat, a: Action, s': System)
    requires id in s.pushes && PushStep(cfg, s, id, s.pushes[id], a, s') && s.durable <= |s.log|
    ensures |s.log| <= |s'.log| && s'.log[..|s.log|] == s.log && s.durable <= s'.durable <= |s'.log|
  {
    hide Stored, RefsOf, ReadSteps, WriteOrder, OfKind, WalkStep, Stuck, Large;
  }

  /** The bookkeeping around a push's step: other pushes, the durable mark, acknowledgements. */
  lemma StepFrame(cfg: Config, s: System, id: nat, a: Action, s': System)
    requires id in s.pushes && PushStep(cfg, s, id, s.pushes[id], a, s')
    requires s.durable <= |s.log| && Answers(s.acked, s.pushes)
    ensures s'.pushes.Keys == s.pushes.Keys && forall i :: i in s.pushes && i != id ==> s'.pushes[i] == s.pushes[i]
    ensures DurableKept(s, s') && s.log <= s'.log && |s.log| <= |s'.log|
  {
    hide PushStep;
    StepShape(cfg, s, id, a, s');
    StepLog(cfg, s, id, a, s');
    assert Commits(s.pushes, id) <==> s.pushes[id].phase.Committed?;
    assert s'.log[..s.durable] == s'.log[..|s.log|][..s.durable];
  }

  // ------------------------------------------------------------- accounting

  /** What a record did to the refs depends on the log up to it. */
  lemma MovedStays(log: seq<Record>, log': seq<Record>, at: nat, us: seq<RefUpdate>, results: seq<Outcome>)
    requires Moved(log, at, us, results) && at < |log'| && log'[..at + 1] == log[..at + 1]
    ensures Moved(log', at, us, results)
  {
    hide RefsOf, Executes;
    assert log'[..at] == log'[..at + 1][..at] && log[..at] == log[..at + 1][..at];
  }

  lemma AccountedMore(cfg: Config, log: seq<Record>, log': seq<Record>, push: Push)
    requires Accounted(cfg, log, push) && log <= log'
    ensures Accounted(cfg, log', push)
  {
    hide RefsOf, Executes, Stored, InClosure, Tips, IsCommit, Moved;
    assert push.since <= |log| ==> log'[..push.since] == log[..push.since];
    if push.phase.Committed? {
      MovedIn(log, push.phase.at, push.updates, push.phase.results);
      assert log'[..push.phase.at + 1] == log[..push.phase.at + 1];
      MovedStays(log, log', push.phase.at, push.updates, push.phase.results);
    }
  }

  lemma MovedIn(log: seq<Record>, at: nat, us: seq<RefUpdate>, results: seq<Outcome>)
    requires Moved(log, at, us, results)
    ensures at < |log|
  {
  }

  /** A validated push lists whatever its tips reach that is not stored. */
  lemma OrderLists(cfg: Config, stored: set<Oid>, order: seq<Oid>, tips: set<Oid>)
    requires ChildrenFirst(cfg.world, stored, order) && Closed(cfg.world, stored) && tips <= stored + Elements(order)
    ensures forall x :: InClosure(cfg.world, tips, x) ==> x in stored || x in order
  {
    hide Reachable, Children, ChildrenFirst;
    var e, s := ObjectEdges(cfg.world), iset x | x in stored || x in order;
    forall x, y | x in s && x in e && y in e[x]
      ensures y in s
    {
      if x in order {
        ChildrenFirstAll(cfg.world, stored, order, x, y);
      }
    }
    ReachClosed(e, tips, s);
  }

  lemma WritingFacts(cfg: Config, rank: Oid -> nat, stored: set<Oid>, blobs: set<Oid>, push: Push)
    requires PushInv(cfg, rank, stored, blobs, push) && push.phase.Writing?
    ensures ChildrenFirst(cfg.world, stored, push.order) && Tips(push.updates) <= stored + Elements(push.order)
  {
    hide ChildrenFirst;
  }

  lemma ListsAtStart(cfg: Config, rank: Oid -> nat, s: System, push: Push)
    requires Good(cfg, s.blobs, s.log) && PushInv(cfg, rank, Stored(s.log), s.blobs, push)
    requires push.phase.Writing? && push.since == |s.log|
    ensures Lists(cfg, s.log, push)
  {
    hide PushInv, Stored, InClosure, ChildrenFirst, Tips, RefsOf;
    WritingFacts(cfg, rank, Stored(s.log), s.blobs, push);
    OrderLists(cfg, Stored(s.log), push.order, Tips(push.updates));
    assert s.log[..|s.log|] == s.log;
  }

  /** Committing the refs: the record is the commands executed on the refs as they are. */
  lemma CommitMoves(log: seq<Record>, us: seq<RefUpdate>)
    ensures var txn := ReadSteps(RefsOf(log), us); Moved(log + [RefRecord(txn.writes)], |log|, us, txn.results)
  {
    hide RefsOf, Executes, ReadSteps, Overlay, ApplyAll;
    var r := RefRecord(ReadSteps(RefsOf(log), us).writes);
    ReadStepsApply(RefsOf(log), us);
    StoredGrows(log, r);
    assert (log + [r])[..|log|] == log && (log + [r])[..|log| + 1] == log + [r];
  }

  /** The accounts of the push that makes a step. */
  lemma StepAccounted(cfg: Config, rank: Oid -> nat, s: System, id: nat, a: Action, s': System)
    requires Inv(cfg, rank, s) && id in s.pushes && PushStep(cfg, s, id, s.pushes[id], a, s') && s.log <= s'.log
    requires StepOk(cfg, rank, s, id, s')
    ensures Accounted(cfg, s'.log, s'.pushes[id])
  {
    hide EveryPrefixGood, Stored, RefsOf, Executes, InClosure, Tips, PushInv, ReadSteps, WalkStep, Stuck, Large, Good,
         Lists, Moved, ChildrenFirst, WriteOrder;
    var push := s.pushes[id];
    AccountedMore(cfg, s.log, s'.log, push);
    if a.BeginWrites? {
      WholeGood(cfg, s.blobs, s.log);
      ListsAtStart(cfg, rank, s, s'.pushes[id]);
    } else if a.CommitRefs? {
      CommitMoves(s.log, push.updates);
      ListsKept(cfg, s'.log, push, s'.pushes[id]);
    } else if !a.Visit? {
      ListsKept(cfg, s'.log, push, s'.pushes[id]);
    }
  }

  lemma ListsKept(cfg: Config, log: seq<Record>, push: Push, push': Push)
    requires push'.order == push.order && push'.since == push.since && push'.updates == push.updates
    requires Lists(cfg, log, push)
    ensures Lists(cfg, log, push')
  {
  }

  lemma AcksStay(log: seq<Record>, durable: nat, acked: map<nat, Ack>, log': seq<Record>, durable': nat)
    requires AcksHold(log, durable, acked) && durable <= durable' && durable <= |log'| && durable <= |log|
    requires log'[..durable] == log[..durable]
    ensures AcksHold(log', durable', acked)
  {
    hide Moved;
    forall n | n in acked
      ensures Moved(log', n, acked[n].updates, acked[n].results)
    {
      assert log'[..n + 1] == log'[..durable][..n + 1] && log[..n + 1] == log[..durable][..n + 1];
      MovedStays(log, log', n, acked[n].updates, acked[n].results);
    }
  }

  /** What a step does to the answers: commit, answer what was committed, or neither. */
  ghost predicate AnswerStep(s: System, id: nat, s': System)
    requires id in s.pushes
  {
    && id in s'.pushes && s'.pushes == s.pushes[id := s'.pushes[id]]
    && match s'.pushes[id].phase
       case Committed(at, _) => at == |s.log| && s'.acked == s.acked
       case Answered(at, results) =>
         && s.pushes[id].phase == Committed(at, results)
         && s'.acked == s.acked[at := Ack(s'.pushes[id].updates, results)]
       case _ => s'.acked == s.acked
  }

  lemma StepShape(cfg: Config, s: System, id: nat, a: Action, s': System)
    requires id in s.pushes && PushStep(cfg, s, id, s.pushes[id], a, s')
    ensures AnswerStep(s, id, s')
  {
    hide Stored, RefsOf, ReadSteps, WalkStep, Stuck, Large, WriteOrder, OfKind;
  }

  /** Each commit is answered at most once, with its own commands. */
  lemma StepAnswers(s: System, id: nat, s': System)
    requires id in s.pushes && AnswerStep(s, id, s') && Answers(s.acked, s.pushes)
    requires forall i :: Commits(s.pushes, i) ==> s.pushes[i].phase.at < |s.log|
    requires forall n :: n in s.acked ==> n < |s.log|
    ensures Answers(s'.acked, s'.pushes)
  {
    assert Commits(s.pushes, id) <==> s.pushes[id].phase.Committed?;
    forall i | i != id
      ensures Commits(s'.pushes, i) <==> Commits(s.pushes, i)
    {
    }
  }

  lemma StepAcks(cfg: Config, s: System, id: nat, a: Action, s': System)
    requires id in s.pushes && PushStep(cfg, s, id, s.pushes[id], a, s') && DurableKept(s, s')
    requires AcksHold(s.log, s.durable, s.acked) && Accounted(cfg, s.log, s.pushes[id])
    ensures AcksHold(s'.log, s'.durable, s'.acked)
  {
    hide Stored, RefsOf, ReadSteps, WalkStep, Stuck, Large, WriteOrder, OfKind, Moved, Accounted;
    AcksStay(s.log, s.durable, s.acked, s'.log, s'.durable);
    if a.Acknowledge? {
      CommittedMoved(cfg, s.log, s.pushes[id]);
    }
  }

  lemma FlushedMore(cfg: Config, durable: seq<Record>, more: seq<Record>, push: Push, push': Push)
    requires Flushed(cfg, durable, push) && durable <= more
    requires push'.updates == push.updates && push'.order == push.order
    ensures Flushed(cfg, more, push')
  {
    hide InClosure, Tips, IsCommit;
    assert forall r :: r in durable ==> r in more;
  }

  /** A flush makes the whole log durable, and with it the closure of the tips, which are stored. */
  lemma FlushCovers(cfg: Config, blobs: set<Oid>, log: seq<Record>, push: Push)
    requires Good(cfg, blobs, log) && Tips(push.updates) <= Stored(log) && Graphed(cfg, log, push.order)
    ensures Flushed(cfg, log, push)
  {
    hide Reachable, Stored, Tips, RefsOf, Graphed, Children;
    ReachClosed(ObjectEdges(cfg.world), Tips(push.updates), iset x | x in Stored(log));
  }

  lemma TipsStored(cfg: Config, rank: Oid -> nat, stored: set<Oid>, blobs: set<Oid>, push: Push)
    requires PushInv(cfg, rank, stored, blobs, push) && push.phase.Flushing?
    ensures Tips(push.updates) <= stored
  {
  }

  /** What a step does to flushed pushes: only a flush adds one, and the durable prefix only grows. */
  lemma StepPhases(cfg: Config, s: System, id: nat, a: Action, s': System)
    requires id in s.pushes && PushStep(cfg, s, id, s.pushes[id], a, s') && id in s'.pushes
    ensures PastFlush(s'.pushes[id].phase) ==>
              && s'.pushes[id].updates == s.pushes[id].updates && s'.pushes[id].order == s.pushes[id].order
              && (PastFlush(s.pushes[id].phase) ||
                  (s.pushes[id].phase.Flushing? && s'.log == s.log && s'.durable == |s.log|))
  {
    hide Stored, RefsOf, ReadSteps, WalkStep, Stuck, Large, WriteOrder, OfKind;
  }

  lemma StepFlushed(cfg: Config, rank: Oid -> nat, s: System, id: nat, a: Action, s': System)
    requires Inv(cfg, rank, s) && id in s.pushes && PushStep(cfg, s, id, s.pushes[id], a, s') && id in s'.pushes
    requires DurableKept(s, s')
    requires s'.pushes.Keys == s.pushes.Keys && forall i :: i in s.pushes && i != id ==> s'.pushes[i] == s.pushes[i]
    ensures s'.durable <= |s'.log| && AllFlushed(cfg, s'.log[..s'.durable], s'.pushes)
  {
    hide EveryPrefixGood, Stored, PushInv, Accounted, PushStep, Answers, AcksHold, Flushed, Good, Tips, PastFlush;
    var was, now := s.log[..s.durable], s'.log[..s'.durable];
    assert was <= now by {
      assert s'.log[..s'.durable][..s.durable] == s'.log[..s.durable];
    }
    StepPhases(cfg, s, id, a, s');
    forall i | i in s'.pushes && PastFlush(s'.pushes[i].phase)
      ensures Flushed(cfg, now, s'.pushes[i])
    {
      if PastFlush(s.pushes[i].phase) {
        FlushedMore(cfg, was, now, s.pushes[i], s'.pushes[i]);
      } else {
        assert i == id;
        NewlyFlushed(cfg, rank, s, id);
        assert now == s.log;
        FlushedMore(cfg, now, now, s.pushes[id], s'.pushes[id]);
      }
    }
  }

  lemma NewlyFlushed(cfg: Config, rank: Oid -> nat, s: System, id: nat)
    requires Inv(cfg, rank, s) && id in s.pushes && s.pushes[id].phase.Flushing?
    ensures Flushed(cfg, s.log, s.pushes[id])
  {
    hide EveryPrefixGood, Stored, PushInv, Answers, AcksHold, Flushed, Good, Tips, AllFlushed, Lists;
    WholeGood(cfg, s.blobs, s.log);
    TipsStored(cfg, rank, Stored(s.log), s.blobs, s.pushes[id]);
    assert Accounted(cfg, s.log, s.pushes[id]);
    FlushCovers(cfg, s.blobs, s.log, s.pushes[id]);
  }

  lemma StepLedger(cfg: Config, rank: Oid -> nat, s: System, id: nat, a: Action, s': System)
    requires Inv(cfg, rank, s) && id in s.pushes && PushStep(cfg, s, id, s.pushes[id], a, s')
    requires StepOk(cfg, rank, s, id, s') && s.log <= s'.log && DurableKept(s, s')
    requires s'.pushes.Keys == s.pushes.Keys && forall i :: i in s.pushes && i != id ==> s'.pushes[i] == s.pushes[i]
    ensures Ledger(cfg, s')
  {
    hide EveryPrefixGood, Stored, PushInv, StepOk, Accounted, Moved, PushStep, Answers, DurableKept, AnswerStep,
         AllFlushed;
    forall i | Commits(s.pushes, i)
      ensures s.pushes[i].phase.at < |s.log|
    {
      CommittedMoved(cfg, s.log, s.pushes[i]);
    }
    StepShape(cfg, s, id, a, s');
    StepAnswers(s, id, s');
    StepAcks(cfg, s, id, a, s');
    StepAccounted(cfg, rank, s, id, a, s');
    StepFlushed(cfg, rank, s, id, a, s');
    forall i | i in s'.pushes
      ensures Accounted(cfg, s'.log, s'.pushes[i])
    {
      if i != id {
        AccountedMore(cfg, s.log, s'.log, s.pushes[i]);
      }
    }
  }

  lemma CommittedMoved(cfg: Config, log: seq<Record>, push: Push)
    requires Accounted(cfg, log, push) && push.phase.Committed?
    ensures Moved(log, push.phase.at, push.updates, push.phase.results) && push.phase.at < |log|
  {
    hide Executes, RefsOf, Lists, Graphed;
  }

  lemma OutsideLedger(cfg: Config, s: System, id: nat, a: Action, s': System)
    requires Ledger(cfg, s) && s.durable <= |s.log|
    requires Next(cfg, s, id, a, s') && (a.Receive? || a.Crash? || a.Abort? || a.Backfill?)
    ensures Ledger(cfg, s')
  {
    hide Stored, PushStep, Accounted, Moved, Tips, EnterTips, Flushed;
    assert s'.log[..s.durable] == s.log[..s.durable];
    forall i | i in s.pushes && PastFlush(s.pushes[i].phase)
      ensures Flushed(cfg, s'.log[..s'.durable], s.pushes[i])
    {
      assert s'.log[..s'.durable][..s.durable] == s'.log[..s.durable];
      FlushedMore(cfg, s.log[..s.durable], s'.log[..s'.durable], s.pushes[i], s.pushes[i]);
    }
    AcksStay(s.log, s.durable, s.acked, s'.log, s'.durable);
    if a.Receive? {
      ReceivedAccounted(cfg, s.log, a.staged, a.updates, a.tips);
    }
    forall i | i in s.pushes && s.log <= s'.log
      ensures Accounted(cfg, s'.log, s.pushes[i])
    {
      AccountedMore(cfg, s.log, s'.log, s.pushes[i]);
    }
    OutsideAnswers(cfg, s, id, a, s');
  }

  lemma ReceivedAccounted(cfg: Config, log: seq<Record>, staged: Objects, updates: seq<RefUpdate>, tips: seq<Oid>)
    ensures Accounted(cfg, log, Received(staged, updates, tips))
  {
  }

  lemma OutsideAnswers(cfg: Config, s: System, id: nat, a: Action, s': System)
    requires Answers(s.acked, s.pushes) && Next(cfg, s, id, a, s')
    requires a.Receive? || a.Crash? || a.Abort? || a.Backfill?
    ensures Answers(s'.acked, s'.pushes)
  {
    hide Stored, PushStep, Tips, EnterTips;
    assert forall i :: Commits(s'.pushes, i) ==> Commits(s.pushes, i);
  }

  /** Receiving, aborting, backfilling and crashing. */
  lemma OutsideKeeps(cfg: Config, rank: Oid -> nat, s: System, id: nat, a: Action, s': System)
    requires Inv(cfg, rank, s) && Next(cfg, s, id, a, s') && (a.Receive? || a.Crash? || a.Abort? || a.Backfill?)
    ensures Inv(cfg, rank, s') && DurableKept(s, s')
  {
    hide EveryPrefixGood, Stored, PushInv, PushStep, Good, Ledger;
    OutsideLedger(cfg, s, id, a, s');
    match a
    case Receive(staged, updates, tips) =>
      ReceivedOk(cfg, rank, staged, updates, tips, Stored(s.log), s.blobs);
    case Crash(keep) =>
      PrefixesCut(cfg, s.blobs, s.log, keep);
      assert s.log[..keep][..s.durable] == s.log[..s.durable];
    case Backfill(x) =>
      WholeGood(cfg, s.blobs, s.log);
      GraphAppended(cfg, s.blobs, s.log, x);
      PrefixesExtend(cfg, s.blobs, s.blobs, s.log, GraphRecord(x));
      StoredGrows(s.log, GraphRecord(x));
      assert Stored(s'.log) == Stored(s.log);
      assert s'.log[..s.durable] == s.log[..s.durable];
    case _ =>
  }

  lemma PushStepKeeps(cfg: Config, rank: Oid -> nat, kind: Oid -> Kind, s: System, id: nat, a: Action, s': System)
    requires Inv(cfg, rank, s) && Acyclic(cfg.world, rank) && KindsAgree(cfg.world, kind)
    requires id in s.pushes && PushStep(cfg, s, id, s.pushes[id], a, s')
    ensures Inv(cfg, rank, s') && DurableKept(s, s')
  {
    hide EveryPrefixGood, Stored, Acyclic, KindsAgree, PushInv, PushStep, DurableKept, AcksHold, AllAccounted, Answers,
         AllFlushed;
    StepOfPushOk(cfg, rank, kind, s, id, a, s');
    StepFrame(cfg, s, id, a, s');
    DurableBound(s, s');
    StepLedger(cfg, rank, s, id, a, s');
    forall i | i in s'.pushes && i != id
      ensures PushInv(cfg, rank, Stored(s'.log), s'.blobs, s'.pushes[i])
    {
      StoreGrowthKeepsPush(cfg, rank, Stored(s.log), Stored(s'.log), s.blobs, s'.blobs, s.pushes[i]);
    }
  }

  lemma DurableBound(s: System, s': System)
    requires DurableKept(s, s')
    ensures s'.durable <= |s'.log|
  {
  }

  lemma NextKeeps(cfg: Config, rank: Oid -> nat, kind: Oid -> Kind, s: System, id: nat, a: Action, s': System)
    requires Inv(cfg, rank, s) && Acyclic(cfg.world, rank) && KindsAgree(cfg.world, kind) && Next(cfg, s, id, a, s')
    ensures Inv(cfg, rank, s') && DurableKept(s, s')
  {
    hide Inv, Acyclic, KindsAgree, PushStep, DurableKept;
    if a.Receive? || a.Crash? || a.Abort? || a.Backfill? {
      OutsideKeeps(cfg, rank, s, id, a, s');
    } else {
      PushStepKeeps(cfg, rank, kind, s, id, a, s');
    }
  }

  lemma ReceivedOk(cfg: Config, rank: Oid -> nat, staged: Objects, updates: seq<RefUpdate>, tips: seq<Oid>,
                   stored: set<Oid>, blobs: set<Oid>)
    requires Consistent(cfg.world, staged) && Elements(tips) == Tips(updates)
    ensures PushInv(cfg, rank, stored, blobs, Received(staged, updates, tips))
  {
    hide WalkInv;
    StartKeeps(staged, rank, tips, stored);
  }

  // -------------------------------------------------------------- every run

  /** A new repository holds at most its symbolic `HEAD`. */
  ghost predicate Init(s: System) {
    && s.blobs == {} && s.durable == |s.log| && s.acked == map[] && s.pushes == map[]
    && forall r :: r in s.log ==> r.RefRecord? && forall n :: n in r.writes && r.writes[n].Some? ==>
      r.writes[n].value.Symbolic?
  }

  ghost predicate Steps(cfg: Config, s: System, s': System) {
    exists id, a :: Next(cfg, s, id, a, s')
  }

  ghost predicate IsRun(cfg: Config, run: seq<System>) {
    && |run| > 0 && Init(run[0])
    && forall i :: 0 <= i < |run| - 1 ==> Steps(cfg, run[i], run[i + 1])
  }

  lemma {:induction false} SymbolicOnly(log: seq<Record>, n: string)
    requires forall r :: r in log ==>
            r.RefRecord? && forall m :: m in r.writes && r.writes[m].Some? ==> r.writes[m].value.Symbolic?
    ensures n in RefsOf(log) ==> RefsOf(log)[n].Symbolic?
    decreases |log|
  {
    if log != [] {
      assert log[|log| - 1] in log;
      SymbolicOnly(log[..|log| - 1], n);
    }
  }

  lemma InitInv(cfg: Config, rank: Oid -> nat, s: System)
    requires Init(s)
    ensures Inv(cfg, rank, s)
  {
    hide RefsOf;
    forall k | 0 <= k <= |s.log|
      ensures Good(cfg, s.blobs, s.log[..k])
    {
      assert forall r :: r in s.log[..k] ==> r in s.log;
      assert Stored(s.log[..k]) == {};
      forall n | n in RefsOf(s.log[..k])
        ensures RefsOf(s.log[..k])[n].Symbolic?
      {
        SymbolicOnly(s.log[..k], n);
      }
    }
  }

  lemma {:induction false} RunKeeps(cfg: Config, rank: Oid -> nat, kind: Oid -> Kind, run: seq<System>, k: nat)
    requires Acyclic(cfg.world, rank) && KindsAgree(cfg.world, kind) && IsRun(cfg, run) && k < |run|
    ensures Inv(cfg, rank, run[k])
  {
    hide Next, Inv, Acyclic, KindsAgree;
    if k == 0 {
      InitInv(cfg, rank, run[0]);
    } else {
      RunKeeps(cfg, rank, kind, run, k - 1);
      assert Steps(cfg, run[k - 1], run[k - 1 + 1]);
      var id, a :| Next(cfg, run[k - 1], id, a, run[k]);
      NextKeeps(cfg, rank, kind, run[k - 1], id, a, run[k]);
    }
  }

  /**
   Over every run of concurrent pushes with crashes, every prefix of the log is consistent: each
   stored object has its whole closure stored, each offloaded blob its content, and each direct
   ref names a stored object.
   */
  lemma PushesAreCrashSafe(cfg: Config, rank: Oid -> nat, kind: Oid -> Kind, run: seq<System>, k: nat, n: nat)
    requires Acyclic(cfg.world, rank) && KindsAgree(cfg.world, kind) && IsRun(cfg, run) && k < |run|
    requires n <= |run[k].log|
    ensures var log := run[k].log[..n];
      && (forall x :: InClosure(cfg.world, Stored(log), x) ==> x in Stored(log) && x in cfg.world)
      && (forall r :: r in log && r.ObjectRecord? && r.pointer ==> r.oid in run[k].blobs)
      && (forall r :: r in log && r.ObjectRecord? ==>
            && r.oid in cfg.world
            && (r.pointer <==> cfg.world[r.oid].BlobObject? && cfg.world[r.oid].size > cfg.inlineThreshold))
      && (forall name :: name in RefsOf(log) && RefsOf(log)[name].Direct? ==> RefsOf(log)[name].oid in Stored(log))
      && (forall r :: r in log && r.GraphRecord? ==> r.oid in Stored(log))
  {
    hide RefsOf, Stored, Acyclic, KindsAgree, IsRun, Reachable;
    RunKeeps(cfg, rank, kind, run, k);
    var log := run[k].log[..n];
    assert Good(cfg, run[k].blobs, log);
    RecordsStored(log);
    ReachClosed(ObjectEdges(cfg.world), Stored(log), iset x | x in Stored(log));
  }

  /**
   What a client was told stays true through any crash: its ref record is in the log for good, and is
   what its commands, one by one with the outcomes reported, did to the refs before it.
   */
  lemma {:induction false} AcknowledgedSurvives(cfg: Config, rank: Oid -> nat, kind: Oid -> Kind, run: seq<System>,
                                                j: nat, k: nat, at: nat)
    requires Acyclic(cfg.world, rank) && KindsAgree(cfg.world, kind) && IsRun(cfg, run) && j <= k < |run|
    requires at in run[j].acked
    ensures at < run[j].durable <= run[k].durable <= |run[k].log|
    ensures at < |run[j].log| && run[k].log[at] == run[j].log[at]
    ensures at in run[k].acked && run[k].acked[at] == run[j].acked[at]
    ensures var Ack(us, results) := run[j].acked[at]; var log := run[k].log;
      Executes(RefsOf(log[..at]), us, results, RefsOf(log[..at + 1]))
    decreases k - j
  {
    hide Next, Acyclic, KindsAgree, EveryPrefixGood, PushInv, Executes, RefsOf, AllAccounted, Answers,
         AllFlushed;
    RunKeeps(cfg, rank, kind, run, j);
    RunKeeps(cfg, rank, kind, run, k);
    if j < k {
      AcknowledgedSurvives(cfg, rank, kind, run, j, k - 1, at);
      RunKeeps(cfg, rank, kind, run, k - 1);
      assert Steps(cfg, run[k - 1], run[k - 1 + 1]);
      var id, a :| Next(cfg, run[k - 1], id, a, run[k]);
      NextKeeps(cfg, rank, kind, run[k - 1], id, a, run[k]);
      assert run[k].log[at] == run[k].log[..run[k - 1].durable][at] == run[k - 1].log[at];
    }
    assert Moved(run[k].log, at, run[k].acked[at].updates, run[k].acked[at].results);
  }

  lemma RecordsStored(log: seq<Record>)
    ensures forall r :: r in log && r.ObjectRecord? ==> r.oid in Stored(log)
  {
  }

  /** A client is told the outcomes of its own commands. */
  lemma AnsweredIsOnRecord(cfg: Config, rank: Oid -> nat, kind: Oid -> Kind, run: seq<System>, k: nat, id: nat)
    requires Acyclic(cfg.world, rank) && KindsAgree(cfg.world, kind) && IsRun(cfg, run) && k < |run|
    requires id in run[k].pushes && run[k].pushes[id].phase.Answered?
    ensures var push := run[k].pushes[id];
      push.phase.at in run[k].acked && run[k].acked[push.phase.at] == Ack(push.updates, push.phase.results)
  {
    hide IsRun, Acyclic, KindsAgree, EveryPrefixGood, PushInv, AcksHold, AllAccounted;
    RunKeeps(cfg, rank, kind, run, k);
  }

  /** Before a push touches a ref, everything its tips reach is in the part of the log no crash can take. */
  lemma PromotedIsDurable(cfg: Config, rank: Oid -> nat, kind: Oid -> Kind, run: seq<System>, k: nat, id: nat, x: Oid)
    requires Acyclic(cfg.world, rank) && KindsAgree(cfg.world, kind) && IsRun(cfg, run) && k < |run|
    requires id in run[k].pushes && PastFlush(run[k].pushes[id].phase)
    requires InClosure(cfg.world, Tips(run[k].pushes[id].updates), x)
    ensures run[k].durable <= |run[k].log| && x in Stored(run[k].log[..run[k].durable])
  {
    hide IsRun, Acyclic, KindsAgree, EveryPrefixGood, PushInv, AcksHold, Answers, InClosure, Accounted;
    RunKeeps(cfg, rank, kind, run, k);
    assert Flushed(cfg, run[k].log[..run[k].durable], run[k].pushes[id]);
  }

  /**
   When a push has extended the commit graph, every commit its tips reach has its graph record, unless
   the commit was stored before the push began to write.
   */
  lemma PushedCommitsRecorded(cfg: Config, rank: Oid -> nat, kind: Oid -> Kind, run: seq<System>, k: nat, id: nat,
                              x: Oid)
    requires Acyclic(cfg.world, rank) && KindsAgree(cfg.world, kind) && IsRun(cfg, run) && k < |run|
    requires id in run[k].pushes
    requires var phase := run[k].pushes[id].phase; !phase.Validating? && !phase.Writing? && !phase.Extending?
    requires InClosure(cfg.world, Tips(run[k].pushes[id].updates), x) && IsCommit(cfg.world, x)
    ensures var log, since := run[k].log, run[k].pushes[id].since;
      since <= |log| && (x in Stored(log[..since]) || GraphRecord(x) in log)
  {
    hide IsRun, Acyclic, KindsAgree, EveryPrefixGood, PushInv, AcksHold, Answers, InClosure, Moved;
    RunKeeps(cfg, rank, kind, run, k);
    assert Accounted(cfg, run[k].log, run[k].pushes[id]);
  }
}
