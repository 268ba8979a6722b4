/**
 Repository creation as an optimistic transaction over two keys: the name's
 mapping and the shared id counter. Over every interleaving of creators, names
 map to distinct non-zero ids below the counter, and all callers for one name
 that succeed get one id.
 */
module RepoRegistry {
  import opened Options

  const FIRST_REPO_ID := 1
  const CREATE_ATTEMPTS := 32

  datatype Registry = Registry(names: map<string, nat>, counter: Option<nat>)

  function NextId(r: Registry): nat {
    if r.counter.Some? then r.counter.value else FIRST_REPO_ID
  }

  /** The specification: return the mapped id, or map the name to the next id. */
  function GetOrCreate(r: Registry, name: string): (Registry, nat) {
    if name in r.names then (r, r.names[name])
    else (Registry(r.names[name := NextId(r)], Some(NextId(r) + 1)), NextId(r))
  }

  datatype Creator =
    | Waiting(name: string, attempt: nat)
    | Open(name: string, attempt: nat, snapshot: Registry)
    | Created(name: string, id: nat)
    | Contended(name: string)
    | Failed(name: string)

  datatype State = State(registry: Registry, creators: map<nat, Creator>)

  datatype Action = Call(name: string) | Begin | FindExisting | Commit(answered: bool) | Conflict | Break

  ghost predicate Init(s: State) {
    s == State(Registry(map[], None), map[])
  }

  ghost predicate Next(s: State, c: nat, a: Action, s': State) {
    match a
    case Call(name) =>
      c !in s.creators && s' == s.(creators := s.creators[c := Waiting(name, 0)])
    case Begin =>
      && c in s.creators && s.creators[c].Waiting?
      && s' == s.(creators := s.creators[c := Open(s.creators[c].name, s.creators[c].attempt, s.registry)])
    case FindExisting =>
      && c in s.creators && s.creators[c].Open? && s.creators[c].name in s.creators[c].snapshot.names
      && s' == s.(creators := s.creators[c := Created(s.creators[c].name,
                                                      s.creators[c].snapshot.names[s.creators[c].name])])
    case Break =>
      && c in s.creators && (s.creators[c].Waiting? || s.creators[c].Open?)
      && s' == s.(creators := s.creators[c := Failed(s.creators[c].name)])
    case Commit(answered) =>
      // A creator that errs or is cancelled while it waits for its commit may have created the repository.
      // Succeeds only if what was read, the absent mapping and the counter, is unchanged.
      && c in s.creators && s.creators[c].Open?
      && var Open(name, attempt, snapshot) := s.creators[c];
         && name !in snapshot.names && name !in s.registry.names && s.registry.counter == snapshot.counter
         && s' == State(Registry(s.registry.names[name := NextId(snapshot)], Some(NextId(snapshot) + 1)),
                        s.creators[c := if answered then Created(name, NextId(snapshot)) else Failed(name)])
    case Conflict =>
      && c in s.creators && s.creators[c].Open?
      && var Open(name, attempt, snapshot) := s.creators[c];
         s' == s.(creators := s.creators[c := if attempt + 1 >= CREATE_ATTEMPTS then Contended(name)
                                         else Waiting(name, attempt + 1)])
  }

  /** Names map to distinct non-zero ids, all below the counter. */
  ghost predicate RegistryOk(r: Registry) {
    && FIRST_REPO_ID <= NextId(r)
    && (forall n :: n in r.names ==> FIRST_REPO_ID <= r.names[n] < NextId(r))
    && (forall n, m :: n in r.names && m in r.names && r.names[n] == r.names[m] ==> n == m)
  }

  ghost predicate MapsTo(r: Registry, name: string, id: nat) {
    name in r.names && r.names[name] == id
  }

  /** What a creator has seen or been given is still so. */
  ghost predicate CreatorOk(r: Registry, c: Creator) {
    match c
    case Waiting(_, attempt) => attempt < CREATE_ATTEMPTS
    case Created(name, id) => MapsTo(r, name, id)
    case Open(_, attempt, snapshot) => attempt < CREATE_ATTEMPTS && Extends(snapshot, r)
    case _ => true
  }

  ghost predicate Extends(r: Registry, r': Registry) {
    forall n :: n in r.names ==> MapsTo(r', n, r.names[n])
  }

  ghost predicate Inv(s: State) {
    && RegistryOk(s.registry)
    && forall c :: c in s.creators ==> CreatorOk(s.registry, s.creators[c])
  }

  lemma CreateKeeps(r: Registry, name: string)
    requires RegistryOk(r)
    ensures var (r', id) := GetOrCreate(r, name); RegistryOk(r') && Extends(r, r') && MapsTo(r', name, id)
  {
  }

  lemma ExtendsKeeps(r: Registry, r': Registry, c: Creator)
    requires Extends(r, r') && CreatorOk(r, c)
    ensures CreatorOk(r', c)
  {
  }

  /** Each step keeps the invariant, and a step that changes the registry is one atomic creation. */
  lemma NextKeeps(s: State, c: nat, a: Action, s': State)
    requires Inv(s) && Next(s, c, a, s')
    ensures Inv(s') && Extends(s.registry, s'.registry)
    ensures s'.registry == s.registry || (a.Commit? && s'.registry == GetOrCreate(s.registry, s.creators[c].name).0)
    ensures a == Commit(true) ==> s'.creators[c].id == GetOrCreate(s.registry, s.creators[c].name).1
    ensures a == FindExisting ==> (s.registry, s'.creators[c].id) == GetOrCreate(s.registry, s.creators[c].name)
  {
    assert CreatorOk(s.registry, if c in s.creators then s.creators[c] else Contended(""));
    if a.Commit? {
      CreateKeeps(s.registry, s.creators[c].name);
    }
    forall d | d in s'.creators && d != c
      ensures CreatorOk(s'.registry, s'.creators[d])
    {
      ExtendsKeeps(s.registry, s'.registry, s.creators[d]);
    }
  }

  ghost predicate Steps(s: State, s': State) {
    exists c, a :: Next(s, c, a, s')
  }

  ghost predicate IsRun(run: seq<State>) {
    && |run| > 0 && Init(run[0])
    && forall i :: 0 <= i < |run| - 1 ==> Steps(run[i], run[i + 1])
  }

  lemma {:induction false} RunKeeps(run: seq<State>, k: nat)
    requires IsRun(run) && k < |run|
    ensures Inv(run[k])
  {
    hide Next, Inv;
    if k == 0 {
      InitInv(run[0]);
    } else {
      RunKeeps(run, k - 1);
      assert Steps(run[k - 1], run[k - 1 + 1]);
      var c, a :| Next(run[k - 1], c, a, run[k]);
      NextKeeps(run[k - 1], c, a, run[k]);
    }
  }

  lemma InitInv(s: State)
    requires Init(s)
    ensures Inv(s)
  {
  }

  /** A mapping, once made, is never changed. */
  lemma {:induction false} MappingStays(run: seq<State>, j: nat, k: nat, name: string)
    requires IsRun(run) && j <= k < |run| && name in run[j].registry.names
    ensures MapsTo(run[k].registry, name, run[j].registry.names[name])
    decreases k - j
  {
    hide Next, Inv;
    if j < k {
      MappingStays(run, j, k - 1, name);
      RunKeeps(run, k - 1);
      assert Steps(run[k - 1], run[k - 1 + 1]);
      var c, a :| Next(run[k - 1], c, a, run[k]);
      NextKeeps(run[k - 1], c, a, run[k]);
    }
  }

  /** Callers that succeed, at any two moments of a run, agree on a name's id and never share an id between names. */
  lemma CreatorsAgree(run: seq<State>, j: nat, k: nat, c: nat, d: nat)
    requires IsRun(run) && j <= k < |run|
    requires c in run[j].creators && run[j].creators[c].Created?
    requires d in run[k].creators && run[k].creators[d].Created?
    ensures run[j].creators[c].id == run[k].creators[d].id <==> run[j].creators[c].name == run[k].creators[d].name
    ensures FIRST_REPO_ID <= run[j].creators[c].id < NextId(run[k].registry)
  {
    hide IsRun;
    RunKeeps(run, j);
    RunKeeps(run, k);
    MappingStays(run, j, k, run[j].creators[c].name);
  }
}
