/**
 Phase I entry point: peel the wants to commits, mark haves and wants, and run
 commit discovery. The tag objects walked through are sent after the commits.
 */
module WantSelection {
  import opened Reachability
  import opened GitObjects
  import opened OrderedSets
  import opened CommitDiscovery

  datatype Selection = Selection(toSend: seq<Oid>, common: seq<Oid>, boundedByHaves: bool)

  /** `tags` lead from `want` to `end`, one tag object to the next. */
  ghost predicate ChainTo(objects: Objects, want: Oid, tags: seq<Oid>, end: Oid) {
    && want == (if tags == [] then end else tags[0])
    && forall i :: 0 <= i < |tags| ==> LinkAt(objects, tags, end, i)
  }

  /** The chain ends at a commit. */
  ghost predicate TagChain(objects: Objects, want: Oid, tags: seq<Oid>, target: Oid) {
    ChainTo(objects, want, tags, target) && target in objects && objects[target].CommitObject?
  }

  ghost predicate LinkAt(objects: Objects, tags: seq<Oid>, target: Oid, i: nat)
    requires i < |tags|
  {
    tags[i] in objects && objects[tags[i]] == TagObject(if i + 1 < |tags| then tags[i + 1] else target)
  }

  ghost predicate IsTag(objects: Objects, x: Oid) {
    x in objects && objects[x].TagObject?
  }

  ghost predicate Servable(objects: Objects, want: Oid) {
    exists tags, target :: TagChain(objects, want, tags, target)
  }

  /** A want that cannot be served: its tag chain ends at nothing, at once or behind a tag, or not at a commit. */
  ghost predicate Unservable(objects: Objects, want: Oid, e: WalkError) {
    exists tags, end :: ChainTo(objects, want, tags, end) && Blocked(objects, tags, end, e)
  }

  ghost predicate Blocked(objects: Objects, tags: seq<Oid>, end: Oid, e: WalkError) {
    match e
    case UnknownWant(w) => tags == [] && w == end && end !in objects
    case MissingObject(m) => tags != [] && m == end && end !in objects
    case UnsupportedWant(t, k) => t == end && end in objects && KindOf(objects[end]) == k && (k == Tree || k == Blob)
    case _ => false
  }

  lemma ChainTail(objects: Objects, want: Oid, tags: seq<Oid>, end: Oid)
    requires ChainTo(objects, want, tags, end) && tags != []
    ensures IsTag(objects, want) && ChainTo(objects, objects[want].target, tags[1..], end)
  {
    var rest := tags[1..];
    assert LinkAt(objects, tags, end, 0);
    forall i | 0 <= i < |rest|
      ensures LinkAt(objects, rest, end, i)
    {
      assert LinkAt(objects, tags, end, i + 1);
    }
  }

  /** Two chains from one want that end at no tag are the same chain. */
  lemma {:induction false} ChainsMeet(objects: Objects, want: Oid, a: seq<Oid>, x: Oid, b: seq<Oid>, y: Oid)
    requires ChainTo(objects, want, a, x) && ChainTo(objects, want, b, y)
    requires !IsTag(objects, x) && !IsTag(objects, y)
    ensures a == b && x == y
    decreases |a|
  {
    if a != [] {
      ChainTail(objects, want, a, x);
    }
    if b != [] {
      ChainTail(objects, want, b, y);
    }
    if a != [] && b != [] {
      ChainsMeet(objects, objects[want].target, a[1..], x, b[1..], y);
      assert a == [want] + a[1..] && b == [want] + b[1..];
    }
  }

  /** No want is both. */
  lemma BlockedIsNotServed(objects: Objects, want: Oid, e: WalkError)
    requires Unservable(objects, want, e)
    ensures !Servable(objects, want)
  {
    var a, x :| ChainTo(objects, want, a, x) && Blocked(objects, a, x, e);
    forall b, y | TagChain(objects, want, b, y)
      ensures x == y
    {
      ChainsMeet(objects, want, a, x, b, y);
    }
  }

  lemma ChainGrows(objects: Objects, want: Oid, tags: seq<Oid>, x: Oid)
    requires ChainTo(objects, want, tags, x) && x in objects && objects[x].TagObject?
    ensures ChainTo(objects, want, tags + [x], objects[x].target)
  {
    assert forall i :: 0 <= i < |tags| ==>
            LinkAt(objects, tags, x, i) && LinkAt(objects, tags + [x], objects[x].target, i);
  }

  /** Chase a want's tag chain to its commit. */
  method PeelWant(objects: Objects, want: Oid, ghost rank: Oid -> nat) returns (r: Result<(Oid, seq<Oid>)>)
    requires Acyclic(objects, rank)
    ensures r.Ok? <==> Servable(objects, want)
    ensures r.Ok? ==> TagChain(objects, want, r.value.1, r.value.0)
    ensures r.Ok? ==> forall t :: t in r.value.1 + [r.value.0] ==> InClosure(objects, {want}, t)
    ensures r.Err? ==> Unservable(objects, want, r.error)
  {
    hide Reachable;
    var cursor := want;
    var tags: seq<Oid> := [];
    ReachRoot(ObjectEdges(objects), {want}, want);
    while true
      invariant ChainTo(objects, want, tags, cursor)
      invariant InClosure(objects, {want}, cursor)
      invariant forall t :: t in tags ==> InClosure(objects, {want}, t)
      invariant tags != [] ==> rank(cursor) < rank(want)
      decreases rank(cursor)
    {
      if cursor !in objects {
        var e := if cursor == want then UnknownWant(want) else MissingObject(cursor);
        assert Blocked(objects, tags, cursor, e);
        BlockedIsNotServed(objects, want, e);
        return Err(e);
      }
      match objects[cursor]
      case CommitObject(_, _) =>
        assert TagChain(objects, want, tags, cursor);
        return Ok((cursor, tags));
      case TagObject(target) =>
        assert target in Children(objects[cursor]);
        ReachStep(ObjectEdges(objects), {want}, cursor, target);
        ChainGrows(objects, want, tags, cursor);
        tags := tags + [cursor];
        cursor := target;
      case _ =>
        assert Blocked(objects, tags, cursor, UnsupportedWant(cursor, KindOf(objects[cursor])));
        BlockedIsNotServed(objects, want, UnsupportedWant(cursor, KindOf(objects[cursor])));
        return Err(UnsupportedWant(cursor, KindOf(objects[cursor])));
    }
  }

  /** Together, the tags and target commits of all wants. */
  ghost predicate Peeled(objects: Objects, wants: seq<Oid>, targets: seq<Oid>, tags: seq<Oid>) {
    && (forall c :: c in targets ==> c in objects && objects[c].CommitObject?)
    && (forall w :: w in wants ==> w in tags || w in targets)
    && (forall t {:trigger TagInto(objects, t, tags, targets)} :: t in tags ==> TagInto(objects, t, tags, targets))
    && (forall i, j :: 0 <= i < j < |tags| ==> tags[i] != tags[j])
    && (forall t :: t in tags || t in targets ==> InClosure(objects, Elements(wants), t))
  }

  ghost predicate TagInto(objects: Objects, t: Oid, tags: seq<Oid>, targets: seq<Oid>) {
    t in objects && objects[t].TagObject? && (objects[t].target in tags || objects[t].target in targets)
  }

  /** All chains one after the other. */
  ghost function Flat(chains: seq<seq<Oid>>): seq<Oid> {
    if chains == [] then [] else Flat(chains[..|chains| - 1]) + chains[|chains| - 1]
  }

  /** Targets in want order, tags in the order in which the chains first meet them. */
  ghost predicate PeeledInOrder(objects: Objects, wants: seq<Oid>, targets: seq<Oid>, tags: seq<Oid>,
                                chains: seq<seq<Oid>>)
  {
    && |targets| == |chains| == |wants|
    && (forall i :: 0 <= i < |wants| ==> TagChain(objects, wants[i], chains[i], targets[i]))
    && tags == NewIn(Flat(chains), {})
  }

  /** The first want, in want order, that cannot be served. */
  ghost predicate FirstUnservable(objects: Objects, wants: seq<Oid>, e: WalkError) {
    exists i ::
      && 0 <= i < |wants| && Unservable(objects, wants[i], e) && !Servable(objects, wants[i])
      && forall j :: 0 <= j < i ==> Servable(objects, wants[j])
  }

  method PeelWants(objects: Objects, wants: seq<Oid>, ghost rank: Oid -> nat)
    returns (r: Result<(seq<Oid>, seq<Oid>)>, ghost chains: seq<seq<Oid>>)
    requires Acyclic(objects, rank)
    ensures r.Ok? ==> Peeled(objects, wants, r.value.0, r.value.1)
    ensures r.Ok? ==> PeeledInOrder(objects, wants, r.value.0, r.value.1, chains)
    ensures r.Err? ==> FirstUnservable(objects, wants, r.error)
  {
    hide Acyclic, Unservable, Reachable, Children, Peeled, PeeledInOrder, ChainTo;
    var targets: seq<Oid> := [];
    var tags: seq<Oid> := [];
    chains := [];
    NothingPeeled(objects);
    for i := 0 to |wants|
      invariant Peeled(objects, wants[..i], targets, tags) && PeeledInOrder(objects, wants[..i], targets, tags, chains)
      invariant forall j :: 0 <= j < i ==> Servable(objects, wants[j])
    {
      var chain := PeelWant(objects, wants[i], rank);
      if chain.Err? {
        assert Unservable(objects, wants[i], chain.error) && !Servable(objects, wants[i]);
        return Err(chain.error), chains;
      }
      var (target, chainTags) := chain.value;
      var merged := InsertAll(tags, chainTags);
      PeeledNext(objects, wants[..i], wants[i], targets, tags, chains, target, chainTags, merged);
      PeeledMore(objects, wants[..i], wants[i], targets, tags, target, chainTags, merged);
      assert wants[..i + 1] == wants[..i] + [wants[i]];
      targets, tags, chains := targets + [target], merged, chains + [chainTags];
    }
    assert wants[..|wants|] == wants;
    r := Ok((targets, tags));
  }

  lemma NothingPeeled(objects: Objects)
    ensures Peeled(objects, [], [], []) && PeeledInOrder(objects, [], [], [], [])
  {
    hide Reachable;
  }

  lemma PeeledNext(objects: Objects, wants: seq<Oid>, want: Oid, targets: seq<Oid>, tags: seq<Oid>,
                   chains: seq<seq<Oid>>, target: Oid, chain: seq<Oid>, merged: seq<Oid>)
    requires PeeledInOrder(objects, wants, targets, tags, chains) && TagChain(objects, want, chain, target)
    requires merged == tags + NewIn(chain, Elements(tags))
    ensures PeeledInOrder(objects, wants + [want], targets + [target], merged, chains + [chain])
    ensures NoDuplicates(merged) && forall x :: x in merged <==> x in tags || x in chain
  {
    hide TagChain, NewIn;
    var more := chains + [chain];
    assert more[..|chains|] == chains && Flat(more) == Flat(chains) + chain;
    NewInConcat(Flat(chains), chain, {});
    assert {} + Elements(Flat(chains)) == Elements(tags);
  }

  /** Insert into an insertion-ordered set. */
  method InsertAll(order: seq<Oid>, ids: seq<Oid>) returns (r: seq<Oid>)
    ensures r == order + NewIn(ids, Elements(order))
  {
    hide NewIn;
    r := order;
    NewInNothing(Elements(order));
    for n := 0 to |ids|
      invariant r == order + NewIn(ids[..n], Elements(order))
    {
      NewInNext(ids, n, Elements(order));
      if ids[n] !in r {
        r := r + [ids[n]];
      }
    }
    assert ids[..|ids|] == ids;
  }

  lemma PeeledMore(objects: Objects, wants: seq<Oid>, want: Oid, targets: seq<Oid>, tags: seq<Oid>, target: Oid,
                   chain: seq<Oid>, merged: seq<Oid>)
    requires Peeled(objects, wants, targets, tags) && TagChain(objects, want, chain, target)
    requires forall x :: x in merged <==> x in tags || x in chain
    requires forall i, j :: 0 <= i < j < |merged| ==> merged[i] != merged[j]
    requires forall t :: t in chain + [target] ==> InClosure(objects, {want}, t)
    ensures Peeled(objects, wants + [want], targets + [target], merged)
  {
    hide Reachable, Children;
    forall t | t in merged
      ensures TagInto(objects, t, merged, targets + [target])
    {
      if t in tags {
        assert TagInto(objects, t, tags, targets);
      } else {
        var i :| 0 <= i < |chain| && chain[i] == t;
        assert LinkAt(objects, chain, target, i);
      }
    }
    assert want in chain || want == target;
    var more, f := Elements(wants + [want]), ObjectEdges(objects);
    forall r | r in more
      ensures Reachable(f, more, r)
    {
      ReachRoot(f, more, r);
    }
    ReachTrans(f, f, more, Elements(wants));
    ReachTrans(f, f, more, {want});
    assert target in chain + [target] && forall t :: t in chain ==> t in chain + [target];
  }

  /** The commits at the ends of the wants' tag chains. */
  ghost function TargetsOf(objects: Objects, wants: seq<Oid>): set<Oid> {
    set t | t in objects && IsTarget(objects, wants, t)
  }

  ghost predicate IsTarget(objects: Objects, wants: seq<Oid>, t: Oid) {
    exists w, tags :: w in wants && TagChain(objects, w, tags, t)
  }

  lemma TargetsAre(objects: Objects, wants: seq<Oid>, targets: seq<Oid>, tags: seq<Oid>, chains: seq<seq<Oid>>)
    requires PeeledInOrder(objects, wants, targets, tags, chains)
    ensures Elements(targets) == TargetsOf(objects, wants)
  {
    hide ChainTo, NewIn;
    forall t | t in targets
      ensures t in TargetsOf(objects, wants)
    {
      var i :| 0 <= i < |targets| && targets[i] == t;
      assert TagChain(objects, wants[i], chains[i], t);
    }
    forall t | t in TargetsOf(objects, wants)
      ensures t in targets
    {
      var w, own :| w in wants && TagChain(objects, w, own, t);
      var i :| 0 <= i < |wants| && wants[i] == w;
      assert TagChain(objects, wants[i], chains[i], targets[i]);
      ChainsMeet(objects, w, own, t, chains[i], targets[i]);
    }
  }

  lemma EachServable(objects: Objects, wants: seq<Oid>, targets: seq<Oid>, tags: seq<Oid>, chains: seq<seq<Oid>>)
    requires PeeledInOrder(objects, wants, targets, tags, chains)
    ensures forall w :: w in wants ==> Servable(objects, w)
  {
    hide ChainTo, NewIn;
    forall w | w in wants
      ensures Servable(objects, w)
    {
      var i :| 0 <= i < |wants| && wants[i] == w;
      assert TagChain(objects, wants[i], chains[i], targets[i]);
    }
  }

  /** The commits a walk starts from: the peeled wants and the recognised haves. */
  ghost function StartsOf(objects: Objects, g: Graph, wants: seq<Oid>, haves: seq<Oid>): set<Oid> {
    TargetsOf(objects, wants) + KnownAmong(g, haves)
  }

  /** Why a selection can fail; a stalled walk is not among the reasons. */
  ghost predicate SelectionFails(objects: Objects, g: Graph, wants: seq<Oid>, haves: seq<Oid>, e: WalkError) {
    || FirstFault(g, NewIn(haves, {}), e)
    || FirstUnservable(objects, wants, e)
    || Unresolved(g, StartsOf(objects, g, wants, haves), e)
  }

  /** Phase I for commit and tag wants. The ghost results split `toSend` and name the peeled commits. */
  method SelectCommits(objects: Objects, g: Graph, wants: seq<Oid>, haves: seq<Oid>, ghost rank: Oid -> nat)
    returns (r: Result<Selection>, ghost sent: seq<Oid>, ghost tags: seq<Oid>, ghost targets: seq<Oid>,
             ghost chains: seq<seq<Oid>>)
    requires Acyclic(objects, rank)
    ensures r.Err? ==>
            SelectionFails(objects, g, wants, haves, r.error) && !r.error.DiscoveryStalled?
    ensures r.Ok? ==> r.value.toSend == sent + tags && Peeled(objects, wants, targets, tags)
    ensures r.Ok? ==> PeeledInOrder(objects, wants, targets, tags, chains)
    ensures r.Ok? ==> Elements(targets) == TargetsOf(objects, wants)
    ensures r.Ok? ==> Selects(g, Elements(targets), Elements(r.value.common), sent)
    ensures r.Ok? ==> r.value.common == Kept(NewIn(haves, {}), KnownAmong(g, haves))
    ensures r.Ok? && r.value.common == [] ==> !r.value.boundedByHaves
    ensures r.Ok? && !r.value.boundedByHaves ==>
            forall x :: Reachable(ParentEdges(g), StartsOf(objects, g, wants, haves), x) ==> Known(g, x)
    ensures r.Ok? && TrueGenerations(g) ==>
            (r.value.boundedByHaves <==> StopsEarly(g, TargetsOf(objects, wants), KnownAmong(g, haves)))
    ensures r.Ok? ==> forall w :: w in wants ==> Servable(objects, w)
    ensures r.Ok? ==> forall h :: h in haves ==> Known(g, h) || Excused(h, LookupCommit(g, h))
  {
    hide Selects, Peeled, PeeledInOrder, WalkInv, MarkedAll, Reachable, Acyclic, FirstUnservable, FirstFault, NewIn,
         Kept, TargetsOf, Servable, Excused, StopsEarly, SettledAt, TrueGenerations;
    sent, tags, targets, chains := [], [], [], [];
    var d := new Discovery();
    var common, records := MarkHaves(d, g, haves);
    if common.Err? {
      FailsWithoutStall(objects, g, wants, haves, common.error);
      return Err(common.error), sent, tags, targets, chains;
    }
    var peeled;
    peeled, chains := PeelWants(objects, wants, rank);
    if peeled.Err? {
      FailsWithoutStall(objects, g, wants, haves, peeled.error);
      return Err(peeled.error), sent, tags, targets, chains;
    }
    targets, tags := peeled.value.0, peeled.value.1;
    TargetsAre(objects, wants, targets, tags, chains);
    EachServable(objects, wants, targets, tags, chains);
    assert Elements(common.value) == KnownAmong(g, haves);
    var marked, cache := MarkWants(d, g, records, peeled.value.0);
    if marked.Err? {
      WantUnresolved(g, peeled.value.0, records.Keys, Elements(common.value), marked.error);
      FailsWithoutStall(objects, g, wants, haves, marked.error);
      return Err(marked.error), sent, tags, targets, chains;
    }
    ghost var bound := StartInv(g, common.value, marked.value, Elements(peeled.value.0), d.Value());
    StartMarks(g, common.value, marked.value, d.Value());
    ghost var explored;
    var found, bounded;
    found, bounded, explored := Discover(d, g, cache, Elements(peeled.value.0), Elements(common.value), bound);
    if found.Err? {
      FailsWithoutStall(objects, g, wants, haves, found.error);
      return Err(found.error), sent, tags, targets, chains;
    }
    sent := found.value;
    assert common.value == [] ==> Elements(common.value) == {};
    r := Ok(Selection(found.value + peeled.value.1, common.value, bounded));
  }

  lemma WantUnresolved(g: Graph, targets: seq<Oid>, cached: set<Oid>, haves: set<Oid>, e: WalkError)
    requires FirstUnknown(g, NewIn(targets, cached), e)
    ensures Unresolved(g, Elements(targets) + haves, e)
  {
    hide NewIn;
    var ids := NewIn(targets, cached);
    var i :| 0 <= i < |ids| && UnknownAt(g, ids, e, i);
    assert ids[i] in ids;
    ReachRoot(ParentEdges(g), Elements(targets) + haves, ids[i]);
  }

  lemma FailsWithoutStall(objects: Objects, g: Graph, wants: seq<Oid>, haves: seq<Oid>, e: WalkError)
    requires SelectionFails(objects, g, wants, haves, e)
    ensures !e.DiscoveryStalled?
  {
    hide Reachable;
  }
}
