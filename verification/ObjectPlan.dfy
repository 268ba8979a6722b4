/**
 The objects of a fetch response, in order: classify the wants, select commits,
 collect their objects, add the directly wanted ones. A plan that fails names
 damage below the wants or the recognised haves; a healthy request has a plan.
 */
module ObjectPlan {
  import opened Reachability
  import opened GitObjects
  import opened OrderedSets
  import opened CommitDiscovery
  import opened WantSelection
  import opened CollectionOrder
  import opened Collection
  import opened FetchPlan

  /** The wants that drive the walk: commits and annotated tags. */
  ghost function HistoryWants(objects: Objects, wants: seq<Oid>): set<Oid> {
    set w | w in wants && w in objects && (objects[w].CommitObject? || objects[w].TagObject?)
  }

  /** The wants packed as they are: trees and blobs. */
  ghost function DirectWants(objects: Objects, wants: seq<Oid>): set<Oid> {
    set w | w in wants && w in objects && (objects[w].TreeObject? || objects[w].BlobObject?)
  }

  /** The first want, in want order, that the repository does not have. */
  ghost predicate FirstUnknownWant(objects: Objects, wants: seq<Oid>, e: WalkError) {
    exists i ::
      && 0 <= i < |wants| && wants[i] !in objects && e == UnknownWant(wants[i])
      && forall j :: 0 <= j < i ==> wants[j] in objects
  }

  /** Split the wants by how they are served, in want order; blobs and trees are packed directly, once each. */
  method PartitionWants(objects: Objects, wants: seq<Oid>) returns (r: Result<(seq<Oid>, seq<Oid>)>)
    ensures r.Ok? <==> forall w :: w in wants ==> w in objects
    ensures r.Ok? ==> r.value.0 == Kept(wants, HistoryWants(objects, wants))
    ensures r.Ok? ==> r.value.1 == NewIn(Kept(wants, DirectWants(objects, wants)), {})
    ensures r.Err? ==> FirstUnknownWant(objects, wants, r.error)
  {
    hide Kept, NewIn;
    var history: seq<Oid>, direct: seq<Oid> := [], [];
    ghost var hs, ds := HistoryWants(objects, wants), DirectWants(objects, wants);
    KeptNothing(hs);
    KeptNothing(ds);
    NewInNothing({});
    for i := 0 to |wants|
      invariant forall j :: 0 <= j < i ==> wants[j] in objects
      invariant history == Kept(wants[..i], hs) && direct == NewIn(Kept(wants[..i], ds), {})
    {
      var want := wants[i];
      assert want in wants;
      if want !in objects {
        return Err(UnknownWant(want));
      }
      KeptNext(wants, i, hs);
      KeptNext(wants, i, ds);
      NewInSnoc(Kept(wants[..i], ds), want, {});
      if objects[want].CommitObject? || objects[want].TagObject? {
        history := history + [want];
      } else if want !in direct {
        direct := direct + [want];
      }
    }
    assert wants[..|wants|] == wants;
    r := Ok((history, direct));
  }

  datatype Plan = Plan(objects: seq<Oid>, common: seq<Oid>)

  /** What the walk behind a plan found; its parts determine the plan's order. */
  datatype Walked = Walked(targets: seq<Oid>, chains: seq<seq<Oid>>, sent: seq<Oid>, tags: seq<Oid>, reached: set<Oid>)

  const NOTHING_WALKED := Walked([], [], [], [], {})

  /** The walk of these wants against these haves, as selection and collection promise it. */
  ghost predicate WalkedFor(objects: Objects, g: Graph, wants: seq<Oid>, common: seq<Oid>, filter: FilterSpec,
                            kind: Oid -> Kind, t: Walked)
  {
    && Peeled(objects, wants, t.targets, t.tags) && PeeledInOrder(objects, wants, t.targets, t.tags, t.chains)
    && Selects(g, Elements(t.targets), Elements(common), t.sent)
    && HaveIs(objects, kind, RootTrees(objects, Elements(common)), filter, t.reached)
  }

  /** The objects of a plan: those collected for the send list, then the direct wants not among them. */
  ghost predicate PlanLists(objects: Objects, wants: seq<Oid>, filter: FilterSpec, toSend: seq<Oid>, reached: set<Oid>,
                            out: seq<Oid>)
  {
    var collected := SentOrder(objects, filter, reached, toSend);
    out == collected + NewIn(Kept(wants, DirectWants(objects, wants)), Elements(collected))
  }

  lemma OnlyDirect(objects: Objects, wants: seq<Oid>, filter: FilterSpec)
    ensures PlanLists(objects, wants, filter, [], {}, NewIn(Kept(wants, DirectWants(objects, wants)), {}))
  {
    hide NewIn, Kept;
    assert SentOrder(objects, filter, {}, []) == [] && Elements([]) == {};
  }

  // ------------------------------------------------------- why there is no plan

  /** A tree below the commit cannot be read, or under a size filter one of its blobs has no record. */
  ghost predicate BelowFails(objects: Objects, c: Oid, filter: FilterSpec, e: WalkError) {
    c in objects && objects[c].CommitObject? && CollectFails(objects, {objects[c].tree}, filter, e)
  }

  /** Why planning can fail; a stalled walk is not among the reasons. */
  ghost predicate PlanFails(objects: Objects, g: Graph, wants: seq<Oid>, haves: seq<Oid>, filter: FilterSpec,
                            e: WalkError)
  {
    var history := Kept(wants, HistoryWants(objects, wants));
    || FirstUnknownWant(objects, wants, e)
    || (history != [] && SelectionFails(objects, g, history, haves, e))
    || (history != [] && exists c ::
          Reachable(ParentEdges(g), StartsOf(objects, g, history, haves), c) && BelowFails(objects, c, filter, e))
  }

  lemma PlanNeverStalls(objects: Objects, g: Graph, wants: seq<Oid>, haves: seq<Oid>, filter: FilterSpec, e: WalkError)
    requires PlanFails(objects, g, wants, haves, filter, e)
    ensures !e.DiscoveryStalled?
  {
    hide Reachable, Kept, NewIn, StartsOf;
    var history := Kept(wants, HistoryWants(objects, wants));
    if SelectionFails(objects, g, history, haves, e) {
      FailsWithoutStall(objects, g, history, haves, e);
    }
  }

  /** What lies under the root trees of several commits lies under one of them. */
  lemma UnderOne(objects: Objects, ids: set<Oid>, filter: FilterSpec, e: WalkError) returns (c: Oid)
    requires CollectFails(objects, RootTrees(objects, ids), filter, e)
    ensures c in ids && BelowFails(objects, c, filter, e)
  {
    var roots := RootTrees(objects, ids);
    if t :| TreeUnder(objects, roots, t) && Unreadable(objects, t, e) {
      var r := FirstOnPath(objects, roots, t);
      c :| c in ids && c in objects && objects[c].CommitObject? && objects[c].tree == r;
    } else {
      var b :| BlobUnder(objects, roots, b) && b !in objects && e == MissingObject(b);
      var t :| TreeUnder(objects, roots, t) && IsTree(objects, t) && Leaf(b) in objects[t].entries;
      var r := FirstOnPath(objects, roots, t);
      c :| c in ids && c in objects && objects[c].CommitObject? && objects[c].tree == r;
      assert BlobUnder(objects, {r}, b);
    }
  }

  lemma FirstOnPath(objects: Objects, roots: set<Oid>, t: Oid) returns (r: Oid)
    requires TreeUnder(objects, roots, t)
    ensures r in roots && TreeUnder(objects, {r}, t)
  {
    var p :| IsPath(SubtreeEdges(objects), p) && p[0] in roots && p[|p| - 1] == t;
    r := p[0];
  }

  /** The send list of a selection holds known commits and tags, so only what lies below them can fail. */
  lemma SendListSound(objects: Objects, g: Graph, wants: seq<Oid>, haves: seq<Oid>, t: Walked, e: WalkError)
    requires Truthful(g, objects) && Peeled(objects, wants, t.targets, t.tags)
    requires forall x :: x in t.sent ==> Known(g, x)
    ensures !FirstFault(g, NewIn(Kept(NewIn(haves, {}), KnownAmong(g, haves)), {}), e)
    ensures !FirstMissing(objects, t.sent + t.tags, e) && !RecordFails(objects, g, t.sent + t.tags, e)
    ensures forall x :: x in t.sent + t.tags ==> !NotSendable(objects, x, e)
  {
    hide Reachable, NewIn, Kept;
    var toSend, ids := t.sent + t.tags, NewIn(Kept(NewIn(haves, {}), KnownAmong(g, haves)), {});
    forall x | x in toSend
      ensures x in objects && ((objects[x].CommitObject? && Known(g, x)) || objects[x].TagObject?)
    {
      if x !in t.sent {
        assert TagInto(objects, x, t.tags, t.targets);
      }
    }
    assert forall i :: 0 <= i < |toSend| ==> toSend[i] in toSend;
    forall i | 0 <= i < |ids|
      ensures Known(g, ids[i])
    {
      assert ids[i] in ids;
      assert ids[i] in Kept(NewIn(haves, {}), KnownAmong(g, haves));
      assert ids[i] in KnownAmong(g, haves);
    }
  }

  lemma CollectionCause(objects: Objects, g: Graph, wants: seq<Oid>, haves: seq<Oid>, filter: FilterSpec, t: Walked,
                        e: WalkError)
    returns (c: Oid)
    requires Truthful(g, objects) && Peeled(objects, wants, t.targets, t.tags)
    requires Elements(t.targets) == TargetsOf(objects, wants)
    requires Selects(g, Elements(t.targets), KnownAmong(g, haves), t.sent)
    requires CollectionFails(objects, g, t.sent + t.tags, Kept(NewIn(haves, {}), KnownAmong(g, haves)), filter, e)
    ensures Reachable(ParentEdges(g), StartsOf(objects, g, wants, haves), c) && BelowFails(objects, c, filter, e)
  {
    hide Reachable, NewIn, Kept, CollectFails, FirstFault, FirstMissing, RecordFails, NotSendable, BelowFails,
         TargetsOf, Truthful, Peeled;
    var edges, starts := ParentEdges(g), StartsOf(objects, g, wants, haves);
    var common := Kept(NewIn(haves, {}), KnownAmong(g, haves));
    assert KnownAmong(g, common) == KnownAmong(g, haves);
    SendListSound(objects, g, wants, haves, t, e);
    if x :| TreeUnder(objects, RootTrees(objects, KnownAmong(g, haves)), x) && Unreadable(objects, x, e) {
      TreeFailsIs(objects, RootTrees(objects, KnownAmong(g, haves)), filter, e, x);
      c := UnderOne(objects, KnownAmong(g, haves), filter, e);
      ReachRoot(edges, starts, c);
    } else {
      var ids :| ids <= t.sent + t.tags && CollectFails(objects, RootTrees(objects, Elements(ids)), filter, e);
      c := UnderOne(objects, Elements(ids), filter, e);
      assert c in t.sent + t.tags;
      SentReached(objects, g, wants, haves, filter, t, e, c);
    }
  }

  lemma TreeFailsIs(objects: Objects, roots: set<Oid>, filter: FilterSpec, e: WalkError, x: Oid)
    requires TreeUnder(objects, roots, x) && Unreadable(objects, x, e)
    ensures CollectFails(objects, roots, filter, e)
  {
  }

  lemma SentReached(objects: Objects, g: Graph, wants: seq<Oid>, haves: seq<Oid>, filter: FilterSpec, t: Walked,
                    e: WalkError, c: Oid)
    requires Peeled(objects, wants, t.targets, t.tags) && Elements(t.targets) == TargetsOf(objects, wants)
    requires Selects(g, Elements(t.targets), KnownAmong(g, haves), t.sent)
    requires c in t.sent + t.tags && BelowFails(objects, c, filter, e)
    ensures Reachable(ParentEdges(g), StartsOf(objects, g, wants, haves), c)
  {
    hide Reachable, CollectFails, TargetsOf;
    var edges, starts := ParentEdges(g), StartsOf(objects, g, wants, haves);
    assert c in t.tags ==> TagInto(objects, c, t.tags, t.targets);
    forall r | r in TargetsOf(objects, wants)
      ensures Reachable(edges, starts, r)
    {
      ReachRoot(edges, starts, r);
    }
    ReachTrans(edges, edges, starts, TargetsOf(objects, wants));
  }

  // ------------------------------------------------------------- healthy requests

  /** What an answer proves of its request: every want is there and servable, every have is known or excused. */
  ghost predicate Answerable(objects: Objects, g: Graph, wants: seq<Oid>, haves: seq<Oid>) {
    var history := HistoryWants(objects, wants);
    && (forall w :: w in wants ==> w in objects) && (forall w :: w in history ==> Servable(objects, w))
    && (history != {} ==> forall h :: h in haves ==> Known(g, h) || Excused(h, LookupCommit(g, h)))
  }

  /** Everything a request reaches is there and has its record; unknown haves are only ever excused ones. */
  ghost predicate Healthy(objects: Objects, g: Graph, wants: seq<Oid>, haves: seq<Oid>) {
    var history := HistoryWants(objects, wants);
    && Answerable(objects, g, wants, haves)
    && (history != {} ==> forall x :: InClosure(objects, history + KnownAmong(g, haves), x) ==>
          x in objects && (objects[x].CommitObject? ==> Known(g, x)))
  }

  /** The tags and the commit of a want's chain lie below it. */
  lemma {:induction false} ChainInClosure(objects: Objects, roots: set<Oid>, want: Oid, tags: seq<Oid>, end: Oid)
    requires ChainTo(objects, want, tags, end) && InClosure(objects, roots, want)
    ensures InClosure(objects, roots, end)
    decreases |tags|
  {
    hide Reachable;
    if tags != [] {
      ChainTail(objects, want, tags, end);
      assert objects[want].target in Children(objects[want]);
      ReachStep(ObjectEdges(objects), roots, want, objects[want].target);
      ChainInClosure(objects, roots, objects[want].target, tags[1..], end);
    }
  }

  /** Every commit the walk can meet lies below the history wants and the recognised haves, and is a commit by kind. */
  lemma WalkStaysBelow(objects: Objects, g: Graph, kind: Oid -> Kind, wants: seq<Oid>, haves: seq<Oid>)
    requires KindsAgree(objects, kind) && Truthful(g, objects)
    ensures var history := Kept(wants, HistoryWants(objects, wants));
      forall c :: Reachable(ParentEdges(g), StartsOf(objects, g, history, haves), c) ==>
        kind(c) == Commit && InClosure(objects, HistoryWants(objects, wants) + KnownAmong(g, haves), c)
  {
    hide Reachable, Kept, ChainTo;
    var history := Kept(wants, HistoryWants(objects, wants));
    var roots := HistoryWants(objects, wants) + KnownAmong(g, haves);
    var f, starts := ObjectEdges(objects), StartsOf(objects, g, history, haves);
    forall c | c in starts
      ensures kind(c) == Commit && Reachable(f, roots, c)
    {
      if c in KnownAmong(g, haves) {
        ReachRoot(f, roots, c);
      } else {
        var w, tags :| w in history && TagChain(objects, w, tags, c);
        ReachRoot(f, roots, w);
        ChainInClosure(objects, roots, w, tags, c);
      }
    }
    forall x, y | x in ParentEdges(g) && y in ParentEdges(g)[x]
      ensures x in f && y in f[x] && kind(y) == Commit
    {
      ParentIsChild(objects, g, kind, x, y);
    }
    ReachTrans(ParentEdges(g), f, roots, starts);
    ReachClosed(ParentEdges(g), starts, iset c: Oid | kind(c) == Commit);
  }

  lemma ParentIsChild(objects: Objects, g: Graph, kind: Oid -> Kind, x: Oid, y: Oid)
    requires KindsAgree(objects, kind) && Truthful(g, objects) && Known(g, x) && y in Parents(g, x)
    ensures x in objects && y in Children(objects[x]) && kind(y) == Commit
  {
    assert objects[x].CommitObject? && y in objects[x].parents;
  }

  /** Below a commit of a healthy request every tree can be read and every blob is there. */
  lemma BelowHolds(objects: Objects, g: Graph, kind: Oid -> Kind, roots: set<Oid>, c: Oid, filter: FilterSpec,
                   e: WalkError)
    requires KindsAgree(objects, kind) && Truthful(g, objects) && InClosure(objects, roots, c)
    requires forall x :: InClosure(objects, roots, x) ==> x in objects
    ensures !BelowFails(objects, c, filter, e)
  {
    hide Reachable, KindsAgree, TreeUnder, BlobUnder;
    if c in objects && objects[c].CommitObject? {
      var tree, f := objects[c].tree, ObjectEdges(objects);
      assert RootTrees(objects, {c}) == {tree};
      RootTreeKinds(objects, kind, {c});
      ClosureHolds(objects, g, {c});
      ReachTrans(f, f, roots, {c});
      TreesAreTrees(objects, kind, {tree});
      ObjectKinds(objects, kind);
    }
  }

  lemma NothingStopsSelection(objects: Objects, g: Graph, wants: seq<Oid>, haves: seq<Oid>, e: WalkError)
    requires forall w :: w in wants ==> Servable(objects, w)
    requires forall h :: h in haves ==> Known(g, h) || Excused(h, LookupCommit(g, h))
    requires forall c :: Reachable(ParentEdges(g), StartsOf(objects, g, wants, haves), c) ==> Known(g, c)
    ensures !SelectionFails(objects, g, wants, haves, e)
  {
    hide Reachable, NewIn, StartsOf, Unservable, Servable;
    var ids := NewIn(haves, {});
    assert forall i :: 0 <= i < |ids| ==> ids[i] in ids;
    assert forall i :: 0 <= i < |wants| ==> wants[i] in wants;
  }

  /** No cause of failure fits a healthy request. */
  lemma HealthyHasNoCause(objects: Objects, g: Graph, kind: Oid -> Kind, wants: seq<Oid>, haves: seq<Oid>,
                          filter: FilterSpec, e: WalkError)
    requires KindsAgree(objects, kind) && Truthful(g, objects) && Healthy(objects, g, wants, haves)
    ensures !PlanFails(objects, g, wants, haves, filter, e)
  {
    hide Reachable, NewIn, Kept, StartsOf, BelowFails, KindsAgree, Truthful, Servable, Excused, SelectionFails;
    var history := Kept(wants, HistoryWants(objects, wants));
    var roots := HistoryWants(objects, wants) + KnownAmong(g, haves);
    WalkStaysBelow(objects, g, kind, wants, haves);
    ObjectKinds(objects, kind);
    assert history != [] ==> history[0] in history;
    forall c | history != [] && Reachable(ParentEdges(g), StartsOf(objects, g, history, haves), c)
      ensures Known(g, c) && !BelowFails(objects, c, filter, e)
    {
      BelowHolds(objects, g, kind, roots, c, filter, e);
    }
    if history != [] {
      NothingStopsSelection(objects, g, history, haves, e);
    }
  }

  // --------------------------------------------------------------------- the plan

  /**
   The objects of a fetch response. Nothing is packed twice, every want is served, nothing outside
   the closure of the wants is packed, and the unfiltered plan completes the wanted history.
   */
  method PlanObjects(objects: Objects, g: Graph, wants: seq<Oid>, haves: seq<Oid>, filter: FilterSpec,
                     ghost kind: Oid -> Kind, ghost rank: Oid -> nat)
    returns (r: Result<Plan>, ghost t: Walked)
    requires KindsAgree(objects, kind) && Acyclic(objects, rank) && Truthful(g, objects)
    ensures r.Ok? ==> NoDuplicates(r.value.objects)
    ensures r.Ok? ==> PlanLists(objects, wants, filter, t.sent + t.tags, t.reached, r.value.objects)
    ensures r.Ok? && HistoryWants(objects, wants) == {} ==> r.value.common == [] && t == NOTHING_WALKED
    ensures r.Ok? && HistoryWants(objects, wants) != {} ==>
            r.value.common == Kept(NewIn(haves, {}), KnownAmong(g, haves))
    ensures r.Ok? && HistoryWants(objects, wants) != {} ==>
            WalkedFor(objects, g, Kept(wants, HistoryWants(objects, wants)), r.value.common, filter, kind, t)
    ensures r.Ok? ==> forall w :: w in wants && w !in HistoryWants(objects, wants) ==> w in r.value.objects
    ensures r.Ok? ==> forall x :: InClosure(objects, HistoryWants(objects, wants), x) ==>
              || x in r.value.objects || InClosure(objects, Elements(r.value.common), x)
              || Withheld(objects, kind, filter, x)
    ensures r.Ok? ==> forall x :: x in r.value.objects && x in objects && Withheld(objects, kind, filter, x) ==>
              x in DirectWants(objects, wants)
    ensures r.Ok? ==> forall x :: x in r.value.objects ==>
              x in DirectWants(objects, wants) || InClosure(objects, HistoryWants(objects, wants), x)
    ensures r.Err? ==> PlanFails(objects, g, wants, haves, filter, r.error)
    ensures r.Ok? ==> Answerable(objects, g, wants, haves)
    ensures Healthy(objects, g, wants, haves) ==> r.Ok?
  {
    hide Servable, Excused, Reachable, KindsAgree, Acyclic, Children, Selects, Collects, InSendOrder, Peeled,
         PeeledInOrder, SelectionFails, CollectionFails, Truthful, SentOrder, HaveIs, Kept, NewIn, PlanFails, Healthy,
         TargetsOf;
    t := NOTHING_WALKED;
    var partition := PartitionWants(objects, wants);
    if partition.Err? {
      UnknownWantCause(objects, g, wants, haves, filter, partition.error);
      CauseIsDamage(objects, g, kind, wants, haves, filter, partition.error);
      return Err(partition.error), t;
    }
    var (history, direct) := partition.value;
    assert forall w :: w in direct <==> w in DirectWants(objects, wants);
    assert Elements(history) == HistoryWants(objects, wants);
    assert history != [] ==> history[0] in Elements(history);
    if history == [] {
      NothingInClosure(objects);
      assert Elements([]) == {};
      OnlyDirect(objects, wants, filter);
      assert t.sent + t.tags == [];
      return Ok(Plan(direct, [])), t;
    }
    ghost var sent, tags, targets, chains, reached;
    var selection, collected;
    selection, sent, tags, targets, chains := SelectCommits(objects, g, history, haves, rank);
    if selection.Err? {
      SelectionCause(objects, g, wants, haves, filter, selection.error);
      CauseIsDamage(objects, g, kind, wants, haves, filter, selection.error);
      return Err(selection.error), t;
    }
    ghost var common := Elements(selection.value.common);
    assert common == KnownAmong(g, selection.value.common) == KnownAmong(g, haves);
    collected, reached := Collect(objects, g, selection.value.toSend, selection.value.common, filter, kind);
    t := Walked(targets, chains, sent, tags, reached);
    if collected.Err? {
      ghost var c := CollectionCause(objects, g, history, haves, filter, t, collected.error);
      BelowCause(objects, g, wants, haves, filter, collected.error, c);
      CauseIsDamage(objects, g, kind, wants, haves, filter, collected.error);
      return Err(collected.error), t;
    }
    FetchCompletes(objects, g, kind, history, sent, tags, targets, common, filter, collected.value);
    forall x | x in collected.value && x in objects
      ensures !Withheld(objects, kind, filter, x)
    {
      NothingWithheldIsSent(objects, g, kind, history, sent, tags, targets, common, filter, collected.value, x);
    }
    OnlyWanted(objects, g, history, history, sent, tags, targets, common, filter, collected.value);
    var out := InsertAll(collected.value, direct);
    NewInTwice(Kept(wants, DirectWants(objects, wants)), Elements(collected.value));
    AppendDistinct(collected.value, NewIn(direct, Elements(collected.value)));
    r := Ok(Plan(out, selection.value.common));
  }

  lemma UnknownWantCause(objects: Objects, g: Graph, wants: seq<Oid>, haves: seq<Oid>, filter: FilterSpec, e: WalkError)
    requires FirstUnknownWant(objects, wants, e)
    ensures PlanFails(objects, g, wants, haves, filter, e)
  {
    hide Reachable, NewIn, Kept;
  }

  lemma SelectionCause(objects: Objects, g: Graph, wants: seq<Oid>, haves: seq<Oid>, filter: FilterSpec, e: WalkError)
    requires SelectionFails(objects, g, Kept(wants, HistoryWants(objects, wants)), haves, e)
    requires Kept(wants, HistoryWants(objects, wants)) != []
    ensures PlanFails(objects, g, wants, haves, filter, e)
  {
    hide Reachable, NewIn, Kept, SelectionFails;
  }

  lemma BelowCause(objects: Objects, g: Graph, wants: seq<Oid>, haves: seq<Oid>, filter: FilterSpec, e: WalkError,
                   c: Oid)
    requires var history := Kept(wants, HistoryWants(objects, wants));
      history != [] && Reachable(ParentEdges(g), StartsOf(objects, g, history, haves), c)
    requires BelowFails(objects, c, filter, e)
    ensures PlanFails(objects, g, wants, haves, filter, e)
  {
    hide Reachable, NewIn, Kept, SelectionFails, BelowFails;
  }

  lemma CauseIsDamage(objects: Objects, g: Graph, kind: Oid -> Kind, wants: seq<Oid>, haves: seq<Oid>,
                      filter: FilterSpec, e: WalkError)
    requires KindsAgree(objects, kind) && Truthful(g, objects) && PlanFails(objects, g, wants, haves, filter, e)
    ensures !Healthy(objects, g, wants, haves)
  {
    hide KindsAgree, Truthful, PlanFails, Healthy;
    if Healthy(objects, g, wants, haves) {
      HealthyHasNoCause(objects, g, kind, wants, haves, filter, e);
    }
  }

  lemma NothingInClosure(objects: Objects)
    ensures forall x :: !InClosure(objects, {}, x)
  {
  }
}
