/**
 A fetch from request to pack: plan, schedule, feed, write. The closing contract
 is the client's view: what it decodes from the pack is the content of every
 object of the wanted history that it does not hold already.
 */
module FetchService {
  import opened Options
  import opened Reachability
  import opened GitObjects
  import opened OrderedSets
  import opened CommitDiscovery
  import opened CollectionOrder
  import opened FetchPlan
  import opened ObjectPlan
  import opened DeltaFormat
  import opened PackSchedule
  import opened PackWriter

  // ------------------------------------------------------------------ the plan

  datatype PackPlan = PackPlan(objects: seq<Scheduled>, common: seq<Oid>)

  /** Without offset deltas the objects keep their order and stay ungrouped. */
  method PlainSchedule(ids: seq<Oid>) returns (s: seq<Scheduled>)
    ensures Oids(s) == ids && forall i :: 0 <= i < |s| ==> s[i].group == None
  {
    s := seq(|ids|, i requires 0 <= i < |ids| => Scheduled(ids[i], None));
  }

  /** The schedule lists exactly the planned objects: in plan order, or for offset deltas grouped by path. */
  ghost predicate Schedules(objects: Objects, listed: seq<Oid>, paths: map<Oid, Bytes>, grouped: bool,
                            s: seq<Scheduled>)
  {
    && multiset(Oids(s)) == multiset(listed) && GroupsContiguous(s)
    && (!grouped ==> Oids(s) == listed && forall i :: 0 <= i < |s| ==> s[i].group == None)
    && (grouped ==> forall i :: 0 <= i < |s| ==> RightGroup(objects, paths, s[i]))
  }

  lemma SameIds(s: seq<Scheduled>, listed: seq<Oid>)
    requires multiset(Oids(s)) == multiset(listed)
    ensures |s| == |listed| && forall x :: x in Oids(s) <==> x in listed
    ensures NoDuplicates(listed) ==> NoDuplicates(Oids(s))
  {
    assert |multiset(Oids(s))| == |s| && |multiset(listed)| == |listed|;
    forall x
      ensures x in Oids(s) <==> x in listed
    {
      assert x in multiset(Oids(s)) <==> x in multiset(listed);
    }
    if NoDuplicates(listed) {
      OnceEach(listed);
      CountedOnce(Oids(s));
    }
  }

  lemma {:induction false} OnceEach(s: seq<Oid>)
    requires NoDuplicates(s)
    ensures forall x :: multiset(s)[x] <= 1
    decreases |s|
  {
    if s != [] {
      var n := |s| - 1;
      OnceEach(s[..n]);
      assert s == s[..n] + [s[n]] && s[n] !in s[..n];
    }
  }

  lemma CountedOnce(s: seq<Oid>)
    requires forall x :: multiset(s)[x] <= 1
    ensures NoDuplicates(s)
  {
    forall i, j | 0 <= i < j < |s|
      ensures s[i] != s[j]
    {
      CountedTwice(s, i, j);
    }
  }

  lemma CountedTwice(s: seq<Oid>, i: nat, j: nat)
    requires i < j < |s|
    ensures s[i] == s[j] ==> multiset(s)[s[i]] >= 2
  {
    var front, back := s[..j], s[j..];
    assert s == front + back && front[i] == s[i] && back[0] == s[j];
    assert s[i] in multiset(front) && s[j] in multiset(back);
    assert multiset(s) == multiset(front) + multiset(back);
  }

  /** Why there is no plan: planning failed, or an object of the wanted history that is to be grouped has no record. */
  ghost predicate CannotPlan(objects: Objects, g: Graph, wants: seq<Oid>, haves: seq<Oid>, filter: FilterSpec,
                             ofsDeltas: bool, e: WalkError)
  {
    || PlanFails(objects, g, wants, haves, filter, e)
    || (ofsDeltas && exists x :: HistoryLacks(objects, wants, x) && e == MissingObject(x))
  }

  /** The wanted history is not complete in the repository. */
  ghost predicate HistoryLacks(objects: Objects, wants: seq<Oid>, x: Oid) {
    InClosure(objects, HistoryWants(objects, wants), x) && x !in objects
  }

  lemma HealthyLacksNothing(objects: Objects, g: Graph, wants: seq<Oid>, haves: seq<Oid>, x: Oid)
    requires Healthy(objects, g, wants, haves)
    ensures !HistoryLacks(objects, wants, x)
  {
    hide Reachable;
    var f, history := ObjectEdges(objects), HistoryWants(objects, wants);
    var roots := history + KnownAmong(g, haves);
    forall w | w in history
      ensures Reachable(f, roots, w)
    {
      ReachRoot(f, roots, w);
    }
    ReachTrans(f, f, roots, history);
    if history == {} {
      ReachNothing(f, x);
    }
  }

  /** A planned object without a record is one the wanted history lacks. */
  lemma ListedLacks(objects: Objects, wants: seq<Oid>, listed: seq<Oid>, e: WalkError)
    requires FirstMissing(objects, listed, e)
    requires forall x :: x in listed ==>
               x in DirectWants(objects, wants) || InClosure(objects, HistoryWants(objects, wants), x)
    ensures exists x :: HistoryLacks(objects, wants, x) && e == MissingObject(x)
  {
    hide Reachable;
    var i :| 0 <= i < |listed| && listed[i] !in objects && e == MissingObject(listed[i]);
    assert listed[i] in listed;
    assert HistoryLacks(objects, wants, listed[i]);
  }

  /**
   The whole plan of a fetch response. `paths` is what collection recorded for blobs; `listed` and
   the walk name the planned objects before scheduling.
   */
  method PlanPack(objects: Objects, g: Graph, wants: seq<Oid>, haves: seq<Oid>, filter: FilterSpec, ofsDeltas: bool,
                  paths: map<Oid, Bytes>, ghost kind: Oid -> Kind, ghost rank: Oid -> nat)
    returns (r: Result<PackPlan>, ghost listed: seq<Oid>, ghost t: Walked)
    requires KindsAgree(objects, kind) && Acyclic(objects, rank) && Truthful(g, objects)
    ensures r.Ok? ==>
            Schedules(objects, listed, paths, ofsDeltas && HistoryWants(objects, wants) != {}, r.value.objects)
    ensures r.Ok? ==> PlanLists(objects, wants, filter, t.sent + t.tags, t.reached, listed)
    ensures r.Ok? && HistoryWants(objects, wants) == {} ==> r.value.common == [] && t == NOTHING_WALKED
    ensures r.Ok? && HistoryWants(objects, wants) != {} ==>
            r.value.common == Kept(NewIn(haves, {}), KnownAmong(g, haves))
    ensures r.Ok? && HistoryWants(objects, wants) != {} ==>
            WalkedFor(objects, g, Kept(wants, HistoryWants(objects, wants)), r.value.common, filter, kind, t)
    ensures r.Ok? ==> NoDuplicates(Oids(r.value.objects))
    ensures r.Ok? ==> forall w :: w in wants && w !in HistoryWants(objects, wants) ==> w in Oids(r.value.objects)
    ensures r.Ok? ==> forall x :: InClosure(objects, HistoryWants(objects, wants), x) ==>
              || x in Oids(r.value.objects) || InClosure(objects, Elements(r.value.common), x)
              || Withheld(objects, kind, filter, x)
    ensures r.Ok? ==> forall x :: x in Oids(r.value.objects) && x in objects && Withheld(objects, kind, filter, x) ==>
              x in DirectWants(objects, wants)
    ensures r.Ok? ==> forall x :: x in Oids(r.value.objects) ==>
              x in DirectWants(objects, wants) || InClosure(objects, HistoryWants(objects, wants), x)
    ensures r.Err? ==> CannotPlan(objects, g, wants, haves, filter, ofsDeltas, r.error)
    ensures r.Ok? ==> Answerable(objects, g, wants, haves)
    ensures Healthy(objects, g, wants, haves) ==> r.Ok?
  {
    hide Reachable, KindsAgree, Acyclic, Truthful, PlanFails, PlanLists, WalkedFor, Kept, NewIn, Oids, GroupsContiguous,
         RightGroup, NoDuplicates, Sorted, Ungrouped, Healthy, Answerable, Withheld, HistoryLacks, FirstMissing;
    var plan;
    listed := [];
    plan, t := PlanObjects(objects, g, wants, haves, filter, kind, rank);
    if plan.Err? {
      return Err(plan.error), listed, t;
    }
    listed := plan.value.objects;
    var history := HasHistory(objects, wants);
    var scheduled: seq<Scheduled>;
    if ofsDeltas && history {
      var step, items := ScheduleForOfs(objects, plan.value.objects, paths);
      if step.Err? {
        ListedLacks(objects, wants, listed, step.error);
        ghost var x :| HistoryLacks(objects, wants, x) && step.error == MissingObject(x);
        LackIsDamage(objects, g, wants, haves, x);
        return Err(step.error), listed, t;
      }
      scheduled := step.value;
    } else {
      scheduled := PlainSchedule(plan.value.objects);
      PlainIsContiguous(scheduled);
    }
    SameIds(scheduled, listed);
    r := Ok(PackPlan(scheduled, plan.value.common));
  }

  lemma LackIsDamage(objects: Objects, g: Graph, wants: seq<Oid>, haves: seq<Oid>, x: Oid)
    requires HistoryLacks(objects, wants, x)
    ensures !Healthy(objects, g, wants, haves)
  {
    hide Healthy, HistoryLacks;
    if Healthy(objects, g, wants, haves) {
      HealthyLacksNothing(objects, g, wants, haves, x);
    }
  }

  lemma PlainIsContiguous(s: seq<Scheduled>)
    requires forall i :: 0 <= i < |s| ==> s[i].group == None
    ensures GroupsContiguous(s)
  {
  }

  /** Whether some want drives the walk. */
  method HasHistory(objects: Objects, wants: seq<Oid>) returns (b: bool)
    ensures b <==> HistoryWants(objects, wants) != {}
  {
    b := false;
    for i := 0 to |wants|
      invariant b <==> exists w :: w in HistoryWants(objects, wants) && w in wants[..i]
    {
      assert wants[..i + 1] == wants[..i] + [wants[i]] && wants[i] in wants;
      if wants[i] in objects && (objects[wants[i]].CommitObject? || objects[wants[i]].TagObject?) {
        assert wants[i] in HistoryWants(objects, wants);
        b := true;
      }
    }
    assert wants[..|wants|] == wants;
  }

  // ------------------------------------------------------------------ the pack

  /** An object's record as the pack writer needs it: its size and its stored zlib stream. */
  datatype Stream = Stream(kind: Kind, size: nat, zlib: Bytes)

  /** The stored streams inflate to the objects' contents, and every object has one. */
  ghost predicate StoredAs(z: Zlib, objects: Objects, content: Oid -> Bytes, streams: map<Oid, Stream>) {
    && streams.Keys == objects.Keys
    && forall x :: x in streams ==>
      streams[x].kind == KindOf(objects[x]) && z.inflate(streams[x].zlib, streams[x].size) == Some(content(x))
  }

  function EntryOf(streams: map<Oid, Stream>, o: Scheduled): PackEntry
    requires o.oid in streams
  {
    PackEntry(o.oid, streams[o.oid].kind, streams[o.oid].size, streams[o.oid].zlib, o.group)
  }

  /** Entries in schedule order, up to the first object without a record. */
  method FeedObjects(streams: map<Oid, Stream>, schedule: seq<Scheduled>)
    returns (entries: seq<PackEntry>, missing: Option<Oid>)
    ensures |entries| <= |schedule|
    ensures forall i :: 0 <= i < |entries| ==> schedule[i].oid in streams && entries[i] == EntryOf(streams, schedule[i])
    ensures missing.None? <==> |entries| == |schedule|
    ensures missing.Some? ==> schedule[|entries|].oid == missing.value && missing.value !in streams
  {
    entries := [];
    for i := 0 to |schedule|
      invariant |entries| == i
      invariant forall j :: 0 <= j < i ==> schedule[j].oid in streams && entries[j] == EntryOf(streams, schedule[j])
    {
      if schedule[i].oid !in streams {
        return entries, Some(schedule[i].oid);
      }
      entries := entries + [EntryOf(streams, schedule[i])];
    }
    missing := None;
  }

  datatype Response =
    | Pack(entries: seq<Output>, common: seq<Oid>)
    | Refused(error: WalkError)
    | Incomplete(missing: Oid)
    | Broken(failure: PackError)

  /** The i-th entry carries an object's id and decodes to its content. */
  ghost predicate Delivered(z: Zlib, content: Oid -> Bytes, entries: seq<Output>, i: nat)
    requires i < |entries|
  {
    DecodedEntry(z, entries, i) == Some(content(entries[i].id))
  }

  lemma EntriesDeliver(z: Zlib, objects: Objects, content: Oid -> Bytes, streams: map<Oid, Stream>,
                       schedule: seq<Scheduled>, fed: seq<PackEntry>, entries: seq<Output>, i: nat)
    requires StoredAs(z, objects, content, streams)
    requires |fed| == |schedule| == |entries| && i < |entries|
    requires forall j :: 0 <= j < |fed| ==> schedule[j].oid in streams && fed[j] == EntryOf(streams, schedule[j])
    requires forall j :: 0 <= j < |fed| ==> EntryFaithful(z, fed, entries, j)
    ensures entries[i].id == schedule[i].oid && Delivered(z, content, entries, i)
  {
    hide DecodedEntry, DeltaFaithful;
    assert EntryFaithful(z, fed, entries, i);
    PackDecodes(z, fed, entries, i);
  }

  /** An id's entry in the pack. */
  ghost predicate SentAs(z: Zlib, content: Oid -> Bytes, entries: seq<Output>, x: Oid) {
    exists i :: 0 <= i < |entries| && entries[i].id == x && DecodedEntry(z, entries, i) == Some(content(x))
  }

  ghost function IdsOf(entries: seq<Output>): seq<Oid> {
    seq(|entries|, i requires 0 <= i < |entries| => entries[i].id)
  }

  /**
   Serve a fetch. The pack's entries decode to the contents of the planned objects, each once; all of them are
   wanted, every direct want is among them, and up to the filter they are all the client lacks of the wanted history.
   A request that reaches only what is there and recorded is served.
   */
  method ServeFetch(z: Zlib, objects: Objects, streams: map<Oid, Stream>, g: Graph, wants: seq<Oid>, haves: seq<Oid>,
                    filter: FilterSpec, ofsDeltas: bool, paths: map<Oid, Bytes>, ghost content: Oid -> Bytes,
                    ghost kind: Oid -> Kind, ghost rank: Oid -> nat)
    returns (r: Response, ghost listed: seq<Oid>, ghost t: Walked)
    requires Lawful(z) && StoredAs(z, objects, content, streams)
    requires KindsAgree(objects, kind) && Acyclic(objects, rank) && Truthful(g, objects)
    ensures r.Pack? ==> multiset(IdsOf(r.entries)) == multiset(listed) && NoDuplicates(IdsOf(r.entries))
    ensures r.Pack? ==> PlanLists(objects, wants, filter, t.sent + t.tags, t.reached, listed)
    ensures r.Pack? && HistoryWants(objects, wants) == {} ==> r.common == [] && t == NOTHING_WALKED
    ensures r.Pack? && HistoryWants(objects, wants) != {} ==>
            && r.common == Kept(NewIn(haves, {}), KnownAmong(g, haves))
            && WalkedFor(objects, g, Kept(wants, HistoryWants(objects, wants)), r.common, filter, kind, t)
    ensures r.Pack? ==> forall i :: 0 <= i < |r.entries| ==>
              Delivered(z, content, r.entries, i) && InClosure(objects, Elements(wants), r.entries[i].id)
    ensures r.Pack? ==> forall w :: w in wants && w !in HistoryWants(objects, wants) ==>
              SentAs(z, content, r.entries, w)
    ensures var history := set w | w in wants && w in objects && (objects[w].CommitObject? || objects[w].TagObject?);
            r.Pack? ==> forall x :: InClosure(objects, history, x) ==>
              || SentAs(z, content, r.entries, x) || InClosure(objects, Elements(r.common), x)
              || Withheld(objects, kind, filter, x)
    ensures r.Pack? ==> forall x :: x in IdsOf(r.entries) && x in objects && Withheld(objects, kind, filter, x) ==>
              x in DirectWants(objects, wants)
    ensures r.Refused? ==> CannotPlan(objects, g, wants, haves, filter, ofsDeltas, r.error)
    ensures r.Incomplete? ==> HistoryLacks(objects, wants, r.missing)
    ensures !r.Broken?
    ensures r.Pack? ==> Answerable(objects, g, wants, haves)
    ensures r.Pack? && !ofsDeltas ==> IdsOf(r.entries) == listed
    ensures Healthy(objects, g, wants, haves) ==> r.Pack?
  {
    hide Reachable, KindsAgree, Acyclic, Truthful, Lawful, CannotPlan, Kept, NewIn, Schedules, EntryFaithful, Planned,
         DecodedEntry, Healthy, Answerable, Withheld, HistoryLacks, PlanLists, WalkedFor, NoDuplicates;
    var plan;
    plan, listed, t := PlanPack(objects, g, wants, haves, filter, ofsDeltas, paths, kind, rank);
    if plan.Err? {
      return Refused(plan.error), listed, t;
    }
    var schedule := plan.value.objects;
    ListedIds(objects, listed, paths, ofsDeltas && HistoryWants(objects, wants) != {}, schedule);
    var fed, missing := FeedObjects(streams, schedule);
    if missing.Some? {
      LackedHere(objects, wants, missing.value);
      LackIsDamage(objects, g, wants, haves, missing.value);
      return Incomplete(missing.value), listed, t;
    }
    var written, trace := WritePack(z, fed, |schedule|, ofsDeltas);
    NothingCorrupt(z, objects, content, streams, schedule, fed);
    if written.PackFailed? {
      assert false;
    }
    var entries := written.value;
    forall i | 0 <= i < |entries|
      ensures entries[i].id == schedule[i].oid && Delivered(z, content, entries, i)
    {
      EntriesDeliver(z, objects, content, streams, schedule, fed, entries, i);
    }
    r := Pack(entries, plan.value.common);
    assert IdsOf(entries) == Oids(schedule);
    WantedToo(objects, wants);
    forall x | x in Oids(schedule)
      ensures SentAs(z, content, entries, x)
    {
      var i := At(schedule, x);
      assert Delivered(z, content, entries, i);
    }
  }

  lemma LackedHere(objects: Objects, wants: seq<Oid>, x: Oid)
    requires x !in objects && (x in DirectWants(objects, wants) || InClosure(objects, HistoryWants(objects, wants), x))
    ensures HistoryLacks(objects, wants, x)
  {
    hide Reachable;
  }

  /** What is wanted directly or lies below the history wants lies below the wants. */
  lemma WantedToo(objects: Objects, wants: seq<Oid>)
    ensures forall x :: x in DirectWants(objects, wants) || InClosure(objects, HistoryWants(objects, wants), x) ==>
              InClosure(objects, Elements(wants), x)
  {
    hide Reachable;
    var f := ObjectEdges(objects);
    forall w | w in wants
      ensures Reachable(f, Elements(wants), w)
    {
      ReachRoot(f, Elements(wants), w);
    }
    ReachTrans(f, f, Elements(wants), HistoryWants(objects, wants));
  }

  lemma ListedIds(objects: Objects, listed: seq<Oid>, paths: map<Oid, Bytes>, grouped: bool, s: seq<Scheduled>)
    requires Schedules(objects, listed, paths, grouped, s)
    ensures multiset(Oids(s)) == multiset(listed) && (!grouped ==> Oids(s) == listed)
    ensures |Oids(s)| == |s| && forall i :: 0 <= i < |s| ==> s[i].oid in listed && Oids(s)[i] == s[i].oid
  {
    hide GroupsContiguous, RightGroup;
    SameIds(s, listed);
    assert forall i :: 0 <= i < |s| ==> Oids(s)[i] == s[i].oid;
  }

  lemma At(s: seq<Scheduled>, x: Oid) returns (i: nat)
    requires x in Oids(s)
    ensures i < |s| && s[i].oid == x
  {
    i :| 0 <= i < |s| && Oids(s)[i] == x;
  }

  lemma NothingCorrupt(z: Zlib, objects: Objects, content: Oid -> Bytes, streams: map<Oid, Stream>,
                       schedule: seq<Scheduled>, fed: seq<PackEntry>)
    requires StoredAs(z, objects, content, streams) && |fed| == |schedule|
    requires forall j :: 0 <= j < |fed| ==> schedule[j].oid in streams && fed[j] == EntryOf(streams, schedule[j])
    ensures forall o :: o in fed ==> z.inflate(o.zlib, o.size).Some?
  {
    forall o | o in fed
      ensures z.inflate(o.zlib, o.size).Some?
    {
      var j :| 0 <= j < |fed| && fed[j] == o;
    }
  }
}
