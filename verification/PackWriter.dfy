/**
 Pack assembly: each object is a full entry or, when that is worth it, a delta
 against an earlier full blob of its group. Decoding the entries in order gives
 back the stored objects, every chain has depth one, and the cache of candidate
 bases stays within its entry and byte limits.
 */
module PackWriter {
  import opened Options
  import opened Reachability
  import opened GitObjects
  import opened DeltaFormat
  import opened BlockIndexing
  import opened DeltaEncoder

  const MIN_DELTA_BLOB_SIZE := 512
  const MAX_DELTA_BLOB_SIZE := 2 * 1024 * 1024
  const DELTA_WINDOW := 8
  const MAX_DELTA_CACHE_BYTES := 8 * 1024 * 1024
  const MIN_DELTA_SAVINGS := 32

  /** Compression as the pack writer sees it. */
  datatype Zlib = Zlib(deflate: Bytes -> Bytes, inflate: (Bytes, nat) -> Option<Bytes>)

  /** Inflating undoes deflating, and yields the length asked for or nothing. */
  ghost predicate Lawful(z: Zlib) {
    && (forall b :: z.inflate(z.deflate(b), |b|) == Some(b))
    && (forall s, n :: z.inflate(s, n).Some? ==> |z.inflate(s, n).value| == n)
  }

  datatype PackEntry = PackEntry(id: Oid, kind: Kind, size: nat, zlib: Bytes, group: Option<nat>)

  datatype Form = Base(kind: Kind) | DeltaRef(index: nat)

  datatype Output = Output(id: Oid, form: Form, size: nat, data: Bytes)

  datatype PackError = CorruptZlib(oid: Oid) | Truncated(written: nat, expected: nat)

  datatype PackResult<T> = Packed(value: T) | PackFailed(error: PackError)

  function FullEntry(o: PackEntry): Output {
    Output(o.id, Base(o.kind), o.size, o.zlib)
  }

  // --------------------------------------------------------- candidate cache

  datatype Candidate = Candidate(entryIndex: nat, group: nat, body: Bytes)

  function TotalBytes(cs: seq<Candidate>): nat {
    if cs == [] then 0 else |cs[0].body| + TotalBytes(cs[1..])
  }

  /** The newest candidates that leave room for `need` more bytes and one more entry. */
  function Fitting(cs: seq<Candidate>, need: nat): seq<Candidate> {
    if cs != [] && (TotalBytes(cs) + need > MAX_DELTA_CACHE_BYTES || |cs| >= DELTA_WINDOW) then Fitting(cs[1..], need)
      else cs
  }

  lemma {:induction false} FittingIsSuffix(cs: seq<Candidate>, need: nat)
    ensures |Fitting(cs, need)| <= |cs| && Fitting(cs, need) == cs[|cs| - |Fitting(cs, need)|..]
  {
    if cs != [] {
      FittingIsSuffix(cs[1..], need);
    }
  }

  lemma {:induction false} FittingFits(cs: seq<Candidate>, need: nat)
    requires need <= MAX_DELTA_CACHE_BYTES
    ensures TotalBytes(Fitting(cs, need)) + need <= MAX_DELTA_CACHE_BYTES && |Fitting(cs, need)| < DELTA_WINDOW
  {
    if cs != [] {
      FittingFits(cs[1..], need);
    }
  }

  /** No candidate is dropped that could have stayed: with one more, the bytes or the entries would not fit. */
  lemma {:induction false} FittingMaximal(cs: seq<Candidate>, need: nat)
    requires |Fitting(cs, need)| < |cs|
    ensures var more := cs[|cs| - |Fitting(cs, need)| - 1..];
      TotalBytes(more) + need > MAX_DELTA_CACHE_BYTES || |more| >= DELTA_WINDOW
  {
    hide TotalBytes, Fitting;
    FittingStep(cs, need);
    FittingIsSuffix(cs[1..], need);
    if |Fitting(cs, need)| == |cs| - 1 {
      assert cs[0..] == cs;
    } else {
      FittingMaximal(cs[1..], need);
      var k := |cs| - |Fitting(cs, need)| - 1;
      assert cs[1..][k - 1..] == cs[k..];
    }
  }

  lemma {:induction false} TotalSnoc(cs: seq<Candidate>, c: Candidate)
    ensures TotalBytes(cs + [c]) == TotalBytes(cs) + |c.body|
  {
    if cs == [] {
      assert [c][1..] == [];
    } else {
      assert (cs + [c])[1..] == cs[1..] + [c];
      TotalSnoc(cs[1..], c);
    }
  }

  lemma FittingStep(cs: seq<Candidate>, need: nat)
    ensures TotalBytes(cs) == if cs == [] then 0 else |cs[0].body| + TotalBytes(cs[1..])
    ensures Fitting(cs, need) ==
      if cs != [] && (TotalBytes(cs) + need > MAX_DELTA_CACHE_BYTES || |cs| >= DELTA_WINDOW) then Fitting(cs[1..], need)
        else cs
  {
  }

  class DeltaCandidates {
    var entries: seq<Candidate>
    var bytes: nat

    /** Within both limits, with an exact byte count. */
    ghost predicate Valid()
      reads this
    {
      bytes == TotalBytes(entries) && bytes <= MAX_DELTA_CACHE_BYTES && |entries| <= DELTA_WINDOW
    }

    constructor ()
      ensures Valid() && entries == []
    {
      entries, bytes := [], 0;
    }

    /** Keep a body as a future base, evicting the oldest ones first. */
    method Insert(entryIndex: nat, group: nat, body: Bytes) returns (inserted: bool)
      requires Valid()
      modifies this
      ensures Valid() && (inserted <==> |body| <= MAX_DELTA_CACHE_BYTES)
      ensures entries == if inserted then Fitting(old(entries), |body|) + [Candidate(entryIndex, group, body)]
        else old(entries)
    {
      hide TotalBytes, Fitting;
      if |body| > MAX_DELTA_CACHE_BYTES {
        return false;
      }
      while bytes + |body| > MAX_DELTA_CACHE_BYTES || |entries| >= DELTA_WINDOW
        invariant bytes == TotalBytes(entries)
        invariant Fitting(entries, |body|) == Fitting(old(entries), |body|)
        decreases |entries|
      {
        FittingStep(entries, |body|);
        if entries == [] {
          break;
        }
        bytes := bytes - |entries[0].body|;
        entries := entries[1..];
      }
      FittingStep(entries, |body|);
      FittingFits(old(entries), |body|);
      TotalSnoc(entries, Candidate(entryIndex, group, body));
      bytes := bytes + |body|;
      entries := entries + [Candidate(entryIndex, group, body)];
      return true;
    }
  }

  // ---------------------------------------------------------- choosing a base

  ghost function DeltaTo(base: Bytes, target: Bytes): Bytes
    requires |base| < HALF
  {
    IndexOfOk(base);
    FullDelta(base, target, IndexOf(base))
  }

  ghost predicate Bounded(cs: seq<Candidate>) {
    forall k :: 0 <= k < |cs| ==> |cs[k].body| < HALF
  }

  /** `(index, delta)` is the first shortest delta of at most half the target among the group's candidates. */
  ghost predicate FirstShortest(cs: seq<Candidate>, group: nat, body: Bytes, best: Option<(nat, Bytes)>)
    requires Bounded(cs)
  {
    match best
    case None => forall j :: 0 <= j < |cs| && cs[j].group == group ==> |DeltaTo(cs[j].body, body)| > |body| / 2
    case Some((index, delta)) =>
      && |delta| <= |body| / 2
      && exists k: nat :: IsFirstShortest(cs, group, body, index, delta, k)
  }

  ghost predicate IsFirstShortest(cs: seq<Candidate>, group: nat, body: Bytes, index: nat, delta: Bytes, k: nat)
    requires Bounded(cs)
  {
    && k < |cs| && cs[k].group == group && cs[k].entryIndex == index && delta == DeltaTo(cs[k].body, body)
    && forall j :: 0 <= j < |cs| && cs[j].group == group ==>
      if j < k then |DeltaTo(cs[j].body, body)| > |delta| else |DeltaTo(cs[j].body, body)| >= |delta|
  }

  /** Each accepted delta tightens the budget for the next. */
  method ChooseBase(cs: seq<Candidate>, group: nat, body: Bytes) returns (best: Option<(nat, Bytes)>)
    requires Bounded(cs)
    ensures FirstShortest(cs, group, body, best)
  {
    hide FullDelta, IndexOf, IndexOk;
    var budget := |body| / 2;
    best := None;
    ghost var at: nat := 0;
    for i := 0 to |cs|
      invariant best.None? ==> budget == |body| / 2 && forall j :: 0 <= j < i && cs[j].group == group ==>
              |DeltaTo(cs[j].body, body)| > |body| / 2
      invariant best.Some? ==> 0 < |best.value.1| <= |body| / 2 && budget == |best.value.1| - 1
      invariant best.Some? ==>
              at < i && cs[at].group == group && best.value == (cs[at].entryIndex, DeltaTo(cs[at].body, body))
      invariant best.Some? ==> forall j :: 0 <= j < i && cs[j].group == group ==>
                  if j < at then |DeltaTo(cs[j].body, body)| > |best.value.1|
                    else |DeltaTo(cs[j].body, body)| >= |best.value.1|
    {
      if cs[i].group == group {
        var index := BuildIndex(cs[i].body);
        IndexOfOk(cs[i].body);
        DeltaNotEmpty(cs[i].body, body);
        var delta := MakeDelta(cs[i].body, body, index, budget);
        if delta.Some? {
          budget := if |delta.value| == 0 then 0 else |delta.value| - 1;
          best, at := Some((cs[i].entryIndex, delta.value)), i;
        }
      }
    }
    if best.Some? {
      assert IsFirstShortest(cs, group, body, best.value.0, best.value.1, at);
    }
  }

  lemma DeltaNotEmpty(base: Bytes, target: Bytes)
    requires |base| < HALF
    ensures |DeltaTo(base, target)| > 0
  {
  }

  // --------------------------------------------------------------- the writer

  predicate Eligible(o: PackEntry) {
    o.group.Some? && o.kind == Blob && MIN_DELTA_BLOB_SIZE <= o.size <= MAX_DELTA_BLOB_SIZE
  }

  /** The candidates are earlier full entries of their group, with those entries' exact bodies. */
  ghost predicate CandidatesOk(z: Zlib, objects: seq<PackEntry>, outs: seq<Output>, cs: seq<Candidate>) {
    |outs| <= |objects| && forall k :: 0 <= k < |cs| ==> CandidateOk(z, objects, outs, cs[k])
  }

  ghost predicate CandidateOk(z: Zlib, objects: seq<PackEntry>, outs: seq<Output>, c: Candidate)
    requires |outs| <= |objects|
  {
    && c.entryIndex < |outs| && outs[c.entryIndex] == FullEntry(objects[c.entryIndex])
    && Eligible(objects[c.entryIndex]) && objects[c.entryIndex].group == Some(c.group)
    && z.inflate(objects[c.entryIndex].zlib, objects[c.entryIndex].size) == Some(c.body)
    && |c.body| <= MAX_DELTA_BLOB_SIZE
  }

  /** An entry is the stored object in full, or a delta that rebuilds it from an earlier full entry of its group. */
  ghost predicate EntryFaithful(z: Zlib, objects: seq<PackEntry>, outs: seq<Output>, i: nat)
    requires i < |outs| <= |objects|
  {
    || outs[i] == FullEntry(objects[i])
    || (&& outs[i].id == objects[i].id && outs[i].form.DeltaRef?
        && DeltaFaithful(z, objects, outs, i, outs[i].form.index))
  }

  ghost predicate DeltaFaithful(z: Zlib, objects: seq<PackEntry>, outs: seq<Output>, i: nat, j: nat)
    requires i < |outs| <= |objects|
  {
    && j < i && outs[j] == FullEntry(objects[j]) && objects[j].kind == objects[i].kind == Blob
    && objects[i].group.Some? && objects[j].group == objects[i].group
    && |outs[i].data| + MIN_DELTA_SAVINGS < |objects[i].zlib|
    && var base, delta := z.inflate(objects[j].zlib, objects[j].size), z.inflate(outs[i].data, outs[i].size);
       && base.Some? && delta.Some?
       && ApplyDelta(base.value, delta.value).Some?
       && ApplyDelta(base.value, delta.value) == z.inflate(objects[i].zlib, objects[i].size)
  }

  /** The entry for a choice of base: the delta when it saves more than its overhead, otherwise the full form. */
  function EntryWith(z: Zlib, o: PackEntry, best: Option<(nat, Bytes)>): Output {
    if best.Some? && |z.deflate(best.value.1)| + MIN_DELTA_SAVINGS < |o.zlib|
    then Output(o.id, DeltaRef(best.value.0), |best.value.1|, z.deflate(best.value.1))
    else FullEntry(o)
  }

  /** An eligible blob is written against its first shortest delta if worth it; only a full one becomes a base. */
  ghost predicate Decides(z: Zlib, o: PackEntry, index: nat, before: seq<Candidate>, out: Output, after: seq<Candidate>)
    requires o.group.Some?
  {
    var body := z.inflate(o.zlib, o.size);
    && body.Some? && Bounded(before)
    && (exists best :: FirstShortest(before, o.group.value, body.value, best) && out == EntryWith(z, o, best))
    && after == if out.form.DeltaRef? then before
      else Fitting(before, |body.value|) + [Candidate(index, o.group.value, body.value)]
  }

  /**
   One object's entry and what it does to the candidates: a grouped blob of 512 bytes to 2 MiB is decided on,
   anything else is written in full.
   */
  ghost predicate Writes(z: Zlib, o: PackEntry, index: nat, before: seq<Candidate>, out: Output, after: seq<Candidate>)
  {
    if o.group.Some? && o.kind == Blob && 512 <= o.size <= 0x20_0000 then Decides(z, o, index, before, out, after)
      else out == FullEntry(o) && after == before
  }

  /** The candidates before each object and after the last: `outs` is what planning every object in turn gives. */
  ghost predicate Planned(z: Zlib, objects: seq<PackEntry>, outs: seq<Output>, trace: seq<seq<Candidate>>) {
    && |trace| == |outs| + 1 && |outs| <= |objects| && trace[0] == []
    && forall i :: 0 <= i < |outs| ==> Writes(z, objects[i], i, trace[i], outs[i], trace[i + 1])
  }

  lemma PlannedMore(z: Zlib, objects: seq<PackEntry>, outs: seq<Output>, trace: seq<seq<Candidate>>, out: Output,
                    after: seq<Candidate>)
    requires Planned(z, objects, outs, trace) && |outs| < |objects|
    requires Writes(z, objects[|outs|], |outs|, trace[|outs|], out, after)
    ensures Planned(z, objects, outs + [out], trace + [after])
  {
    hide Writes;
    var outs', trace' := outs + [out], trace + [after];
    forall i | 0 <= i < |outs'|
      ensures Writes(z, objects[i], i, trace'[i], outs'[i], trace'[i + 1])
    {
      if i < |outs| {
        assert Writes(z, objects[i], i, trace[i], outs[i], trace[i + 1]);
      }
    }
  }

  /** There is one first shortest delta. */
  lemma FirstShortestUnique(cs: seq<Candidate>, group: nat, body: Bytes, a: Option<(nat, Bytes)>,
                            b: Option<(nat, Bytes)>)
    requires Bounded(cs) && FirstShortest(cs, group, body, a) && FirstShortest(cs, group, body, b)
    ensures a == b
  {
    hide DeltaTo, Bounded;
    if a.Some? && b.Some? {
      var j: nat :| IsFirstShortest(cs, group, body, a.value.0, a.value.1, j);
      var k: nat :| IsFirstShortest(cs, group, body, b.value.0, b.value.1, k);
      assert j == k;
    }
  }

  /** Planning is a function of the objects: entries and candidates are determined at every position. */
  lemma {:induction false} PlanDetermined(z: Zlib, objects: seq<PackEntry>, outs: seq<Output>,
                                          trace: seq<seq<Candidate>>, outs': seq<Output>, trace': seq<seq<Candidate>>,
                                          n: nat)
    requires Planned(z, objects, outs, trace) && Planned(z, objects, outs', trace') && n <= |outs| && n <= |outs'|
    ensures trace[n] == trace'[n] && (n > 0 ==> outs[n - 1] == outs'[n - 1])
    decreases n
  {
    hide Writes;
    if n > 0 {
      PlanDetermined(z, objects, outs, trace, outs', trace', n - 1);
      assert Writes(z, objects[n - 1], n - 1, trace[n - 1], outs[n - 1], trace[n - 1 + 1]);
      assert Writes(z, objects[n - 1], n - 1, trace'[n - 1], outs'[n - 1], trace'[n - 1 + 1]);
      WritesDetermined(z, objects[n - 1], n - 1, trace[n - 1], outs[n - 1], trace[n], outs'[n - 1], trace'[n]);
    }
  }

  lemma WritesDetermined(z: Zlib, o: PackEntry, index: nat, before: seq<Candidate>, out: Output, after: seq<Candidate>,
                         out': Output, after': seq<Candidate>)
    requires Writes(z, o, index, before, out, after) && Writes(z, o, index, before, out', after')
    ensures out == out' && after == after'
  {
    hide FirstShortest, Fitting, Bounded;
    if o.group.Some? && o.kind == Blob && 512 <= o.size <= 0x20_0000 {
      var group, body := o.group.value, z.inflate(o.zlib, o.size).value;
      var a :| FirstShortest(before, group, body, a) && out == EntryWith(z, o, a);
      var b :| FirstShortest(before, group, body, b) && out' == EntryWith(z, o, b);
      FirstShortestUnique(before, group, body, a, b);
    }
  }

  /** The objects deltas are considered for: grouped blobs of 512 bytes to 2 MiB that can be inflated. */
  ghost predicate Considered(z: Zlib, o: PackEntry) {
    o.group.Some? && o.kind == Blob && 512 <= o.size <= 0x20_0000 && z.inflate(o.zlib, o.size).Some?
  }

  /** Deltas of at most half the body from every candidate of the group would each save more than 32 bytes. */
  ghost predicate AllWorth(z: Zlib, o: PackEntry, cs: seq<Candidate>)
    requires Considered(z, o) && Bounded(cs)
  {
    var body := z.inflate(o.zlib, o.size).value;
    forall k :: 0 <= k < |cs| && cs[k].group == o.group.value && |DeltaTo(cs[k].body, body)| <= |body| / 2 ==>
      |z.deflate(DeltaTo(cs[k].body, body))| + 32 < |o.zlib|
  }

  /** A worthwhile delta is not passed over, and none of the candidates gives a shorter one. */
  lemma WorthIsTaken(z: Zlib, objects: seq<PackEntry>, outs: seq<Output>, trace: seq<seq<Candidate>>, i: nat, k: nat)
    requires Planned(z, objects, outs, trace) && i < |outs| && Considered(z, objects[i]) && Bounded(trace[i])
    requires k < |trace[i]| && Some(trace[i][k].group) == objects[i].group && AllWorth(z, objects[i], trace[i])
    requires var body := z.inflate(objects[i].zlib, objects[i].size).value;
      |DeltaTo(trace[i][k].body, body)| <= |body| / 2
    ensures var body := z.inflate(objects[i].zlib, objects[i].size).value;
      && outs[i].form.DeltaRef? && outs[i].size <= |DeltaTo(trace[i][k].body, body)|
      && trace[i + 1] == trace[i]
  {
    hide DeltaTo, Fitting, Bounded;
    var o, cs := objects[i], trace[i];
    var body := z.inflate(o.zlib, o.size).value;
    assert Writes(z, o, i, cs, outs[i], trace[i + 1]);
    var best :| FirstShortest(cs, o.group.value, body, best) && outs[i] == EntryWith(z, o, best);
    var at: nat :| IsFirstShortest(cs, o.group.value, body, best.value.0, best.value.1, at);
  }

  /** Only an object considered is written as a delta, and only as one of at most half its size. */
  lemma DeltaIsSmall(z: Zlib, objects: seq<PackEntry>, outs: seq<Output>, trace: seq<seq<Candidate>>, i: nat)
    requires Planned(z, objects, outs, trace) && i < |outs| && outs[i].form.DeltaRef?
    ensures Considered(z, objects[i]) && outs[i].size <= |z.inflate(objects[i].zlib, objects[i].size).value| / 2
    ensures |outs[i].data| + 32 < |objects[i].zlib| && trace[i + 1] == trace[i]
  {
    hide DeltaTo, Fitting, Bounded, IsFirstShortest;
    assert Writes(z, objects[i], i, trace[i], outs[i], trace[i + 1]);
  }

  /** An object considered and written in full is the newest candidate for what follows. */
  lemma FullIsNewestBase(z: Zlib, objects: seq<PackEntry>, outs: seq<Output>, trace: seq<seq<Candidate>>, i: nat)
    requires Planned(z, objects, outs, trace) && i < |outs| && Considered(z, objects[i]) && outs[i].form.Base?
    ensures var after := trace[i + 1];
      && |after| > 0
      && after[|after| - 1] ==
         Candidate(i, objects[i].group.value, z.inflate(objects[i].zlib, objects[i].size).value)
      && forall k :: 0 <= k < |after| - 1 ==> after[k] in trace[i]
  {
    hide DeltaTo, Fitting, FirstShortest;
    assert Writes(z, objects[i], i, trace[i], outs[i], trace[i + 1]);
    FittingIsSuffix(trace[i], |z.inflate(objects[i].zlib, objects[i].size).value|);
  }

  /** A delta against the best candidate if it saves enough, otherwise the full entry, which may become a base. */
  method DeltaOrFull(z: Zlib, entry: PackEntry, entryIndex: nat, candidates: DeltaCandidates,
                     ghost objects: seq<PackEntry>, ghost outs: seq<Output>) returns (r: PackResult<Output>)
    requires Lawful(z) && candidates.Valid() && CandidatesOk(z, objects, outs, candidates.entries)
    requires entryIndex == |outs| < |objects| && objects[entryIndex] == entry
    modifies candidates
    ensures candidates.Valid()
    ensures r.PackFailed? ==>
            r.error == CorruptZlib(entry.id) && Eligible(entry) && z.inflate(entry.zlib, entry.size) == None
    ensures r.Packed? ==> EntryFaithful(z, objects, outs + [r.value], entryIndex)
    ensures r.Packed? ==> CandidatesOk(z, objects, outs + [r.value], candidates.entries)
    ensures r.Packed? ==> Writes(z, entry, entryIndex, old(candidates.entries), r.value, candidates.entries)
  {
    hide ApplyDelta, FullDelta, IndexOf, IndexOk, TotalBytes, Fitting, Lawful;
    r := Packed(FullEntry(entry));
    OutsGrow(z, objects, outs, FullEntry(entry), candidates.entries);
    if !Eligible(entry) {
      return;
    }
    var body := z.inflate(entry.zlib, entry.size);
    if body.None? {
      return PackFailed(CorruptZlib(entry.id));
    }
    InflateLength(z, entry.zlib, entry.size);
    var best := ChooseBase(candidates.entries, entry.group.value, body.value);
    if best.Some? {
      var (baseIndex, delta) := best.value;
      var compressed := z.deflate(delta);
      if |compressed| + MIN_DELTA_SAVINGS < |entry.zlib| {
        var out := Output(entry.id, DeltaRef(baseIndex), |delta|, compressed);
        OutsGrow(z, objects, outs, out, candidates.entries);
        ChosenFaithful(z, objects, outs, candidates.entries, entry.group.value, body.value, baseIndex, delta, out);
        return Packed(out);
      }
    }
    ghost var before := candidates.entries;
    var _ := candidates.Insert(entryIndex, entry.group.value, body.value);
    assert CandidateOk(z, objects, outs + [FullEntry(entry)], Candidate(entryIndex, entry.group.value, body.value));
    FittingKeeps(z, objects, outs + [FullEntry(entry)], before, |body.value|);
  }

  lemma InflateLength(z: Zlib, s: Bytes, n: nat)
    requires Lawful(z)
    ensures z.inflate(s, n).Some? ==> |z.inflate(s, n).value| == n
  {
  }

  lemma OutsGrow(z: Zlib, objects: seq<PackEntry>, outs: seq<Output>, out: Output, cs: seq<Candidate>)
    requires CandidatesOk(z, objects, outs, cs) && |outs| < |objects|
    ensures CandidatesOk(z, objects, outs + [out], cs)
    ensures Bounded(cs)
  {
    forall k | 0 <= k < |cs|
      ensures CandidateOk(z, objects, outs + [out], cs[k])
    {
      assert CandidateOk(z, objects, outs, cs[k]);
    }
  }

  lemma FittingKeeps(z: Zlib, objects: seq<PackEntry>, outs: seq<Output>, cs: seq<Candidate>, need: nat)
    requires CandidatesOk(z, objects, outs, cs)
    ensures CandidatesOk(z, objects, outs, Fitting(cs, need))
  {
    hide TotalBytes, Fitting;
    FittingIsSuffix(cs, need);
    var r := Fitting(cs, need);
    forall k | 0 <= k < |r|
      ensures CandidateOk(z, objects, outs, r[k])
    {
      assert r[k] == cs[|cs| - |r| + k];
    }
  }

  /** The chosen delta rebuilds the body from the entry it names. */
  lemma ChosenFaithful(z: Zlib, objects: seq<PackEntry>, outs: seq<Output>, cs: seq<Candidate>, group: nat, body: Bytes,
                       index: nat, delta: Bytes, out: Output)
    requires Lawful(z) && CandidatesOk(z, objects, outs, cs) && Bounded(cs) && |outs| < |objects|
    requires FirstShortest(cs, group, body, Some((index, delta)))
    requires var o := objects[|outs|];
      && Eligible(o) && o.group == Some(group) && z.inflate(o.zlib, o.size) == Some(body)
      && out == Output(o.id, DeltaRef(index), |delta|, z.deflate(delta)) && |out.data| + MIN_DELTA_SAVINGS < |o.zlib|
    ensures EntryFaithful(z, objects, outs + [out], |outs|)
  {
    hide ApplyDelta, FullDelta, IndexOf, IndexOk;
    var k: nat :| IsFirstShortest(cs, group, body, index, delta, k);
    assert CandidateOk(z, objects, outs, cs[k]);
    IndexOfOk(cs[k].body);
    DeltaDecodes(cs[k].body, body, IndexOf(cs[k].body));
    assert z.inflate(z.deflate(delta), |delta|) == Some(delta);
  }

  /**
   The entries of a pack, in input order; ending before the promised count is an error. The
   candidates' history is a ghost result.
   */
  method WritePack(z: Zlib, objects: seq<PackEntry>, expected: nat, ofsDeltas: bool)
    returns (r: PackResult<seq<Output>>, ghost trace: seq<seq<Candidate>>)
    requires Lawful(z)
    ensures r.Packed? ==> |r.value| == |objects| == expected && forall i :: 0 <= i < |objects| ==>
            EntryFaithful(z, objects, r.value, i)
    ensures r.Packed? && ofsDeltas ==> Planned(z, objects, r.value, trace)
    ensures r.Packed? && !ofsDeltas ==> forall i :: 0 <= i < |objects| ==> r.value[i] == FullEntry(objects[i])
    ensures r.PackFailed? && r.error.Truncated? ==> |objects| != expected && r.error == Truncated(|objects|, expected)
    ensures r.PackFailed? && !r.error.Truncated? ==>
              ofsDeltas && exists o :: o in objects && r.error == CorruptZlib(o.id) && z.inflate(o.zlib, o.size) == None
  {
    hide Lawful, DeltaFaithful, Planned, Writes;
    var candidates := new DeltaCandidates();
    var outs: seq<Output> := [];
    trace := [[]];
    NothingPlanned(z, objects);
    for i := 0 to |objects|
      invariant |outs| == i && candidates.Valid() && fresh(candidates)
      invariant CandidatesOk(z, objects, outs, candidates.entries)
      invariant ofsDeltas ==> Planned(z, objects, outs, trace) && |trace| == i + 1 && trace[i] == candidates.entries
      invariant forall j :: 0 <= j < i ==> EntryFaithful(z, objects, outs, j)
      invariant !ofsDeltas ==> forall j :: 0 <= j < i ==> outs[j] == FullEntry(objects[j])
    {
      var out := FullEntry(objects[i]);
      if ofsDeltas {
        var step := DeltaOrFull(z, objects[i], i, candidates, objects, outs);
        if step.PackFailed? {
          assert objects[i] in objects;
          return PackFailed(step.error), trace;
        }
        out := step.value;
        PlannedMore(z, objects, outs, trace, out, candidates.entries);
        trace := trace + [candidates.entries];
      } else {
        OutsGrow(z, objects, outs, out, candidates.entries);
      }
      forall j | 0 <= j < i
        ensures EntryFaithful(z, objects, outs + [out], j)
      {
        FaithfulStays(z, objects, outs, out, j);
      }
      outs := outs + [out];
    }
    if |outs| != expected {
      return PackFailed(Truncated(|outs|, expected)), trace;
    }
    r := Packed(outs);
  }

  lemma NothingPlanned(z: Zlib, objects: seq<PackEntry>)
    ensures Planned(z, objects, [], [[]])
  {
  }

  lemma FaithfulStays(z: Zlib, objects: seq<PackEntry>, outs: seq<Output>, out: Output, i: nat)
    requires i < |outs| < |objects| && EntryFaithful(z, objects, outs, i)
    ensures EntryFaithful(z, objects, outs + [out], i)
  {
  }

  /** What a client obtains for entry `i`: full entries inflate, deltas apply to what their base decodes to. */
  function DecodedEntry(z: Zlib, outs: seq<Output>, i: nat): Option<Bytes>
    requires i < |outs|
    decreases i
  {
    var out := outs[i];
    match out.form
    case Base(_) => z.inflate(out.data, out.size)
    case DeltaRef(j) =>
      if j >= i then None
      else
        match (DecodedEntry(z, outs, j), z.inflate(out.data, out.size))
        case (Some(base), Some(delta)) => ApplyDelta(base, delta)
        case _ => None
  }

  /** Decoding a written pack gives back every stored object, over chains of depth at most one. */
  lemma PackDecodes(z: Zlib, objects: seq<PackEntry>, outs: seq<Output>, i: nat)
    requires |outs| == |objects| && i < |outs| && forall k :: 0 <= k < |outs| ==> EntryFaithful(z, objects, outs, k)
    ensures DecodedEntry(z, outs, i) == z.inflate(objects[i].zlib, objects[i].size)
    ensures outs[i].form.DeltaRef? ==> outs[i].form.index < i && outs[outs[i].form.index].form.Base?
  {
    hide ApplyDelta;
    assert EntryFaithful(z, objects, outs, i);
    if outs[i].form.DeltaRef? && outs[i] != FullEntry(objects[i]) {
      var j := outs[i].form.index;
      assert DecodedEntry(z, outs, j) == z.inflate(objects[j].zlib, objects[j].size);
    }
  }
}
