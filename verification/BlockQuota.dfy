/**
 How many offsets the block index keeps. Of one fingerprint there are never more
 than four; of one tag there can be more, because blocks whose fingerprints
 share a tag can have overlapping probe windows.
 */
module BlockQuota {
  import opened DeltaFormat
  import opened BlockIndexing

  ghost predicate BlockAt(base: Bytes, offset: nat, fingerprint: nat) {
    && offset % MIN_COPY == 0 && offset + MIN_COPY <= |base|
    && BlockHash(base[offset..offset + MIN_COPY]) == fingerprint
  }

  /** The entry names a block of the base with this fingerprint. */
  ghost predicate MadeOf(base: Bytes, e: nat, fingerprint: nat) {
    exists offset: nat :: BlockAt(base, offset, fingerprint) && e == EntryFor(fingerprint, offset)
  }

  ghost function SlotsOf(base: Bytes, slots: seq<nat>, fingerprint: nat): set<nat> {
    set s: nat | s < |slots| && MadeOf(base, slots[s], fingerprint)
  }

  /** A fingerprint's entries lie in the used part of its window, and there are at most four. */
  ghost predicate WithinQuota(base: Bytes, ix: Index, fingerprint: nat)
    requires Shaped(ix)
  {
    var home, free := HomeOf(ix.shift, fingerprint), FirstFree(WindowOf(ix, fingerprint));
    && (forall s :: s in SlotsOf(base, ix.slots, fingerprint) ==> home <= s < home + free)
    && |SlotsOf(base, ix.slots, fingerprint)| <= MAX_BLOCK_MATCHES
  }

  ghost function Tagged(w: seq<nat>, tag: nat): set<nat> {
    set i: nat | i < |w| && w[i] / HALF == tag
  }

  lemma {:induction false} TaggedCount(w: seq<nat>, tag: nat)
    ensures |Tagged(w, tag)| == TagCount(w, tag)
    decreases |w|
  {
    if w == [] {
      assert Tagged(w, tag) == {};
    } else {
      var n := |w| - 1;
      TaggedCount(w[..n], tag);
      if w[n] / HALF == tag {
        assert Tagged(w, tag) == Tagged(w[..n], tag) + {n};
      } else {
        assert Tagged(w, tag) == Tagged(w[..n], tag);
      }
    }
  }

  lemma {:induction false} ShiftedSize(s: set<nat>, t: set<nat>, home: nat)
    requires forall x :: x in s ==> home <= x && x - home in t
    ensures |s| <= |t|
    decreases |s|
  {
    if s != {} {
      var x :| x in s;
      ShiftedSize(s - {x}, t - {x - home}, home);
    }
  }

  /** The entries of a fingerprint are among those with its tag before the first free slot. */
  lemma CountedByTag(base: Bytes, ix: Index, fingerprint: nat)
    requires Shaped(ix) && |base| < HALF && WithinQuota(base, ix, fingerprint)
    ensures var w := WindowOf(ix, fingerprint);
      |SlotsOf(base, ix.slots, fingerprint)| <= TagCount(w[..FirstFree(w)], fingerprint / HALF)
  {
    hide BlockHash, HomeOf, FirstFree, Two, EntryFor, TagCount, Shaped;
    ProbeInBounds(ix, fingerprint);
    var home, w := HomeOf(ix.shift, fingerprint), WindowOf(ix, fingerprint);
    var used := w[..FirstFree(w)];
    forall s | s in SlotsOf(base, ix.slots, fingerprint)
      ensures home <= s && s - home in Tagged(used, fingerprint / HALF)
    {
      assert used[s - home] == ix.slots[s];
      MadeHasTag(base, ix.slots[s], fingerprint);
    }
    ShiftedSize(SlotsOf(base, ix.slots, fingerprint), Tagged(used, fingerprint / HALF), home);
    TaggedCount(used, fingerprint / HALF);
  }

  lemma MadeHasTag(base: Bytes, e: nat, fingerprint: nat)
    requires |base| < HALF && MadeOf(base, e, fingerprint)
    ensures e / HALF == fingerprint / HALF
  {
    hide BlockHash;
    var offset: nat :| BlockAt(base, offset, fingerprint) && e == EntryFor(fingerprint, offset);
    EntryParts(fingerprint, offset);
  }

  /** An entry is made of the fingerprint it was inserted under, and of no other. */
  lemma MadeOfOne(base: Bytes, offset: nat, f: nat, h: nat)
    requires |base| < HALF && BlockAt(base, offset, f)
    ensures MadeOf(base, EntryFor(f, offset), h) <==> f == h
  {
    hide BlockHash, EntryFor;
    EntryParts(f, offset);
    if MadeOf(base, EntryFor(f, offset), h) {
      var o: nat :| BlockAt(base, o, h) && EntryFor(f, offset) == EntryFor(h, o);
      EntryParts(h, o);
    }
  }

  lemma NotMadeOfNothing(base: Bytes, h: nat)
    ensures !MadeOf(base, 0, h)
  {
    hide BlockHash;
  }

  /** Filling a free slot never uncovers one: the used part of any window only grows. */
  lemma UsedPartGrows(ix: Index, f: nat, offset: nat, h: nat)
    requires Shaped(ix)
    ensures var after := Index(InsertedSlots(ix, f, offset), ix.shift);
      Shaped(after) && FirstFree(WindowOf(ix, h)) <= FirstFree(WindowOf(after, h))
  {
    hide HomeOf, EntryFor, FirstFree, TagCount, InsertedSlots, Shaped, Two;
    InsertedShape(ix, f, offset);
    ProbeInBounds(ix, h);
    EntryPositive(f, offset);
    var after := Index(InsertedSlots(ix, f, offset), ix.shift);
    var was, now := WindowOf(ix, h), WindowOf(after, h);
    var home := HomeOf(ix.shift, h);
    forall i | 0 <= i < FirstFree(was)
      ensures now[i] != 0
    {
      assert was[i] == ix.slots[home + i] && now[i] == after.slots[home + i];
    }
    FirstFreeAfter(now, FirstFree(was));
  }

  /** The slot an insertion fills, if it fills one. */
  ghost predicate Fills(ix: Index, f: nat, offset: nat, free: nat)
    requires Shaped(ix) && free <= PROBE_WINDOW
  {
    var s := HomeOf(ix.shift, f) + free;
    && free < PROBE_WINDOW && TagCount(WindowOf(ix, f)[..free], f / HALF) < MAX_BLOCK_MATCHES
    && s < |ix.slots| && ix.slots[s] == 0
    && InsertedSlots(ix, f, offset) == ix.slots[s := EntryFor(f, offset)]
  }

  lemma FillsOrNot(ix: Index, f: nat, offset: nat)
    requires Shaped(ix)
    ensures InsertedSlots(ix, f, offset) == ix.slots || Fills(ix, f, offset, FirstFree(WindowOf(ix, f)))
  {
    hide HomeOf, EntryFor, FirstFree, TagCount, Shaped;
    ProbeInBounds(ix, f);
  }

  /** One insertion keeps every fingerprint within its quota. */
  lemma QuotaKept(base: Bytes, ix: Index, f: nat, offset: nat, h: nat)
    requires |base| < HALF && Shaped(ix) && WithinQuota(base, ix, h) && BlockAt(base, offset, f)
    ensures var after := Index(InsertedSlots(ix, f, offset), ix.shift); Shaped(after) && WithinQuota(base, after, h)
  {
    hide BlockHash, HomeOf, EntryFor, FirstFree, TagCount, Shaped, MadeOf, InsertedSlots, WithinQuota, SlotsOf;
    FillsOrNot(ix, f, offset);
    UsedPartGrows(ix, f, offset, h);
    if InsertedSlots(ix, f, offset) == ix.slots {
      assert Index(InsertedSlots(ix, f, offset), ix.shift) == ix;
    } else if f != h {
      OthersQuota(base, ix, f, offset, h);
    } else {
      OwnQuota(base, ix, f, offset);
    }
  }

  lemma OthersQuota(base: Bytes, ix: Index, f: nat, offset: nat, h: nat)
    requires |base| < HALF && Shaped(ix) && WithinQuota(base, ix, h) && BlockAt(base, offset, f) && f != h
    requires Fills(ix, f, offset, FirstFree(WindowOf(ix, f)))
    ensures var after := Index(InsertedSlots(ix, f, offset), ix.shift); Shaped(after) && WithinQuota(base, after, h)
  {
    hide BlockHash, HomeOf, EntryFor, FirstFree, TagCount, Shaped, MadeOf, InsertedSlots, SlotsOf;
    UsedPartGrows(ix, f, offset, h);
    MadeOfOne(base, offset, f, h);
    NotMadeOfNothing(base, h);
    SlotTaken(base, ix.slots, HomeOf(ix.shift, f) + FirstFree(WindowOf(ix, f)), EntryFor(f, offset), h);
  }

  lemma OwnQuota(base: Bytes, ix: Index, f: nat, offset: nat)
    requires |base| < HALF && Shaped(ix) && WithinQuota(base, ix, f) && BlockAt(base, offset, f)
    requires Fills(ix, f, offset, FirstFree(WindowOf(ix, f)))
    ensures var after := Index(InsertedSlots(ix, f, offset), ix.shift); Shaped(after) && WithinQuota(base, after, f)
  {
    hide BlockHash, HomeOf, EntryFor, FirstFree, TagCount, Shaped, MadeOf, InsertedSlots, SlotsOf;
    var free, after := FirstFree(WindowOf(ix, f)), Index(InsertedSlots(ix, f, offset), ix.shift);
    UsedPartGrows(ix, f, offset, f);
    MadeOfOne(base, offset, f, f);
    NotMadeOfNothing(base, f);
    SlotTaken(base, ix.slots, HomeOf(ix.shift, f) + free, EntryFor(f, offset), f);
    CountedByTag(base, ix, f);
    EntryPositive(f, offset);
    TakenIsUsed(ix, after, f, free, EntryFor(f, offset));
  }

  lemma SlotTaken(base: Bytes, slots: seq<nat>, s: nat, e: nat, h: nat)
    requires s < |slots| && !MadeOf(base, slots[s], h)
    ensures SlotsOf(base, slots[s := e], h) == SlotsOf(base, slots, h) + if MadeOf(base, e, h) then {s} else {}
  {
    hide MadeOf;
  }

  /** The slot just filled belongs to the used part of the window. */
  lemma TakenIsUsed(ix: Index, after: Index, f: nat, free: nat, e: nat)
    requires Shaped(ix) && Shaped(after) && ix.shift == after.shift && |ix.slots| == |after.slots|
    requires free == FirstFree(WindowOf(ix, f)) < PROBE_WINDOW
    requires HomeOf(ix.shift, f) + free < |ix.slots|
    requires e > 0 && after.slots == ix.slots[HomeOf(ix.shift, f) + free := e]
    ensures FirstFree(WindowOf(after, f)) > free
  {
    hide HomeOf, FirstFree, Shaped, Two;
    ProbeInBounds(ix, f);
    var was, now := WindowOf(ix, f), WindowOf(after, f);
    assert forall i :: 0 <= i < free ==> now[i] == was[i];
    FirstFreeAfter(now, free + 1);
  }

  lemma {:induction false} IndexUpToQuota(base: Bytes, k: nat, h: nat)
    requires |base| < HALF && k * MIN_COPY <= |base| && HomesLog(base) <= 64
    ensures WithinQuota(base, IndexUpTo(base, k), h)
    decreases k
  {
    hide BlockHash, HomeOf, EntryFor, FirstFree, TagCount, Shaped, MadeOf, InsertedSlots, HomesLog, Two, WithinQuota;
    if k == 0 {
      NoSlots(base, IndexUpTo(base, 0), h);
    } else {
      IndexUpToQuota(base, k - 1, h);
      var offset := (k - 1) * MIN_COPY;
      QuotaKept(base, IndexUpTo(base, k - 1), BlockHash(base[offset..offset + MIN_COPY]), offset, h);
    }
  }

  lemma NoSlots(base: Bytes, ix: Index, h: nat)
    requires Shaped(ix) && forall i :: 0 <= i < |ix.slots| ==> ix.slots[i] == 0
    ensures WithinQuota(base, ix, h)
  {
    hide MadeOf, FirstFree, HomeOf, Shaped;
    NotMadeOfNothing(base, h);
    assert SlotsOf(base, ix.slots, h) == {};
  }

  /** The index of a base holds at most four offsets of any one fingerprint. */
  lemma FingerprintQuota(base: Bytes, h: nat)
    requires |base| < HALF
    ensures |SlotsOf(base, IndexOf(base).slots, h)| <= MAX_BLOCK_MATCHES
  {
    hide IndexUpTo, SlotsOf, HomesLog;
    HomesLogBound(base);
    IndexUpToQuota(base, |base| / MIN_COPY, h);
  }

  // ------------------------------------------------------------- per tag

  /** Four blocks with fingerprint 1 and one with fingerprint 14, whose home is the next slot. */
  const NEIGHBOURS: Bytes := seq(80, (i: nat) => if i % 16 != 15 then 0 else if i < 64 then 1 else 14)

  function NeighbourFingerprint(k: nat): nat {
    if k < 4 then 1 else 14
  }

  lemma {:induction false} ZerosHash(w: Bytes)
    requires forall i :: 0 <= i < |w| ==> w[i] == 0
    ensures BlockHash(w) == 0
    decreases |w|
  {
    if w != [] {
      ZerosHash(w[..|w| - 1]);
    }
  }

  lemma NeighbourHash(k: nat)
    requires k < 5
    ensures BlockHash(NEIGHBOURS[16 * k..16 * k + MIN_COPY]) == NeighbourFingerprint(k)
  {
    var w := NEIGHBOURS[16 * k..16 * k + MIN_COPY];
    ZerosHash(w[..15]);
  }

  lemma NeighbourHomes()
    ensures HomesLog(NEIGHBOURS) == 5 && Two(5) == 32 && HomeOf(59, 1) == 19 && HomeOf(59, 14) == 20
  {
    PowFacts();
    assert Pow(2, 5) == 32;
    WordIsPow();
    PowAdd(5, 59);
    assert Two(59) == 0x800_0000_0000_0000;
  }

  lemma {:induction false} TagCountAtMost(w: seq<nat>, tag: nat)
    ensures TagCount(w, tag) <= |w|
    decreases |w|
  {
    if w != [] {
      TagCountAtMost(w[..|w| - 1], tag);
    }
  }

  function NeighbourSlots(k: nat): seq<nat> {
    seq(40, (i: nat) => if 19 <= i < 19 + k then 16 * (i - 19) + 1 else 0)
  }

  /** Each block takes the next slot behind the ones before it. */
  lemma {:induction false} NeighboursIndexed(k: nat)
    requires k <= 5
    ensures HomesLog(NEIGHBOURS) == 5 && IndexUpTo(NEIGHBOURS, k) == Index(NeighbourSlots(k), 59)
    decreases k
  {
    hide BlockHash, HomeOf, FirstFree, TagCount, Shaped, InsertedSlots, HomesLog, Two;
    NeighbourHomes();
    if k > 0 {
      NeighboursIndexed(k - 1);
      var ix, h := IndexUpTo(NEIGHBOURS, k - 1), NeighbourFingerprint(k - 1);
      NeighbourHash(k - 1);
      var free := if k < 5 then k - 1 else 3;
      var home, w := HomeOf(59, h), WindowOf(ix, h);
      assert forall i :: 0 <= i < PROBE_WINDOW ==> w[i] == NeighbourSlots(k - 1)[home + i];
      assert w[free] == 0 && forall i :: 0 <= i < free ==> w[i] != 0;
      TagCountAtMost(w[..free], h / HALF);
      FreeSlotTaken(ix, h, 16 * (k - 1), free);
    }
  }

  /** Five offsets of one tag in one probe window: the quota does not hold for tags. */
  lemma TagOverQuota()
    ensures var w := WindowOf(IndexOf(NEIGHBOURS), 1);
      w[..5] == [1, 17, 33, 49, 65] && TagCount(w[..5], 1 / HALF) > MAX_BLOCK_MATCHES
  {
    hide BlockHash, HomeOf, FirstFree, Shaped, HomesLog, Two, IndexUpTo, TagCount;
    NeighbourHomes();
    NeighboursIndexed(5);
    assert IndexOf(NEIGHBOURS) == Index(NeighbourSlots(5), 59);
    var w := WindowOf(IndexOf(NEIGHBOURS), 1);
    assert w[..5] == [1, 17, 33, 49, 65];
    TagCountNext(w, 0, 0);
    for i := 0 to 5
      invariant TagCount(w[..i], 0) == i
    {
      TagCountNext(w, i, 0);
    }
  }
}
