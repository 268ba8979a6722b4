/**
 The block fingerprint and the bounded-probe index over a delta base. Fingerprints
 are 64-bit values; wrap-around is written out. Rolling the hash one byte gives
 what hashing the shifted window afresh would.
 */
module BlockIndexing {
  import opened DeltaFormat

  const WORD := 0x1_0000_0000_0000_0000
  const HALF := 0x1_0000_0000
  const MIN_COPY := 16
  const PROBE_WINDOW := 8
  const MAX_BLOCK_MATCHES := 4
  const HASH_BASE := 0x9e37_79b9_7f4a_7c15

  function WrappingPow(n: nat): nat {
    if n == 0 then 1 else (WrappingPow(n - 1) * HASH_BASE) % WORD
  }

  const HASH_TOP := WrappingPow(MIN_COPY - 1)

  function BlockHash(window: Bytes): (h: nat)
    ensures h < WORD
  {
    if window == [] then 0
    else ((BlockHash(window[..|window| - 1]) * HASH_BASE) % WORD + window[|window| - 1]) % WORD
  }

  function RollHash(hash: nat, outByte: Byte, inByte: Byte): nat {
    ((((hash - (outByte * HASH_TOP) % WORD) % WORD) * HASH_BASE) % WORD + inByte) % WORD
  }

  // ----------------------------------------------------------- rolling hash

  /** The fingerprint before any wrap-around. */
  ghost function Polynomial(window: Bytes): int {
    if window == [] then 0 else Polynomial(window[..|window| - 1]) * HASH_BASE + window[|window| - 1]
  }

  lemma DropMultiple(r: int, q: int)
    ensures (r + WORD * q) % WORD == r % WORD
  {
  }

  lemma MulMod(a: int, b: int)
    ensures ((a % WORD) * b) % WORD == (a * b) % WORD
  {
    var q, r := a / WORD, a % WORD;
    assert a == WORD * q + r;
    assert a * b == r * b + WORD * (q * b);
    DropMultiple(r * b, q * b);
  }

  lemma AddMod(a: int, b: int)
    ensures ((a % WORD) + b) % WORD == (a + b) % WORD
  {
    DropMultiple(a % WORD + b, a / WORD);
  }

  lemma SubMod(a: int, b: int)
    ensures ((a % WORD) - (b % WORD)) % WORD == (a - b) % WORD
  {
    DropMultiple(a % WORD - b % WORD, a / WORD - b / WORD);
  }

  lemma {:induction false} HashIsPolynomial(window: Bytes)
    ensures BlockHash(window) == Polynomial(window) % WORD
    decreases |window|
  {
    if window != [] {
      var front, last := window[..|window| - 1], window[|window| - 1];
      HashIsPolynomial(front);
      MulMod(Polynomial(front), HASH_BASE);
      AddMod(Polynomial(front) * HASH_BASE, last);
    }
  }

  lemma {:induction false} PowMod(n: nat)
    ensures WrappingPow(n) == Pow(HASH_BASE, n) % WORD
    decreases n
  {
    if n > 0 {
      PowMod(n - 1);
      MulMod(Pow(HASH_BASE, n - 1), HASH_BASE);
      assert Pow(HASH_BASE, n) == Pow(HASH_BASE, n - 1) * HASH_BASE;
    }
  }

  /** The leading byte carries the top power. */
  lemma {:induction false} PolynomialHead(window: Bytes)
    requires window != []
    ensures Polynomial(window) == window[0] * Pow(HASH_BASE, |window| - 1) + Polynomial(window[1..])
    decreases |window|
  {
    var n := |window|;
    if n == 1 {
      assert window[..0] == [] && window[1..] == [];
      assert Pow(HASH_BASE, 0) == 1;
    } else {
      var front, last := window[..n - 1], window[n - 1];
      PolynomialHead(front);
      assert window[1..][..n - 2] == front[1..] && window[1..][n - 2] == last;
      var p, tail := Pow(HASH_BASE, n - 2), Polynomial(front[1..]);
      assert Pow(HASH_BASE, n - 1) == HASH_BASE * p;
      assert (window[0] * p + tail) * HASH_BASE == window[0] * (HASH_BASE * p) + tail * HASH_BASE;
    }
  }

  /** Sliding the window one byte. */
  lemma RollIsHash(window: Bytes, inByte: Byte)
    requires |window| == MIN_COPY
    ensures RollHash(BlockHash(window), window[0], inByte) == BlockHash(window[1..] + [inByte])
  {
    hide BlockHash, WrappingPow, Polynomial, Pow;
    var shifted := window[1..] + [inByte];
    var top, tail := Pow(HASH_BASE, MIN_COPY - 1), Polynomial(window[1..]);
    HashIsPolynomial(window);
    HashIsPolynomial(shifted);
    PowMod(MIN_COPY - 1);
    PolynomialHead(window);
    PolynomialSnoc(window[1..], inByte);
    MulMod(top, window[0]);
    SubMod(Polynomial(window), window[0] * top);
    assert Polynomial(window) - window[0] * top == tail;
    MulMod(tail, HASH_BASE);
    AddMod(tail * HASH_BASE, inByte);
  }

  lemma PolynomialSnoc(window: Bytes, b: Byte)
    ensures Polynomial(window + [b]) == Polynomial(window) * HASH_BASE + b
  {
    assert (window + [b])[..|window|] == window;
  }

  // ------------------------------------------------------------------- index

  /** The slots of an index and the shift that takes a mixed fingerprint to its home slot. */
  datatype Index = Index(slots: seq<nat>, shift: nat)

  /** As many home slots as the shift can address, plus a trailing probe window. */
  ghost predicate Shaped(ix: Index) {
    |ix.slots| >= PROBE_WINDOW && (|ix.slots| - PROBE_WINDOW) * Two(ix.shift) == WORD
  }

  function Two(n: nat): (p: nat)
    ensures p > 0
  {
    PowPositive(n);
    Pow(2, n)
  }

  lemma {:induction false} PowPositive(n: nat)
    ensures Pow(2, n) > 0
  {
    if n > 0 {
      PowPositive(n - 1);
    }
  }

  function ShiftRight(x: nat, shift: nat): nat {
    x / Two(shift)
  }

  function HomeOf(shift: nat, fingerprint: nat): nat {
    ShiftRight(fingerprint * HASH_BASE % WORD, shift)
  }

  lemma DivBelow(x: nat, p: nat, h: nat)
    requires p > 0 && x < h * p
    ensures x / p < h
  {
    var q := x / p;
    assert p * q <= x;
    assert q >= h ==> p * h <= p * q;
  }

  /** Every probe window lies inside the slots. */
  lemma ProbeInBounds(ix: Index, fingerprint: nat)
    requires Shaped(ix)
    ensures HomeOf(ix.shift, fingerprint) + PROBE_WINDOW <= |ix.slots|
  {
    DivBelow(fingerprint * HASH_BASE % WORD, Two(ix.shift), |ix.slots| - PROBE_WINDOW);
  }

  function WindowOf(ix: Index, fingerprint: nat): (w: seq<nat>)
    requires Shaped(ix)
    ensures |w| == PROBE_WINDOW
  {
    ProbeInBounds(ix, fingerprint);
    var home := HomeOf(ix.shift, fingerprint);
    ix.slots[home..home + PROBE_WINDOW]
  }

  function EntryFor(fingerprint: nat, offset: nat): nat {
    fingerprint / HALF * HALF + offset + 1
  }

  /** A used slot holds a block of the base and the tag of that block's fingerprint. */
  ghost predicate EntryOk(base: Bytes, e: nat) {
    e != 0 ==>
      exists offset: nat :: offset % MIN_COPY == 0 && offset + MIN_COPY <= |base|
        && e == EntryFor(BlockHash(base[offset..offset + MIN_COPY]), offset)
  }

  ghost predicate IndexOk(base: Bytes, ix: Index) {
    Shaped(ix) && forall i :: 0 <= i < |ix.slots| ==> EntryOk(base, ix.slots[i])
  }

  /** Unpacking an entry gives the tag and offset it was made of. */
  lemma EntryParts(fingerprint: nat, offset: nat)
    requires offset + 1 < HALF
    ensures var e := EntryFor(fingerprint, offset); e / HALF == fingerprint / HALF && e % HALF == offset + 1
  {
  }

  class BlockIndex {
    const slots: array<nat>
    const shift: nat

    ghost function View(): Index
      reads slots
    {
      Index(slots[..], shift)
    }

    constructor (slots: array<nat>, shift: nat)
      ensures this.slots == slots && this.shift == shift
    {
      this.slots, this.shift := slots, shift;
    }

    /** Record a block in the first free slot of its window, unless its tag is there often enough before it. */
    method Insert(fingerprint: nat, offset: nat)
      requires Shaped(View())
      modifies slots
      ensures View().slots == InsertedSlots(old(View()), fingerprint, offset)
    {
      hide HomeOf, Two, FirstFree, Shaped, InsertedSlots, TagCount;
      ProbeInBounds(View(), fingerprint);
      var home := HomeOf(shift, fingerprint);
      var tag := fingerprint / HALF;
      var duplicates := 0;
      ghost var was := View();
      ghost var window := WindowOf(was, fingerprint);
      TagCountNext(window, 0, tag);
      for slot := home to home + PROBE_WINDOW
        invariant slots[..] == was.slots
        invariant forall i :: 0 <= i < slot - home ==> window[i] != 0
        invariant duplicates == TagCount(window[..slot - home], tag) && duplicates < MAX_BLOCK_MATCHES
      {
        var entry := slots[slot];
        ghost var k := slot - home;
        assert entry == window[k];
        if entry == 0 {
          FreeSlotTaken(was, fingerprint, offset, k);
          slots[slot] := tag * HALF + offset + 1;
          return;
        }
        TagCountNext(window, k, tag);
        if entry / HALF == tag {
          duplicates := duplicates + 1;
          if duplicates >= MAX_BLOCK_MATCHES {
            QuotaFull(was, fingerprint, offset, k + 1);
            return;
          }
        }
      }
      WindowFull(was, fingerprint, offset);
    }
  }

  lemma FreeSlotTaken(ix: Index, fingerprint: nat, offset: nat, k: nat)
    requires Shaped(ix) && k < PROBE_WINDOW
    requires var w := WindowOf(ix, fingerprint); w[k] == 0 && forall i :: 0 <= i < k ==> w[i] != 0
    requires TagCount(WindowOf(ix, fingerprint)[..k], fingerprint / HALF) < MAX_BLOCK_MATCHES
    ensures HomeOf(ix.shift, fingerprint) + k < |ix.slots|
    ensures InsertedSlots(ix, fingerprint, offset) ==
            ix.slots[HomeOf(ix.shift, fingerprint) + k := EntryFor(fingerprint, offset)]
  {
    hide HomeOf, Two, FirstFree, Shaped;
    ProbeInBounds(ix, fingerprint);
    FirstFreeIs(WindowOf(ix, fingerprint), k);
  }

  lemma QuotaFull(ix: Index, fingerprint: nat, offset: nat, k: nat)
    requires Shaped(ix) && k <= PROBE_WINDOW
    requires forall i :: 0 <= i < k ==> WindowOf(ix, fingerprint)[i] != 0
    requires TagCount(WindowOf(ix, fingerprint)[..k], fingerprint / HALF) >= MAX_BLOCK_MATCHES
    ensures InsertedSlots(ix, fingerprint, offset) == ix.slots
  {
    hide HomeOf, Two, FirstFree, Shaped, TagCount;
    var w := WindowOf(ix, fingerprint);
    FirstFreeAfter(w, k);
    if FirstFree(w) < PROBE_WINDOW {
      TagCountGrows(w, k, FirstFree(w), fingerprint / HALF);
    }
  }

  lemma WindowFull(ix: Index, fingerprint: nat, offset: nat)
    requires Shaped(ix) && forall i :: 0 <= i < PROBE_WINDOW ==> WindowOf(ix, fingerprint)[i] != 0
    ensures InsertedSlots(ix, fingerprint, offset) == ix.slots
  {
    hide HomeOf, Two, FirstFree, Shaped, TagCount;
    FirstFreeAfter(WindowOf(ix, fingerprint), PROBE_WINDOW);
  }

  /** The first free slot of the probe window takes the entry, unless the tag fills its quota before it. */
  ghost function InsertedSlots(ix: Index, fingerprint: nat, offset: nat): seq<nat>
    requires Shaped(ix)
  {
    ProbeInBounds(ix, fingerprint);
    var home, window := HomeOf(ix.shift, fingerprint), WindowOf(ix, fingerprint);
    var free := FirstFree(window);
    if free < PROBE_WINDOW && TagCount(window[..free], fingerprint / HALF) < MAX_BLOCK_MATCHES
    then ix.slots[home + free := EntryFor(fingerprint, offset)]
    else ix.slots
  }

  /** The first unused position, or the length. */
  ghost function FirstFree(w: seq<nat>): (k: nat)
    ensures k <= |w| && (k < |w| ==> w[k] == 0) && forall i :: 0 <= i < k ==> w[i] != 0
  {
    if w == [] || w[0] == 0 then 0 else 1 + FirstFree(w[1..])
  }

  lemma FirstFreeIs(w: seq<nat>, k: nat)
    requires k < |w| && w[k] == 0 && forall i :: 0 <= i < k ==> w[i] != 0
    ensures FirstFree(w) == k
  {
  }

  lemma FreeAtHome(w: seq<nat>, tag: nat)
    requires w != [] && w[0] == 0
    ensures FirstFree(w) == 0 && TagCount(w[..0], tag) == 0
  {
  }

  lemma FirstFreeAfter(w: seq<nat>, k: nat)
    requires k <= |w| && forall i :: 0 <= i < k ==> w[i] != 0
    ensures FirstFree(w) >= k
  {
  }

  ghost function TagCount(w: seq<nat>, tag: nat): nat {
    if w == [] then 0 else TagCount(w[..|w| - 1], tag) + if w[|w| - 1] / HALF == tag then 1 else 0
  }

  lemma TagCountNext(w: seq<nat>, k: nat, tag: nat)
    requires k < |w|
    ensures TagCount(w[..0], tag) == 0
    ensures TagCount(w[..k + 1], tag) == TagCount(w[..k], tag) + if w[k] / HALF == tag then 1 else 0
  {
    assert w[..k + 1][..k] == w[..k];
  }

  lemma {:induction false} TagCountGrows(w: seq<nat>, a: nat, b: nat, tag: nat)
    requires a <= b <= |w|
    ensures TagCount(w[..a], tag) <= TagCount(w[..b], tag)
    decreases b - a
  {
    if a < b {
      TagCountGrows(w, a, b - 1, tag);
      assert w[..b][..b - 1] == w[..b - 1];
    }
  }

  lemma {:induction false} PowAdd(a: nat, b: nat)
    ensures Pow(2, a + b) == Pow(2, a) * Pow(2, b)
    decreases a
  {
    if a > 0 {
      PowAdd(a - 1, b);
      assert 2 * (Pow(2, a - 1) * Pow(2, b)) == 2 * Pow(2, a - 1) * Pow(2, b);
    }
  }

  lemma WordIsPow()
    ensures Pow(2, 64) == WORD && Pow(2, 32) == HALF
  {
    PowFacts();
    PowAdd(4, 4);
    PowAdd(8, 8);
    PowAdd(16, 16);
    PowAdd(32, 32);
  }

  lemma ExponentBelow(log: nat)
    ensures log >= 32 ==> Pow(2, log) >= HALF
  {
    if log >= 32 {
      WordIsPow();
      PowAdd(log - 32, 32);
      PowPositive(log - 32);
    }
  }

  /** A power of two at least four times the block count and at least one probe window, with its logarithm. */
  method HomeCount(base: Bytes) returns (homes: nat, log: nat)
    requires |base| < HALF
    ensures homes == Pow(2, log) && homes >= PROBE_WINDOW && log <= 32
    ensures log == HomesLog(base)
    ensures homes >= 4 * (|base| / MIN_COPY) && (homes == PROBE_WINDOW || homes / 2 < 4 * (|base| / MIN_COPY))
  {
    var blocks := |base| / MIN_COPY;
    homes, log := 8, 3;
    PowFacts();
    while homes < 4 * blocks
      invariant homes == Pow(2, log) && homes >= PROBE_WINDOW && log <= 32
      invariant LogFrom(log, 4 * blocks) == HomesLog(base)
      invariant homes == PROBE_WINDOW || homes / 2 < 4 * blocks
      decreases 4 * blocks - homes
    {
      ExponentBelow(log);
      homes, log := homes * 2, log + 1;
    }
  }

  /** The smallest exponent, at least 3, whose power of two reaches `n`. */
  ghost function LogFrom(log: nat, n: nat): nat
    decreases n - Pow(2, log)
  {
    PowPositive(log);
    if Pow(2, log) >= n then log else LogFrom(log + 1, n)
  }

  ghost function HomesLog(base: Bytes): nat {
    LogFrom(3, 4 * (|base| / MIN_COPY))
  }

  /** The index after the first `k` blocks, as a function of the base. */
  ghost function IndexUpTo(base: Bytes, k: nat): (ix: Index)
    requires |base| < HALF && k * MIN_COPY <= |base| && HomesLog(base) <= 64
    ensures Shaped(ix) && ix.shift == 64 - HomesLog(base)
  {
    if k == 0 then
      var slots := seq(Two(HomesLog(base)) + PROBE_WINDOW, _ => 0);
      NewShaped(slots, Two(HomesLog(base)), HomesLog(base));
      Index(slots, 64 - HomesLog(base))
    else
      var before, offset := IndexUpTo(base, k - 1), (k - 1) * MIN_COPY;
      InsertedShape(before, BlockHash(base[offset..offset + MIN_COPY]), offset);
      Index(InsertedSlots(before, BlockHash(base[offset..offset + MIN_COPY]), offset), before.shift)
  }

  /** The index of a base. */
  ghost function IndexOf(base: Bytes): Index
    requires |base| < HALF
  {
    HomesLogBound(base);
    IndexUpTo(base, |base| / MIN_COPY)
  }

  lemma {:induction false} LogFromBound(log: nat, n: nat)
    requires log <= 32 && n <= HALF
    ensures LogFrom(log, n) <= 32
    decreases n - Pow(2, log)
  {
    if Pow(2, log) < n {
      ExponentBelow(log);
      PowPositive(log);
      LogFromBound(log + 1, n);
    }
  }

  lemma HomesLogBound(base: Bytes)
    requires |base| < HALF
    ensures HomesLog(base) <= 32
  {
    LogFromBound(3, 4 * (|base| / MIN_COPY));
  }

  /** The blocks below `offset` have been indexed. */
  ghost predicate Indexed(base: Bytes, ix: Index, offset: nat) {
    && Shaped(ix) && IndexOk(base, ix)
    && (offset == 0 ==> forall i :: 0 <= i < |ix.slots| ==> ix.slots[i] == 0)
    && (offset > 0 && |base| >= MIN_COPY ==> FirstBlockIndexed(base, ix))
  }

  ghost predicate FirstBlockIndexed(base: Bytes, ix: Index)
    requires Shaped(ix) && |base| >= MIN_COPY
  {
    var h := BlockHash(base[..MIN_COPY]);
    WindowOf(ix, h)[0] == EntryFor(h, 0)
  }

  lemma InsertIndexes(base: Bytes, ix: Index, offset: nat)
    requires Indexed(base, ix, offset) && offset % MIN_COPY == 0 && offset + MIN_COPY <= |base|
    ensures var h := BlockHash(base[offset..offset + MIN_COPY]);
      Indexed(base, Index(InsertedSlots(ix, h, offset), ix.shift), offset + MIN_COPY)
  {
    hide BlockHash, HomeOf, EntryFor, Pow, FirstFree, TagCount, Shaped, EntryOk, InsertedSlots;
    var h := BlockHash(base[offset..offset + MIN_COPY]);
    var first := BlockHash(base[..MIN_COPY]);
    InsertedShape(ix, h, offset);
    NewEntryOk(base, offset);
    ProbeInBounds(ix, first);
    EntryPositive(first, 0);
    if offset == 0 {
      assert base[0..MIN_COPY] == base[..MIN_COPY];
    }
  }

  /** An insertion fills at most one free slot, and the home slot when that is free. */
  lemma InsertedShape(ix: Index, fingerprint: nat, offset: nat)
    requires Shaped(ix)
    ensures var after := Index(InsertedSlots(ix, fingerprint, offset), ix.shift);
      && Shaped(after) && |after.slots| == |ix.slots|
      && (forall i :: 0 <= i < |ix.slots| ==>
           after.slots[i] == ix.slots[i] || (ix.slots[i] == 0 && after.slots[i] == EntryFor(fingerprint, offset)))
      && (WindowOf(ix, fingerprint)[0] == 0 ==> WindowOf(after, fingerprint)[0] == EntryFor(fingerprint, offset))
  {
    hide HomeOf, EntryFor, Pow, FirstFree, TagCount;
    ProbeInBounds(ix, fingerprint);
    FreeIsZero(WindowOf(ix, fingerprint));
    if WindowOf(ix, fingerprint)[0] == 0 {
      FreeAtHome(WindowOf(ix, fingerprint), fingerprint / HALF);
    }
  }

  lemma NewEntryOk(base: Bytes, offset: nat)
    requires offset % MIN_COPY == 0 && offset + MIN_COPY <= |base|
    ensures EntryOk(base, EntryFor(BlockHash(base[offset..offset + MIN_COPY]), offset))
  {
  }

  lemma FreeIsZero(w: seq<nat>)
    ensures FirstFree(w) < |w| ==> w[FirstFree(w)] == 0
  {
  }

  /** Index the blocks of the base at stride 16. */
  method BuildIndex(base: Bytes) returns (index: BlockIndex)
    requires |base| < HALF
    ensures index.View() == IndexOf(base) && fresh(index) && fresh(index.slots)
  {
    hide BlockHash, HomeOf, EntryFor, Two, Pow, FirstFree, TagCount, InsertedSlots, Shaped, LogFrom;
    var homes, log := HomeCount(base);
    var slots := new nat[homes + PROBE_WINDOW](_ => 0);
    index := new BlockIndex(slots, 64 - log);
    TwoIs(log);
    assert slots[..] == seq(Two(log) + PROBE_WINDOW, _ => 0);
    var offset := 0;
    ghost var k: nat := 0;
    while offset + MIN_COPY <= |base|
      invariant offset == k * MIN_COPY && k * MIN_COPY <= |base| && index.slots == slots
      invariant index.View() == IndexUpTo(base, k)
    {
      index.Insert(BlockHash(base[offset..offset + MIN_COPY]), offset);
      offset, k := offset + MIN_COPY, k + 1;
    }
    assert k == |base| / MIN_COPY;
  }

  lemma TwoIs(n: nat)
    ensures Two(n) == Pow(2, n)
  {
  }

  /** The index is sound, and the first block always has its entry. */
  lemma IndexOfOk(base: Bytes)
    requires |base| < HALF
    ensures IndexOk(base, IndexOf(base))
    ensures |base| >= MIN_COPY ==> FirstBlockIndexed(base, IndexOf(base))
  {
    hide IndexOk, FirstBlockIndexed, IndexUpTo;
    HomesLogBound(base);
    IndexUpToOk(base, |base| / MIN_COPY);
  }

  lemma {:induction false} IndexUpToOk(base: Bytes, k: nat)
    requires |base| < HALF && k * MIN_COPY <= |base| && HomesLog(base) <= 64
    ensures Indexed(base, IndexUpTo(base, k), k * MIN_COPY)
  {
    hide BlockHash, HomeOf, EntryFor, Two, Pow, InsertedSlots, Shaped, IndexOk, FirstBlockIndexed, HomesLog;
    if k == 0 {
      EmptyIndexed(base, IndexUpTo(base, 0));
    } else {
      IndexUpToOk(base, k - 1);
      InsertIndexes(base, IndexUpTo(base, k - 1), (k - 1) * MIN_COPY);
    }
  }

  lemma NewShaped(slots: seq<nat>, homes: nat, log: nat)
    requires homes == Pow(2, log) && log <= 64 && |slots| == homes + PROBE_WINDOW
    ensures Shaped(Index(slots, 64 - log))
  {
    WordIsPow();
    PowAdd(log, 64 - log);
  }

  lemma EmptyIndexed(base: Bytes, ix: Index)
    requires Shaped(ix) && forall i :: 0 <= i < |ix.slots| ==> ix.slots[i] == 0
    ensures Indexed(base, ix, 0)
  {
  }

  lemma EntryPositive(fingerprint: nat, offset: nat)
    ensures EntryFor(fingerprint, offset) > 0
  {
  }
}
