/**
 The delta encoder: a greedy scan of the target against the base's block index,
 under a size budget. The specification hashes every window afresh and knows no
 budget; the code rolls its hash and gives up early, and still returns exactly
 the specified stream whenever that fits.
 */
module DeltaEncoder {
  import opened Options
  import opened Arithmetic
  import opened DeltaFormat
  import opened BlockIndexing

  // ---------------------------------------------------------- common prefix

  /** The longest common prefix of two byte strings. */
  function Lcp(a: Bytes, b: Bytes): (n: nat)
    ensures n <= |a| && n <= |b| && a[..n] == b[..n]
    ensures n < |a| && n < |b| ==> a[n] != b[n]
  {
    if a == [] || b == [] || a[0] != b[0] then 0
    else
      var n := Lcp(a[1..], b[1..]);
      assert a[..n + 1] == [a[0]] + a[1..][..n] && b[..n + 1] == [b[0]] + b[1..][..n];
      n + 1
  }

  lemma LcpIs(a: Bytes, b: Bytes, n: nat)
    requires n <= |a| && n <= |b| && a[..n] == b[..n]
    requires n == |a| || n == |b| || a[n] != b[n]
    ensures Lcp(a, b) == n
  {
    hide Lcp;
  }

  /** A word read little-endian. */
  function Word(s: Bytes): nat {
    if s == [] then 0 else s[0] + 256 * Word(s[1..])
  }

  /** Trailing zeros of the exclusive or of two words: how many low bits they agree on. */
  function EqualLowBits(x: nat, y: nat): nat
    requires x != y
    decreases x + y
  {
    if x % 2 != y % 2 then 0 else 1 + EqualLowBits(x / 2, y / 2)
  }

  lemma {:induction false} LowBitsDiffer(x: nat, y: nat, n: nat)
    requires x % Two(n) != y % Two(n)
    ensures x != y && EqualLowBits(x, y) < n
    decreases n
  {
    if n > 0 {
      SplitLowBit(x, Two(n - 1));
      SplitLowBit(y, Two(n - 1));
      if x % 2 == y % 2 {
        LowBitsDiffer(x / 2, y / 2, n - 1);
      }
    }
  }

  lemma {:induction false} LowBitsAgree(x: nat, y: nat, n: nat)
    requires x != y && x % Two(n) == y % Two(n)
    ensures x / Two(n) != y / Two(n) && EqualLowBits(x, y) == n + EqualLowBits(x / Two(n), y / Two(n))
    decreases n
  {
    if n > 0 {
      SplitLowBit(x, Two(n - 1));
      SplitLowBit(y, Two(n - 1));
      LowBitsAgree(x / 2, y / 2, n - 1);
    }
  }

  /** Reducing modulo `2p` is reducing the upper bits modulo `p` and keeping the lowest. */
  lemma SplitLowBit(x: nat, p: nat)
    requires p > 0
    ensures x % (2 * p) == 2 * ((x / 2) % p) + x % 2 && x / (2 * p) == (x / 2) / p
  {
    var h := x / 2;
    var q, r := h / p, h % p;
    assert h == p * q + r;
    assert x == (2 * p) * q + (2 * r + x % 2);
    DivModUnique(x, 2 * p, q, 2 * r + x % 2);
  }

  lemma ByteIsTwo()
    ensures Two(8) == 256
  {
    PowFacts();
    PowAdd(4, 4);
  }

  /** The byte index of the lowest differing bit is the length of the common prefix. */
  lemma {:induction false} FirstDifferingByte(a: Bytes, b: Bytes)
    requires |a| == |b| && a != b
    ensures Word(a) != Word(b) && EqualLowBits(Word(a), Word(b)) / 8 == Lcp(a, b)
    decreases |a|
  {
    hide EqualLowBits, Two;
    var x, y := Word(a), Word(b);
    ByteIsTwo();
    assert x % 256 == a[0] && x / 256 == Word(a[1..]) && y % 256 == b[0] && y / 256 == Word(b[1..]);
    if a[0] != b[0] {
      LowBitsDiffer(x, y, 8);
    } else {
      assert a[1..] != b[1..] by {
        assert a == [a[0]] + a[1..] && b == [b[0]] + b[1..];
      }
      FirstDifferingByte(a[1..], b[1..]);
      LowBitsAgree(x, y, 8);
    }
  }

  /** Compare eight bytes at a time, then the tail byte by byte. */
  method CommonPrefix(a: Bytes, b: Bytes) returns (len: nat)
    ensures len == Lcp(a, b)
  {
    hide Lcp, Word, EqualLowBits;
    var limit := if |a| < |b| then |a| else |b|;
    len := 0;
    while len + 8 <= limit
      invariant len <= limit && a[..len] == b[..len]
    {
      var x, y := Word(a[len..len + 8]), Word(b[len..len + 8]);
      if x != y {
        FirstDifferingByte(a[len..len + 8], b[len..len + 8]);
        var n := EqualLowBits(x, y) / 8;
        DifferAt(a, b, len, n);
        return len + n;
      }
      WordsEqual(a[len..len + 8], b[len..len + 8]);
      assert a[..len + 8] == a[..len] + a[len..len + 8] && b[..len + 8] == b[..len] + b[len..len + 8];
      len := len + 8;
    }
    while len < limit && a[len] == b[len]
      invariant len <= limit && a[..len] == b[..len]
    {
      len := len + 1;
    }
    LcpIs(a, b, len);
  }

  lemma DifferAt(a: Bytes, b: Bytes, len: nat, n: nat)
    requires len + 8 <= |a| && len + 8 <= |b| && a[..len] == b[..len]
    requires a[len..len + 8] != b[len..len + 8] && n == Lcp(a[len..len + 8], b[len..len + 8])
    ensures Lcp(a, b) == len + n
  {
    hide Lcp;
    var x, y := a[len..len + 8], b[len..len + 8];
    assert n < 8 by {
      assert x[..8] == x && y[..8] == y;
    }
    assert a[..len + n] == a[..len] + x[..n] && b[..len + n] == b[..len] + y[..n];
    assert a[len + n] == x[n] && b[len + n] == y[n];
    LcpIs(a, b, len + n);
  }

  lemma {:induction false} WordsEqual(a: Bytes, b: Bytes)
    requires |a| == |b| && Word(a) == Word(b)
    ensures a == b
    decreases |a|
  {
    if a != [] {
      assert Word(a) % 256 == a[0] && Word(b) % 256 == b[0];
      assert Word(a) / 256 == Word(a[1..]) && Word(b) / 256 == Word(b[1..]);
      WordsEqual(a[1..], b[1..]);
      assert a == [a[0]] + a[1..] && b == [b[0]] + b[1..];
    }
  }

  // ---------------------------------------------------------------- matching

  datatype Match = NoMatch | Match(offset: nat, len: nat)

  /** A nominated entry replaces the best match when its verified run is long enough and strictly longer. */
  function Better(base: Bytes, target: Bytes, c: nat, best: Match, e: nat, tag: nat): Match
    requires c <= |target| && e % HALF <= |base| + 1
  {
    if e / HALF != tag || e % HALF == 0 then best
    else
      var offset := e % HALF - 1;
      var len := Lcp(base[offset..], target[c..]);
      if len >= MIN_COPY && (best.NoMatch? || len > best.len) then Match(offset, len) else best
  }

  predicate PointsInto(window: seq<nat>, base: Bytes) {
    forall i :: 0 <= i < |window| ==> window[i] % HALF <= |base| + 1
  }

  /** The first longest verified match among the entries of a probe window. */
  function BestOf(base: Bytes, target: Bytes, c: nat, window: seq<nat>, tag: nat): Match
    requires c <= |target| && PointsInto(window, base)
  {
    if window == [] then NoMatch
    else Better(base, target, c, BestOf(base, target, c, window[..|window| - 1], tag), window[|window| - 1], tag)
  }

  lemma {:induction false} BestIsVerified(base: Bytes, target: Bytes, c: nat, window: seq<nat>, tag: nat)
    requires c <= |target| && PointsInto(window, base)
    ensures var m := BestOf(base, target, c, window, tag); m.Match? ==>
      m.len >= MIN_COPY && m.offset + m.len <= |base| && c + m.len <= |target|
        && base[m.offset..m.offset + m.len] == target[c..c + m.len]
    decreases |window|
  {
    if window != [] {
      var e := window[|window| - 1];
      BestIsVerified(base, target, c, window[..|window| - 1], tag);
      if e % HALF != 0 {
        var offset := e % HALF - 1;
        var len := Lcp(base[offset..], target[c..]);
        assert base[offset..][..len] == base[offset..offset + len] && target[c..][..len] == target[c..c + len];
      }
    }
  }

  /** How far an entry's block agrees with the target from `c` on; zero for entries that are not nominated. */
  function RunLength(base: Bytes, target: Bytes, c: nat, e: nat, tag: nat): nat
    requires c <= |target| && e % HALF <= |base| + 1
  {
    if e / HALF != tag || e % HALF == 0 then 0 else Lcp(base[e % HALF - 1..], target[c..])
  }

  /** The match is the longest run of at least 16 bytes among the entries, the first of them if several are longest. */
  ghost predicate FirstLongest(base: Bytes, target: Bytes, c: nat, window: seq<nat>, tag: nat, m: Match)
    requires c <= |target| && PointsInto(window, base)
  {
    match m
    case NoMatch => forall i :: 0 <= i < |window| ==> RunLength(base, target, c, window[i], tag) < MIN_COPY
    case Match(offset, len) =>
      && len >= MIN_COPY
      && exists k :: 0 <= k < |window| && FirstLongestAt(base, target, c, window, tag, offset, len, k)
  }

  ghost predicate FirstLongestAt(base: Bytes, target: Bytes, c: nat, window: seq<nat>, tag: nat, offset: nat, len: nat,
                                 k: nat)
    requires c <= |target| && PointsInto(window, base) && k < |window|
  {
    && window[k] % HALF == offset + 1 && RunLength(base, target, c, window[k], tag) == len
    && (forall i :: 0 <= i < |window| ==> RunLength(base, target, c, window[i], tag) <= len)
    && (forall i :: 0 <= i < k ==> RunLength(base, target, c, window[i], tag) < len)
  }

  lemma BetterIs(base: Bytes, target: Bytes, c: nat, best: Match, e: nat, tag: nat)
    requires c <= |target| && e % HALF <= |base| + 1
    ensures var len := RunLength(base, target, c, e, tag);
      && (len >= MIN_COPY ==> e % HALF > 0)
      && Better(base, target, c, best, e, tag) ==
           if len >= MIN_COPY && (best.NoMatch? || len > best.len) then Match(e % HALF - 1, len) else best
  {
    hide Lcp;
  }

  lemma {:induction false} BestIsFirstLongest(base: Bytes, target: Bytes, c: nat, window: seq<nat>, tag: nat)
    requires c <= |target| && PointsInto(window, base)
    ensures FirstLongest(base, target, c, window, tag, BestOf(base, target, c, window, tag))
    decreases |window|
  {
    hide RunLength, Better;
    if window != [] {
      var n := |window| - 1;
      var front := window[..n];
      BetterIs(base, target, c, BestOf(base, target, c, front, tag), window[n], tag);
      BestIsFirstLongest(base, target, c, front, tag);
      var best, m := BestOf(base, target, c, front, tag), BestOf(base, target, c, window, tag);
      assert m == Better(base, target, c, best, window[n], tag);
      assert forall i :: 0 <= i < n ==> front[i] == window[i];
      if m.Match? {
        if m == best {
          var k :| 0 <= k < n && FirstLongestAt(base, target, c, front, tag, m.offset, m.len, k);
          assert FirstLongestAt(base, target, c, window, tag, m.offset, m.len, k);
        } else {
          assert FirstLongestAt(base, target, c, window, tag, m.offset, m.len, n);
        }
      }
    }
  }

  /** Every entry of a sound index points into the base. */
  lemma WindowPoints(base: Bytes, ix: Index, fingerprint: nat)
    requires |base| < HALF && IndexOk(base, ix)
    ensures PointsInto(WindowOf(ix, fingerprint), base)
  {
    hide BlockHash, HomeOf, EntryFor, Two;
    ProbeInBounds(ix, fingerprint);
    var home := HomeOf(ix.shift, fingerprint);
    forall i | 0 <= i < PROBE_WINDOW
      ensures WindowOf(ix, fingerprint)[i] % HALF <= |base| + 1
    {
      var e := ix.slots[home + i];
      assert EntryOk(base, e);
      if e != 0 {
        var offset: nat :| offset % MIN_COPY == 0 && offset + MIN_COPY <= |base|
          && e == EntryFor(BlockHash(base[offset..offset + MIN_COPY]), offset);
        EntryParts(BlockHash(base[offset..offset + MIN_COPY]), offset);
      }
    }
  }

  /** The match for the window at `c`, its fingerprint computed afresh. */
  function BestAt(base: Bytes, target: Bytes, ix: Index, c: nat): Match
    requires |base| < HALF && IndexOk(base, ix) && c + MIN_COPY <= |target|
  {
    var h := BlockHash(target[c..c + MIN_COPY]);
    WindowPoints(base, ix, h);
    BestOf(base, target, c, WindowOf(ix, h), h / HALF)
  }

  // ------------------------------------------------------------ specification

  /** The instructions for `target[s..]` once the scan stands at `c` with `target[s..c]` pending. */
  function Tail(base: Bytes, target: Bytes, ix: Index, c: nat, s: nat): Bytes
    requires |base| < HALF && IndexOk(base, ix) && s <= c <= |target|
    decreases |target| - c
  {
    if c + MIN_COPY > |target| then Inserts(target[s..])
    else
      BestAtVerified(base, target, ix, c);
      match BestAt(base, target, ix, c)
      case NoMatch => Tail(base, target, ix, c + 1, s)
      case Match(offset, len) => Inserts(target[s..c]) + Copies(offset, len) + Tail(base, target, ix, c + len, c + len)
  }

  lemma BestAtVerified(base: Bytes, target: Bytes, ix: Index, c: nat)
    requires |base| < HALF && IndexOk(base, ix) && c + MIN_COPY <= |target|
    ensures var m := BestAt(base, target, ix, c); m.Match? ==>
      m.len >= MIN_COPY && m.offset + m.len <= |base| && c + m.len <= |target|
        && base[m.offset..m.offset + m.len] == target[c..c + m.len]
  {
    var h := BlockHash(target[c..c + MIN_COPY]);
    WindowPoints(base, ix, h);
    BestIsVerified(base, target, c, WindowOf(ix, h), h / HALF);
  }

  /** The stream without a budget. */
  function FullDelta(base: Bytes, target: Bytes, ix: Index): Bytes
    requires |base| < HALF && IndexOk(base, ix)
  {
    SizeBytes(|base|) + SizeBytes(|target|) + Tail(base, target, ix, 0, 0)
  }

  lemma {:induction false} TailDecodes(base: Bytes, target: Bytes, ix: Index, c: nat, s: nat)
    requires |base| < HALF && IndexOk(base, ix) && s <= c <= |target|
    ensures Decode(base, Tail(base, target, ix, c, s)) == Some(target[s..])
    decreases |target| - c
  {
    hide Decode, Inserts, Copies, BestAt, IndexOk;
    if c + MIN_COPY > |target| {
      DecodeInserts(base, target[s..], []);
      DecodeNothing(base);
      assert Inserts(target[s..]) + [] == Inserts(target[s..]) && target[s..] + [] == target[s..];
    } else {
      BestAtVerified(base, target, ix, c);
      match BestAt(base, target, ix, c)
      case NoMatch => TailDecodes(base, target, ix, c + 1, s);
      case Match(offset, len) =>
        TailDecodes(base, target, ix, c + len, c + len);
        DecodeMatch(base, target, c, s, offset, len, Tail(base, target, ix, c + len, c + len));
    }
  }

  /** Pending literals, then a verified copy, then whatever decodes to the rest. */
  lemma DecodeMatch(base: Bytes, target: Bytes, c: nat, s: nat, offset: nat, len: nat, rest: Bytes)
    requires s <= c && c + len <= |target| && offset + len <= |base| < HALF
    requires base[offset..offset + len] == target[c..c + len]
    requires Decode(base, rest) == Some(target[c + len..])
    ensures Decode(base, Inserts(target[s..c]) + Copies(offset, len) + rest) == Some(target[s..])
  {
    hide Decode, Inserts, Copies;
    var copied := Copies(offset, len) + rest;
    assert Decode(base, copied) == Some(target[c..]) by {
      DecodeCopies(base, offset, len, rest);
      assert target[c..c + len] + target[c + len..] == target[c..];
    }
    assert Decode(base, Inserts(target[s..c]) + copied) == Some(target[s..]) by {
      DecodeInserts(base, target[s..c], copied);
      assert target[s..c] + target[c..] == target[s..];
    }
    assert Inserts(target[s..c]) + Copies(offset, len) + rest == Inserts(target[s..c]) + copied;
  }

  lemma DecodeNothing(base: Bytes)
    ensures Decode(base, []) == Some([])
  {
  }

  /** Decoding the stream by git's rules against the base gives the target. */
  lemma DeltaDecodes(base: Bytes, target: Bytes, ix: Index)
    requires |base| < HALF && IndexOk(base, ix)
    ensures ApplyDelta(base, FullDelta(base, target, ix)) == Some(target)
  {
    hide DecodeSize, SizeBytes, Decode, Tail, IndexOk;
    var tail := Tail(base, target, ix, 0, 0);
    SizeRoundTrip(|base|, SizeBytes(|target|) + tail);
    SizeRoundTrip(|target|, tail);
    assert FullDelta(base, target, ix) == SizeBytes(|base|) + (SizeBytes(|target|) + tail);
    TailDecodes(base, target, ix, 0, 0);
    assert target[0..] == target;
  }

  lemma {:induction false} InsertsLonger(bytes: Bytes)
    ensures |Inserts(bytes)| >= |bytes|
    decreases |bytes|
  {
    if bytes != [] {
      InsertsLonger(bytes[if |bytes| < 127 then |bytes| else 127..]);
    }
  }

  /** Pending literals cost at least a byte each, so the early exit is taken only when the stream is lost. */
  lemma {:induction false} TailLonger(base: Bytes, target: Bytes, ix: Index, c: nat, s: nat)
    requires |base| < HALF && IndexOk(base, ix) && s <= c <= |target|
    ensures |Tail(base, target, ix, c, s)| >= c - s
    decreases |target| - c
  {
    hide Inserts, Copies, BestAt, IndexOk;
    if c + MIN_COPY > |target| {
      InsertsLonger(target[s..]);
    } else {
      BestAtVerified(base, target, ix, c);
      match BestAt(base, target, ix, c)
      case NoMatch => TailLonger(base, target, ix, c + 1, s);
      case Match(_, _) => InsertsLonger(target[s..c]);
    }
  }

  // ----------------------------------------------------------------- the code

  /** Nominate by tag first; only then verify entries byte by byte. */
  method FindMatch(base: Bytes, target: Bytes, c: nat, window: seq<nat>, tag: nat) returns (best: Match)
    requires c <= |target| && PointsInto(window, base)
    ensures best == BestOf(base, target, c, window, tag)
    ensures FirstLongest(base, target, c, window, tag, best)
  {
    hide Lcp, FirstLongest;
    BestIsFirstLongest(base, target, c, window, tag);
    var nominated := false;
    for i := 0 to |window|
      invariant nominated <==> exists j :: 0 <= j < i && window[j] / HALF == tag
    {
      nominated := nominated || window[i] / HALF == tag;
    }
    best := NoMatch;
    if nominated {
      for i := 0 to |window|
        invariant best == BestOf(base, target, c, window[..i], tag)
      {
        assert window[..i + 1][..i] == window[..i];
        var entry := window[i];
        if entry / HALF == tag && entry % HALF != 0 {
          var offset := entry % HALF - 1;
          var len := CommonPrefix(base[offset..], target[c..]);
          if len >= MIN_COPY && (best.NoMatch? || len > best.len) {
            best := Match(offset, len);
          }
        }
      }
      assert window[..|window|] == window;
    } else {
      NoTagNoMatch(base, target, c, window, tag);
    }
  }

  lemma {:induction false} NoTagNoMatch(base: Bytes, target: Bytes, c: nat, window: seq<nat>, tag: nat)
    requires c <= |target| && PointsInto(window, base) && forall j :: 0 <= j < |window| ==> window[j] / HALF != tag
    ensures BestOf(base, target, c, window, tag) == NoMatch
    decreases |window|
  {
    if window != [] {
      NoTagNoMatch(base, target, c, window[..|window| - 1], tag);
    }
  }

  /** The stream, exactly when it fits the budget. */
  method MakeDelta(base: Bytes, target: Bytes, index: BlockIndex, maxSize: nat) returns (r: Option<Bytes>)
    requires |base| < HALF && IndexOk(base, index.View())
    ensures var full := FullDelta(base, target, index.View());
      r == if |full| <= maxSize then Some(full) else None
  {
    hide IndexOk, BestAt, BlockHash, RollHash, SizeBytes, Inserts, Copies, HomeOf, FirstLongest, BestOf;
    ghost var ix, full := index.View(), FullDelta(base, target, index.View());
    var out := EncodeSize(|base|, []);
    out := EncodeSize(|target|, out);
    var cursor: nat, insertStart: nat := 0, 0;
    var hash: nat, primed := 0, false;
    while cursor + MIN_COPY <= |target|
      invariant insertStart <= cursor <= |target|
      invariant out + Tail(base, target, ix, cursor, insertStart) == full
      invariant primed && cursor + MIN_COPY <= |target| ==> hash == BlockHash(target[cursor..cursor + MIN_COPY])
      decreases |target| - cursor
    {
      if |out| + (cursor - insertStart) > maxSize {
        TailLonger(base, target, ix, cursor, insertStart);
        return None;
      }
      if !primed {
        hash, primed := BlockHash(target[cursor..cursor + MIN_COPY]), true;
      }
      ShapedIndex(base, ix);
      ProbeInBounds(ix, hash);
      WindowPoints(base, ix, hash);
      var home := HomeOf(index.shift, hash);
      var best := FindMatch(base, target, cursor, index.slots[home..home + PROBE_WINDOW], hash / HALF);
      ChosenMatch(base, target, ix, cursor, hash, index.slots[home..home + PROBE_WINDOW], best);
      BestAtVerified(base, target, ix, cursor);
      match best
      case Match(offset, len) =>
        ghost var before := out;
        out := AppendInsert(out, target[insertStart..cursor]);
        out := AppendCopy(out, offset, len);
        ghost var rest := Tail(base, target, ix, cursor + len, cursor + len);
        assert out + rest == before + (Inserts(target[insertStart..cursor]) + Copies(offset, len) + rest);
        cursor := cursor + len;
        insertStart := cursor;
        primed := false;
      case NoMatch =>
        var arriving := cursor + MIN_COPY;
        if arriving < |target| {
          Rolled(target, cursor);
          hash := RollHash(hash, target[cursor], target[arriving]);
        }
        cursor := cursor + 1;
    }
    out := AppendInsert(out, target[insertStart..]);
    r := if |out| <= maxSize then Some(out) else None;
  }

  lemma ShapedIndex(base: Bytes, ix: Index)
    requires IndexOk(base, ix)
    ensures Shaped(ix)
  {
  }

  lemma ChosenMatch(base: Bytes, target: Bytes, ix: Index, c: nat, hash: nat, window: seq<nat>, best: Match)
    requires |base| < HALF && IndexOk(base, ix) && c + MIN_COPY <= |target|
    requires hash == BlockHash(target[c..c + MIN_COPY])
    requires PointsInto(window, base) && window == WindowOf(ix, hash)
    requires best == BestOf(base, target, c, window, hash / HALF)
    ensures best == BestAt(base, target, ix, c)
  {
  }

  /** The hash carried to the next position is that position's own. */
  lemma Rolled(target: Bytes, c: nat)
    requires c + MIN_COPY < |target|
    ensures RollHash(BlockHash(target[c..c + MIN_COPY]), target[c], target[c + MIN_COPY]) ==
            BlockHash(target[c + 1..c + 1 + MIN_COPY])
  {
    hide BlockHash, RollHash;
    RollIsHash(target[c..c + MIN_COPY], target[c + MIN_COPY]);
    assert target[c..c + MIN_COPY][1..] + [target[c + MIN_COPY]] == target[c + 1..c + 1 + MIN_COPY];
  }

  // ------------------------------------------------------------ equal content

  lemma {:induction false} WholeIsBest(base: Bytes, window: seq<nat>, tag: nat)
    requires |base| >= MIN_COPY && PointsInto(window, base) && window != [] && window[0] / HALF == tag
    requires window[0] % HALF == 1
    ensures BestOf(base, base, 0, window, tag) == Match(0, |base|)
    decreases |window|
  {
    hide Lcp;
    if |window| == 1 {
      assert window[..0] == [] && base[0..] == base;
      LcpIs(base, base, |base|);
    } else {
      WholeIsBest(base, window[..|window| - 1], tag);
    }
  }

  /** A target equal to its base is copies only. */
  lemma EqualContentIsCopies(base: Bytes, ix: Index)
    requires MIN_COPY <= |base| < HALF && IndexOk(base, ix) && FirstBlockIndexed(base, ix)
    ensures FullDelta(base, base, ix) == SizeBytes(|base|) + SizeBytes(|base|) + Copies(0, |base|)
  {
    hide BlockHash, HomeOf, EntryFor, Two, BestOf, Copies, SizeBytes;
    var h := BlockHash(base[..MIN_COPY]);
    assert base[0..0 + MIN_COPY] == base[..MIN_COPY];
    WindowPoints(base, ix, h);
    EntryParts(h, 0);
    WholeIsBest(base, WindowOf(ix, h), h / HALF);
    assert BestAt(base, base, ix, 0) == Match(0, |base|);
    assert base[0..0] == [] && base[|base|..] == [];
    assert Tail(base, base, ix, |base|, |base|) == [];
    assert Tail(base, base, ix, 0, 0) == Copies(0, |base|);
  }
}
