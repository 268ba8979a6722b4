/**
 The disk part cache in front of immutable objects. Objects are cached as parts of
 a fixed size; a range read assembles slices of parts, each from disk or upstream.
 Whatever is cached, dropped or added between steps, the bytes are those of a
 plain read.
 */
module PartCache {
  import opened Options
  import opened Arithmetic
  import opened DeltaFormat

  datatype GetRange = Whole | Bounded(start: nat, end: nat) | Offset(offset: nat) | Suffix(length: nat)

  datatype Slice = Slice(part: nat, lo: nat, hi: nat)

  /** What the local store holds for one object: its head (size) and some of its parts. */
  datatype Cache = Cache(head: Option<nat>, parts: map<nat, Bytes>)

  function Min(a: nat, b: nat): nat {
    if a < b then a else b
  }

  // ------------------------------------------------------------------ ranges

  /** The concrete range of a request, or `None` for a request the object cannot serve. */
  function Canonical(range: GetRange, size: nat): Option<(nat, nat)> {
    match range
    case Whole => Some((0, size))
    case Bounded(start, end) => if start >= size || start >= end then None else Some((start, Min(end, size)))
    case Offset(offset) => if offset >= size then None else Some((offset, size))
    case Suffix(length) => Some((if size < length then 0 else size - length, size))
  }

  function AlignDown(x: nat, p: nat): nat
    requires p > 0
  {
    x - x % p
  }

  function AlignUp(x: nat, p: nat): nat
    requires p > 0
  {
    (x + p - 1) / p * p
  }

  function AlignGetRange(range: GetRange, p: nat): GetRange
    requires p > 0
  {
    match range
    case Whole => Whole
    case Bounded(start, end) => Bounded(AlignDown(start, p), AlignUp(end, p))
    case Suffix(length) => Suffix(AlignUp(length, p))
    case Offset(offset) => Offset(AlignDown(offset, p))
  }

  lemma AlignFacts(x: nat, p: nat)
    requires p > 0
    ensures AlignDown(x, p) % p == 0 && AlignDown(x, p) <= x < AlignDown(x, p) + p
    ensures AlignUp(x, p) % p == 0 && x <= AlignUp(x, p) < x + p
    ensures AlignDown(x, p) == x / p * p
    ensures AlignUp(x, p) == if x % p == 0 then x else AlignDown(x, p) + p
  {
    var q, r := x / p, x % p;
    assert x == q * p + r;
    MultipleMod(q, p);
    if r == 0 {
      QuotientIs(x + p - 1, p, q, p - 1);
    } else {
      assert x + p - 1 == (q + 1) * p + (r - 1);
      QuotientIs(x + p - 1, p, q + 1, r - 1);
      MultipleMod(q + 1, p);
    }
  }

  lemma QuotientIs(x: nat, p: nat, q: nat, r: nat)
    requires p > 0 && x == q * p + r && r < p
    ensures x / p == q && x % p == r
  {
    DivModUnique(x, p, q, r);
  }

  lemma MultipleMod(q: nat, p: nat)
    requires p > 0
    ensures (q * p) % p == 0 && (q * p) / p == q
  {
    QuotientIs(q * p, p, q, 0);
  }

  /** The range of a fetched response meets the alignment the cache asserts before saving it. */
  ghost predicate Aligned(range: (nat, nat), size: nat, p: nat)
    requires p > 0
  {
    range.0 % p == 0 && (range.1 % p == 0 || range.1 == size)
  }

  /** A suffix request has an unaligned start unless it covers the object or the size is a whole number of parts. */
  predicate MisalignedSuffix(range: GetRange, size: nat, p: nat)
    requires p > 0
  {
    range.Suffix? && AlignUp(range.length, p) < size && size % p != 0
  }

  /** The assertion on a prefetched response holds exactly when the request is not a misaligned suffix. */
  lemma PrefetchAligned(range: GetRange, size: nat, p: nat)
    requires p > 0 && Canonical(AlignGetRange(range, p), size).Some?
    ensures Aligned(Canonical(AlignGetRange(range, p), size).value, size, p) <==> !MisalignedSuffix(range, size, p)
  {
    hide AlignDown, AlignUp;
    MultipleMod(0, p);
    match range
    case Whole =>
    case Bounded(start, end) => AlignFacts(start, p); AlignFacts(end, p);
    case Offset(offset) => AlignFacts(offset, p);
    case Suffix(length) =>
      AlignFacts(length, p);
      var up := AlignUp(length, p);
      if up < size {
        SubMultiple(size, up, p);
      }
  }

  lemma SubMultiple(x: nat, m: nat, p: nat)
    requires p > 0 && m % p == 0 && m <= x
    ensures (x - m) % p == x % p
  {
    var q, r, k := x / p, x % p, m / p;
    assert x == q * p + r && m == k * p;
    SubProduct(x, p, q, r, k);
  }

  lemma SubProduct(x: nat, p: nat, q: nat, r: nat, k: nat)
    requires p > 0 && r < p && x == q * p + r && k * p <= x
    ensures (x - k * p) % p == r
  {
    if q < k {
      ProductOrder(p, q, k);
    }
    assert (q - k) * p == q * p - k * p;
    QuotientIs(x - k * p, p, q - k, r);
  }

  /** A suffix the size of one part, of an object of one and a half parts, trips the assertion. */
  lemma SuffixCounterexample()
    ensures var range, size, p := Suffix(1024), 1536, 1024;
      Canonical(AlignGetRange(range, p), size) == Some((512, 1536)) && !Aligned((512, 1536), size, p)
  {
  }

  /** A request that can be served is still served once aligned, and by at least as much. */
  lemma AlignedServes(range: GetRange, size: nat, p: nat)
    requires p > 0 && Canonical(range, size).Some?
    ensures Canonical(AlignGetRange(range, p), size).Some?
    ensures var wide, asked := Canonical(AlignGetRange(range, p), size).value, Canonical(range, size).value;
      wide.0 <= asked.0 && asked.1 <= wide.1
  {
    hide AlignDown, AlignUp;
    match range
    case Bounded(start, end) => AlignFacts(start, p); AlignFacts(end, p);
    case Offset(offset) => AlignFacts(offset, p);
    case Suffix(length) => AlignFacts(length, p);
    case Whole =>
  }

  // ------------------------------------------------------------------- parts

  /** Where a part starts. Proofs below use it through its step and order, not as a product. */
  function PartStart(part: nat, p: nat): nat {
    part * p
  }

  lemma PartStartStep(part: nat, p: nat)
    ensures PartStart(0, p) == 0 && PartStart(part + 1, p) == PartStart(part, p) + p
  {
  }

  lemma {:induction false} PartStartOrder(a: nat, b: nat, p: nat)
    ensures a < b ==> PartStart(a, p) + p <= PartStart(b, p)
    ensures a <= b ==> PartStart(a, p) <= PartStart(b, p)
    decreases b
  {
    hide PartStart;
    if a < b {
      PartStartStep(b - 1, p);
      PartStartOrder(a, b - 1, p);
    }
  }

  /** A boundary past the start of a part is past its end. */
  lemma BoundaryPast(k: nat, end: nat, p: nat)
    requires p > 0 && end % p == 0 && PartStart(k, p) < end
    ensures PartStart(k, p) + p <= end
  {
    var q := end / p;
    assert end == PartStart(q, p);
    PartStartOrder(q, k, p);
    PartStartOrder(k, q, p);
  }

  ghost function PartOf(content: Bytes, p: nat, part: nat): Bytes {
    var start := PartStart(part, p);
    if start >= |content| then [] else content[start..Min(start + p, |content|)]
  }

  /** Whatever is cached is right. */
  ghost predicate Sound(content: Bytes, p: nat, c: Cache) {
    && (c.head.Some? ==> c.head.value == |content|)
    && PartsSound(content, p, c.parts)
  }

  ghost predicate PartsSound(content: Bytes, p: nat, parts: map<nat, Bytes>) {
    forall k :: k in parts ==> PartSound(content, p, k, parts[k])
  }

  ghost predicate PartSound(content: Bytes, p: nat, k: nat, bytes: Bytes) {
    PartStart(k, p) < |content| && bytes == PartOf(content, p, k)
  }

  /** Bytes cut into parts of size `p`, numbered from `first`; the last may be short. */
  function Cut(p: nat, first: nat, bytes: Bytes): map<nat, Bytes>
    requires p > 0
    decreases |bytes|
  {
    if bytes == [] then map[]
    else if |bytes| <= p then map[first := bytes]
    else Cut(p, first + 1, bytes[p..])[first := bytes[..p]]
  }

  /** Cutting an aligned stretch of the object gives its parts. */
  lemma {:induction false} CutIsSound(content: Bytes, p: nat, first: nat, end: nat)
    requires p > 0 && PartStart(first, p) <= end <= |content| && (end % p == 0 || end == |content|)
    ensures PartsSound(content, p, Cut(p, first, content[PartStart(first, p)..end]))
    decreases end - PartStart(first, p)
  {
    hide PartStart;
    var start := PartStart(first, p);
    var bytes := content[start..end];
    if bytes != [] {
      if end != |content| {
        BoundaryPast(first, end, p);
      }
      PartStartStep(first, p);
      if |bytes| > p {
        CutIsSound(content, p, first + 1, end);
        assert bytes[p..] == content[start + p..end] && bytes[..p] == content[start..start + p];
        assert PartSound(content, p, first, bytes[..p]);
      }
    }
  }

  lemma MergeSound(content: Bytes, p: nat, c: Cache, more: map<nat, Bytes>)
    requires Sound(content, p, c) && PartsSound(content, p, more)
    ensures Sound(content, p, c.(parts := c.parts + more)) && Sound(content, p, Cache(Some(|content|), c.parts + more))
  {
    hide PartSound;
  }

  // ------------------------------------------------------------------ saving

  datatype Chunk = Data(bytes: Bytes) | Broken

  /** The bytes a stream delivers before it breaks, and whether it ends. */
  function Delivered(stream: seq<Chunk>): (Bytes, bool) {
    if stream == [] then ([], true)
    else if stream[0].Broken? then ([], false)
    else var (rest, complete) := Delivered(stream[1..]); (stream[0].bytes + rest, complete)
  }

  /** What a stream leaves in the cache: every whole part, and the short last one only if the stream ended. */
  function SavedParts(p: nat, first: nat, bytes: Bytes, complete: bool): map<nat, Bytes>
    requires p > 0
    decreases |bytes|
  {
    if |bytes| >= p then SavedParts(p, first + 1, bytes[p..], complete)[first := bytes[..p]]
    else if bytes == [] || !complete then map[] else map[first := bytes]
  }

  lemma {:induction false} SavedIsCut(p: nat, first: nat, bytes: Bytes)
    requires p > 0
    ensures SavedParts(p, first, bytes, true) == Cut(p, first, bytes)
    decreases |bytes|
  {
    if |bytes| > p {
      SavedIsCut(p, first + 1, bytes[p..]);
    } else if |bytes| == p {
      assert bytes[p..] == [] && bytes[..p] == bytes;
    }
  }

  ghost predicate SubMap(a: map<nat, Bytes>, b: map<nat, Bytes>) {
    forall k :: k in a ==> k in b && b[k] == a[k]
  }

  /** Saving the same bytes broken off or complete differs at most in what is left out. */
  lemma {:induction false} SavedSubset(p: nat, first: nat, bytes: Bytes, rest: Bytes, complete: bool)
    requires p > 0
    ensures SubMap(SavedParts(p, first, bytes, false), SavedParts(p, first, bytes + rest, complete))
    decreases |bytes|
  {
    if |bytes| >= p {
      assert (bytes + rest)[p..] == bytes[p..] + rest && (bytes + rest)[..p] == bytes[..p];
      SavedSubset(p, first + 1, bytes[p..], rest, complete);
    }
  }

  /** Buffer the chunks and save a part each time one is complete. */
  method SavePartsStream(p: nat, parts0: map<nat, Bytes>, stream: seq<Chunk>, first: nat)
    returns (parts: map<nat, Bytes>, complete: bool)
    requires p > 0
    ensures complete == Delivered(stream).1
    ensures parts == parts0 + SavedParts(p, first, Delivered(stream).0, complete)
  {
    hide SavedParts, Delivered;
    ghost var total, done := Delivered(stream).0, Delivered(stream).1;
    ghost var saved := SavedParts(p, first, total, done);
    var buffer: Bytes := [];
    var part := first;
    parts := parts0;
    var i := 0;
    assert stream[0..] == stream && [] + total == total;
    while i < |stream|
      invariant i <= |stream|
      invariant Delivered(stream[i..]).1 == done
      invariant StillToSave(parts0, parts, saved, SavedParts(p, part, buffer + Delivered(stream[i..]).0, done))
      invariant |buffer| < p
    {
      DeliveredStep(stream, i);
      if stream[i].Broken? {
        SavedShort(p, part, buffer, false);
        assert buffer + [] == buffer && parts + map[] == parts;
        return parts, false;
      }
      ghost var rest := Delivered(stream[i + 1..]).0;
      assert buffer + (stream[i].bytes + rest) == (buffer + stream[i].bytes) + rest;
      buffer := buffer + stream[i].bytes;
      while |buffer| >= p
        invariant StillToSave(parts0, parts, saved, SavedParts(p, part, buffer + rest, done))
        decreases |buffer|
      {
        assert (buffer + rest)[p..] == buffer[p..] + rest && (buffer + rest)[..p] == buffer[..p];
        SaveNext(p, parts0, parts, saved, part, buffer + rest, done);
        parts := parts[part := buffer[..p]];
        buffer := buffer[p..];
        part := part + 1;
      }
      i := i + 1;
    }
    DeliveredStep(stream, |stream|);
    SavedShort(p, part, buffer, true);
    assert buffer + [] == buffer;
    assert parts + map[] == parts && parts + map[part := buffer] == parts[part := buffer];
    if buffer != [] {
      parts := parts[part := buffer];
    }
    complete := true;
  }

  lemma DeliveredStep(stream: seq<Chunk>, i: nat)
    requires i <= |stream|
    ensures Delivered(stream[i..]) ==
      if i == |stream| then ([], true)
      else if stream[i].Broken? then ([], false)
      else (stream[i].bytes + Delivered(stream[i + 1..]).0, Delivered(stream[i + 1..]).1)
  {
    if i < |stream| {
      assert stream[i..][0] == stream[i] && stream[i..][1..] == stream[i + 1..];
    }
  }

  lemma SavedShort(p: nat, part: nat, bytes: Bytes, complete: bool)
    requires 0 <= |bytes| < p
    ensures SavedParts(p, part, bytes, complete) == if bytes == [] || !complete then map[] else map[part := bytes]
  {
  }

  /** Saved so far and still to save make up the whole. */
  ghost predicate StillToSave(parts0: map<nat, Bytes>, parts: map<nat, Bytes>, saved: map<nat, Bytes>,
                              rest: map<nat, Bytes>)
  {
    parts + rest == parts0 + saved
  }

  lemma SaveNext(p: nat, parts0: map<nat, Bytes>, parts: map<nat, Bytes>, saved: map<nat, Bytes>, part: nat,
                 bytes: Bytes, complete: bool)
    requires p > 0 && |bytes| >= p && StillToSave(parts0, parts, saved, SavedParts(p, part, bytes, complete))
    ensures StillToSave(parts0, parts[part := bytes[..p]], saved, SavedParts(p, part + 1, bytes[p..], complete))
  {
    SavedFrom(p, part + 1, bytes[p..], complete);
    var rest := SavedParts(p, part + 1, bytes[p..], complete);
    assert parts[part := bytes[..p]] + rest == parts + rest[part := bytes[..p]];
  }

  lemma {:induction false} SavedFrom(p: nat, first: nat, bytes: Bytes, complete: bool)
    requires p > 0
    ensures forall k :: k in SavedParts(p, first, bytes, complete) ==> k >= first
    decreases |bytes|
  {
    if |bytes| >= p {
      SavedFrom(p, first + 1, bytes[p..], complete);
    }
  }

  /** Exactly the parts the bytes complete are saved, and the short last one if nothing more is to come. */
  lemma {:induction false} SavedWhich(p: nat, first: nat, bytes: Bytes, complete: bool, k: nat)
    requires p > 0
    ensures k in SavedParts(p, first, bytes, complete) <==>
              && first <= k
              && (PartStart(k - first, p) + p <= |bytes| || (complete && PartStart(k - first, p) < |bytes|))
    decreases |bytes|
  {
    hide PartStart;
    PartStartStep(0, p);
    if k > first {
      PartStartStep(k - first - 1, p);
      PartStartOrder(0, k - first - 1, p);
    }
    if |bytes| >= p {
      SavedWhich(p, first + 1, bytes[p..], complete, k);
    }
  }

  lemma PartStartAdd(first: nat, k: nat, p: nat)
    requires first <= k
    ensures PartStart(k, p) == PartStart(first, p) + PartStart(k - first, p)
  {
    assert k * p == first * p + (k - first) * p;
  }

  /** After saving what a response delivered, every part it covers is there. */
  lemma SavedAll(p: nat, start: nat, end: nat, got: Bytes, complete: bool)
    requires p > 0 && start % p == 0 && (complete ==> start + |got| == end)
    ensures forall k :: start / p <= k && PartStart(k, p) + p <= start + |got| ==>
              k in SavedParts(p, start / p, got, complete)
    ensures complete ==> forall k :: start <= PartStart(k, p) < end ==> k in SavedParts(p, start / p, got, complete)
  {
    hide PartStart, SavedParts;
    StartOfPart(start, p);
    var first := start / p;
    forall k: nat
      ensures first <= k && PartStart(k, p) + p <= start + |got| ==> k in SavedParts(p, first, got, complete)
      ensures complete && start <= PartStart(k, p) < end ==> k in SavedParts(p, first, got, complete)
    {
      SavedWhich(p, first, got, complete, k);
      if first <= k {
        PartStartAdd(first, k, p);
      } else {
        PartStartOrder(k, first, p);
      }
    }
  }

  // --------------------------------------------------------------- splitting

  /** How many parts a range touches. */
  function PartCount(start: nat, end: nat, p: nat): nat
    requires p > 0 && start <= end
  {
    var first, last := start / p, if end % p == 0 then end / p else end / p + 1;
    if first < last then last - first else 0
  }

  /** The i-th slice of a range: the first begins inside its part, the last may end inside its own. */
  function SliceAt(start: nat, end: nat, p: nat, i: nat): Slice
    requires p > 0 && start <= end && i < PartCount(start, end, p)
  {
    Slice(start / p + i,
          if i == 0 then start % p else 0,
          if i == PartCount(start, end, p) - 1 && end % p != 0 then end % p else p)
  }

  /** Where in the object the i-th slice begins; the last ends at `end`. */
  function Position(start: nat, end: nat, p: nat, i: nat): nat
    requires p > 0 && start <= end && i <= PartCount(start, end, p)
  {
    if i == 0 then start else if i == PartCount(start, end, p) then end else PartStart(start / p + i, p)
  }

  lemma StartOfPart(x: nat, p: nat)
    requires p > 0
    ensures PartStart(x / p, p) + x % p == x
  {
  }

  /** Slices touch: each covers the object from its position to the next one's, inside its part. */
  lemma SliceCovers(content: Bytes, start: nat, end: nat, p: nat, i: nat)
    requires p > 0 && start <= end <= |content| && i < PartCount(start, end, p)
    ensures var s := SliceAt(start, end, p, i);
      && PartStart(s.part, p) < |content| && s.lo <= s.hi <= |PartOf(content, p, s.part)|
      && start <= Position(start, end, p, i) <= Position(start, end, p, i + 1) <= end
      && PartOf(content, p, s.part)[s.lo..s.hi] == content[Position(start, end, p, i)..Position(start, end, p, i + 1)]
  {
    hide PartStart, PartOf;
    var s := SliceAt(start, end, p, i);
    StartOfPart(start, p);
    StartOfPart(end, p);
    SlicePlace(start, end, p, start / p, start % p, end / p, end % p, i);
    PartSlice(content, p, s.part, s.lo, s.hi);
  }

  /** The same in quotients and remainders, where everything is linear. */
  lemma SlicePlace(start: nat, end: nat, p: nat, q0: nat, r0: nat, q1: nat, r1: nat, i: nat)
    requires p > 0 && start <= end && r0 < p && r1 < p
    requires PartStart(q0, p) + r0 == start && PartStart(q1, p) + r1 == end
    requires q0 + i < if r1 == 0 then q1 else q1 + 1
    ensures var last := q0 + i + 1 == if r1 == 0 then q1 else q1 + 1;
            var lo, hi := if i == 0 then r0 else 0, if last && r1 != 0 then r1 else p;
            var from := if i == 0 then start else PartStart(q0 + i, p);
            var to := if last then end else PartStart(q0 + i + 1, p);
            && PartStart(q0 + i, p) + lo == from && PartStart(q0 + i, p) + hi == to
            && PartStart(q0 + i, p) < end && start <= from <= to <= end && hi <= p
  {
    hide PartStart;
    PartStartStep(q0 + i, p);
    PartStartOrder(q0, q0 + i, p);
    PartStartOrder(q0 + i, q1, p);
    PartStartOrder(q0 + i + 1, q1, p);
  }

  lemma PartSlice(content: Bytes, p: nat, part: nat, lo: nat, hi: nat)
    requires lo <= hi <= p && PartStart(part, p) < |content| && PartStart(part, p) + hi <= |content|
    ensures hi <= |PartOf(content, p, part)|
    ensures PartOf(content, p, part)[lo..hi] == content[PartStart(part, p) + lo..PartStart(part, p) + hi]
  {
    hide PartStart;
    var start := PartStart(part, p);
    var end := Min(start + p, |content|);
    assert PartOf(content, p, part) == content[start..end] && start + hi <= end;
    assert content[start..end][lo..hi] == content[start + lo..start + hi];
  }

  lemma NoParts(start: nat, end: nat, p: nat)
    requires p > 0 && start <= end && PartCount(start, end, p) == 0
    ensures start == end
  {
    hide PartStart;
    StartOfPart(start, p);
    StartOfPart(end, p);
    PartStartOrder(end / p, start / p, p);
    PartStartOrder(start / p, end / p, p);
  }

  /** One entry per touched part, then the first and last entries are narrowed. */
  method SplitRange(start: nat, end: nat, p: nat) returns (slices: seq<Slice>)
    requires p > 0 && start <= end
    ensures |slices| == PartCount(start, end, p)
    ensures forall i :: 0 <= i < |slices| ==> slices[i] == SliceAt(start, end, p, i)
  {
    AlignFacts(start, p);
    AlignFacts(end, p);
    var startPart, endPart := AlignDown(start, p) / p, AlignUp(end, p) / p;
    PartNumbers(start, end, p);
    slices := [];
    var k := startPart;
    while k < endPart
      invariant startPart <= k && (k <= endPart || k == startPart)
      invariant |slices| == k - startPart
      invariant forall i :: 0 <= i < |slices| ==> slices[i] == Slice(startPart + i, 0, p)
    {
      slices := slices + [Slice(k, 0, p)];
      k := k + 1;
    }
    if slices == [] {
      return;
    }
    slices := slices[0 := slices[0].(lo := start % p)];
    if end % p != 0 {
      slices := slices[|slices| - 1 := slices[|slices| - 1].(hi := end % p)];
    }
  }

  lemma PartNumbers(start: nat, end: nat, p: nat)
    requires p > 0
    ensures AlignDown(start, p) / p == start / p
    ensures AlignUp(end, p) / p == if end % p == 0 then end / p else end / p + 1
  {
    hide AlignDown, AlignUp;
    AlignFacts(start, p);
    AlignFacts(end, p);
    MultipleMod(start / p, p);
    MultipleMod(end / p, p);
    MultipleMod(end / p + 1, p);
    if end % p != 0 {
      assert AlignUp(end, p) == (end / p + 1) * p;
    }
  }

  // ----------------------------------------------------------------- reading

  /** The bytes are exactly the range's slice of the content. */
  ghost predicate IsSlice(content: Bytes, range: Option<(nat, nat)>, bytes: Bytes) {
    && range.Some?
    && range.value.0 <= range.value.1 <= |content|
    && bytes == content[range.value.0..range.value.1]
  }

  /** The bytes a request asks for, in terms of the object alone. */
  ghost predicate AsksFor(content: Bytes, range: GetRange, bytes: Bytes) {
    match range
    case Whole => bytes == content
    case Bounded(start, end) =>
      start < end && start < |content| && bytes == if end <= |content| then content[start..end] else content[start..]
    case Offset(offset) => offset < |content| && bytes == content[offset..]
    case Suffix(length) => bytes == if length <= |content| then content[|content| - length..] else content
  }

  /** A bounded range that is empty or starts behind the object, or an offset behind it. */
  ghost predicate OutOfRange(content: Bytes, range: GetRange) {
    || (range.Bounded? && (range.end <= range.start || |content| <= range.start))
    || (range.Offset? && |content| <= range.offset)
  }

  lemma CanonicalAsks(content: Bytes, range: GetRange)
    ensures Canonical(range, |content|).None? <==> OutOfRange(content, range)
    ensures forall bytes :: IsSlice(content, Canonical(range, |content|), bytes) ==> AsksFor(content, range, bytes)
  {
    assert content[0..|content|] == content;
  }

  datatype Outcome = Served(bytes: Bytes) | Failed | Panicked

  /** A response body delivers, in any chunks, the requested bytes or breaks off on the way. */
  ghost predicate Honest(content: Bytes, body: (nat, nat) -> seq<Chunk>) {
    forall s, e {:trigger body(s, e)} :: 0 <= s <= e <= |content| ==>
      Delivered(body(s, e)).0 <= content[s..e] && (Delivered(body(s, e)).1 ==> Delivered(body(s, e)).0 == content[s..e])
  }

  /** Between steps the cache may lose or gain entries, but only right ones. */
  ghost predicate Benign(content: Bytes, p: nat, disturb: (nat, Cache) -> Cache) {
    forall i, c :: Sound(content, p, c) ==> Sound(content, p, disturb(i, c))
  }

  /** Parts saved from an aligned response, complete or broken off, are parts of the object. */
  lemma SavedIsSound(content: Bytes, p: nat, start: nat, end: nat, got: Bytes, complete: bool)
    requires p > 0 && start <= end <= |content| && Aligned((start, end), |content|, p)
    requires got <= content[start..end] && (complete ==> got == content[start..end])
    ensures PartsSound(content, p, SavedParts(p, start / p, got, complete))
  {
    hide PartSound, Cut, SavedParts;
    StartOfPart(start, p);
    SavedIsCut(p, start / p, content[start..end]);
    CutIsSound(content, p, start / p, end);
    if !complete {
      var rest := content[start..end][|got|..];
      assert got + rest == content[start..end];
      SavedSubset(p, start / p, got, rest, true);
    }
  }

  /** Of the aligned stretch around the request, every part the response delivered is cached. */
  ghost predicate Prefetched(content: Bytes, p: nat, range: GetRange, body: (nat, nat) -> seq<Chunk>,
                             parts: map<nat, Bytes>)
    requires p > 0
  {
    var wide := Canonical(AlignGetRange(range, p), |content|);
    && wide.Some?
    && var (start, end) := wide.value;
       var (got, complete) := Delivered(body(start, end));
       && (forall k :: start / p <= k && PartStart(k, p) + p <= start + |got| ==> k in parts)
       && (complete ==> forall k :: start <= PartStart(k, p) < end ==> k in parts)
  }

  lemma SavedNow(content: Bytes, p: nat, range: GetRange, body: (nat, nat) -> seq<Chunk>, parts: map<nat, Bytes>,
                 start: nat, end: nat)
    requires p > 0 && Honest(content, body) && start % p == 0 && start <= end <= |content|
    requires Canonical(AlignGetRange(range, p), |content|) == Some((start, end))
    ensures var (got, complete) := Delivered(body(start, end));
      Prefetched(content, p, range, body, parts + SavedParts(p, start / p, got, complete))
  {
    hide AlignGetRange, Canonical, PartStart, SavedParts, Delivered;
    var (got, complete) := Delivered(body(start, end));
    SavedAll(p, start, end, got, complete);
  }

  class CachedObject {
    const content: Bytes
    const p: nat
    var cache: Cache

    constructor (content: Bytes, p: nat)
      requires p > 0
      ensures this.content == content && this.p == p && cache == Cache(None, map[])
    {
      this.content, this.p := content, p;
      cache := Cache(None, map[]);
    }

    ghost predicate Valid()
      reads this
    {
      p > 0 && Sound(content, p, cache)
    }

    /** One slice of one part: from disk when cached, otherwise the whole part is fetched and saved. */
    method ReadPart(part: nat, lo: nat, hi: nat, forceRefresh: bool) returns (bytes: Bytes)
      requires Valid() && PartStart(part, p) < |content| && lo <= hi <= |PartOf(content, p, part)|
      modifies this
      ensures Valid() && bytes == PartOf(content, p, part)[lo..hi]
      ensures part in cache.parts && cache.parts == old(cache).parts[part := PartOf(content, p, part)]
      ensures cache.head == old(cache).head || cache.head == Some(|content|)
    {
      if !forceRefresh && part in cache.parts && hi <= |cache.parts[part]| {
        return cache.parts[part][lo..hi];
      }
      var start := PartStart(part, p);
      var fetched := content[start..Min(start + p, |content|)];
      cache := Cache(Some(|content|), cache.parts[part := fetched]);
      bytes := fetched[lo..hi];
    }

    /** The size of the object, fetching and saving an aligned stretch of it when its head is not cached. */
    method MaybePrefetch(range: GetRange, body: (nat, nat) -> seq<Chunk>) returns (r: Outcome)
      requires Valid() && Honest(content, body)
      modifies this
      ensures Valid()
      ensures r.Panicked? <==> old(cache).head.None? && MisalignedSuffix(range, |content|, p)
      ensures r.Failed? ==> Canonical(range, |content|) == None
      ensures !r.Served? ==> cache == old(cache)
      ensures r.Served? ==> cache.head == Some(|content|) && forall k :: k in old(cache).parts ==> k in cache.parts
      ensures r.Served? && old(cache).head.None? ==> Prefetched(content, p, range, body, cache.parts)
    {
      hide PartSound, AlignUp, AlignDown, SavedParts, Delivered, Prefetched;
      if cache.head.Some? {
        return Served([]);
      }
      var aligned := AlignGetRange(range, p);
      if Canonical(range, |content|).Some? {
        AlignedServes(range, |content|, p);
      }
      var response := Canonical(aligned, |content|);
      if response.None? {
        return Failed;
      }
      var (start, end) := response.value;
      PrefetchAligned(range, |content|, p);
      if start % p != 0 || (end % p != 0 && end != |content|) {
        return Panicked;
      }
      CanonicalInside(aligned, |content|);
      var parts, complete := SavePartsStream(p, cache.parts, body(start, end), start / p);
      SavedIsSound(content, p, start, end, Delivered(body(start, end)).0, complete);
      MergeSound(content, p, cache, SavedParts(p, start / p, Delivered(body(start, end)).0, complete));
      SavedNow(content, p, range, body, cache.parts, start, end);
      cache := Cache(Some(|content|), parts);
      r := Served([]);
    }

    /** A cached range read returns exactly the requested bytes, whatever happens to the cache between its steps. */
    method CachedGet(range: GetRange, forceRefresh: bool, body: (nat, nat) -> seq<Chunk>,
                     disturb: (nat, Cache) -> Cache) returns (r: Outcome)
      requires Valid() && Honest(content, body) && Benign(content, p, disturb)
      modifies this
      ensures Valid()
      ensures r.Panicked? <==> old(cache).head.None? && MisalignedSuffix(range, |content|, p)
      ensures r.Failed? <==> OutOfRange(content, range)
      ensures r.Served? ==> AsksFor(content, range, r.bytes)
      ensures r.Served? ==> IsSlice(content, Canonical(range, |content|), r.bytes)
    {
      hide AsksFor, OutOfRange, PartSound, MisalignedSuffix, PartOf, SliceAt, Position, PartStart;
      CanonicalAsks(content, range);
      NoSuffixOutOfRange(content, range, p);
      var prefetched := MaybePrefetch(range, body);
      if !prefetched.Served? {
        return prefetched;
      }
      var canonical := Canonical(range, |content|);
      if canonical.None? {
        return Failed;
      }
      var (start, end) := canonical.value;
      CanonicalInside(range, |content|);
      var slices := SplitRange(start, end, p);
      PositionEnds(start, end, p);
      var out: Bytes := [];
      for i := 0 to |slices|
        invariant Valid()
        invariant start <= Position(start, end, p, i) <= end && out == content[start..Position(start, end, p, i)]
      {
        cache := disturb(i, cache);
        SliceCovers(content, start, end, p, i);
        var bytes := ReadPart(slices[i].part, slices[i].lo, slices[i].hi, forceRefresh);
        ghost var from, to := Position(start, end, p, i), Position(start, end, p, i + 1);
        assert content[start..from] + content[from..to] == content[start..to];
        out := out + bytes;
      }
      r := Served(out);
    }
  }

  lemma NoSuffixOutOfRange(content: Bytes, range: GetRange, p: nat)
    requires p > 0
    ensures OutOfRange(content, range) ==> !MisalignedSuffix(range, |content|, p)
  {
    hide AlignUp;
  }

  lemma CanonicalInside(range: GetRange, size: nat)
    ensures var c := Canonical(range, size); c.Some? ==> c.value.0 <= c.value.1 <= size
  {
  }

  lemma PositionEnds(start: nat, end: nat, p: nat)
    requires p > 0 && start <= end
    ensures Position(start, end, p, 0) == start && Position(start, end, p, PartCount(start, end, p)) == end
  {
    if PartCount(start, end, p) == 0 {
      NoParts(start, end, p);
    }
  }
}
