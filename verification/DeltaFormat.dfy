/**
 Git's delta format. The decoder follows the sections "Size encoding" and
 "Deltified representation" of Git's gitformat-pack document; the encoders are
 the server's. Decoding what they append gives back what was appended.
 */
module DeltaFormat {
  import opened Options

  type Byte = b: int | 0 <= b < 256
  type Bytes = seq<Byte>

  // ----------------------------------------------------------------- decoder

  /** Seven bits a byte, least significant first; the top bit says that more follow. */
  function DecodeSize(d: Bytes): Option<(nat, Bytes)> {
    if d == [] then None
    else if d[0] < 128 then Some((d[0], d[1..]))
    else match DecodeSize(d[1..])
      case None => None
      case Some((high, rest)) => Some((d[0] - 128 + 128 * high, rest))
  }

  /** Up to `count` little-endian bytes, each present when its flag bit is set and zero otherwise. */
  function DecodeField(flags: nat, count: nat, d: Bytes): Option<(nat, Bytes)>
    decreases count
  {
    if count == 0 then Some((0, d))
    else if flags % 2 == 1 then
      if d == [] then None
      else match DecodeField(flags / 2, count - 1, d[1..])
        case None => None
        case Some((high, rest)) => Some((d[0] + 256 * high, rest))
    else match DecodeField(flags / 2, count - 1, d)
      case None => None
      case Some((high, rest)) => Some((256 * high, rest))
  }

  lemma {:induction false} DecodeFieldShorter(flags: nat, count: nat, d: Bytes)
    ensures var r := DecodeField(flags, count, d); r.Some? ==> |r.value.1| <= |d|
    decreases count
  {
    if count > 0 {
      DecodeFieldShorter(flags / 2, count - 1, d);
      if d != [] {
        DecodeFieldShorter(flags / 2, count - 1, d[1..]);
      }
    }
  }

  function Prepend(a: Bytes, r: Option<Bytes>): Option<Bytes> {
    match r
    case None => None
    case Some(b) => Some(a + b)
  }

  /** A copy instruction: offset and size fields chosen by the opcode's low seven bits; size zero means 64 KiB. */
  function DecodeCopy(op: Byte, d: Bytes): (r: Option<(nat, nat, Bytes)>)
    ensures r.Some? ==> |r.value.2| <= |d|
  {
    match DecodeField(op, 4, d)
    case None => None
    case Some((offset, afterOffset)) =>
      DecodeFieldShorter(op, 4, d);
      DecodeFieldShorter(op / 16, 3, afterOffset);
      match DecodeField(op / 16, 3, afterOffset)
      case None => None
      case Some((size, rest)) => Some((offset, if size == 0 then 0x10000 else size, rest))
  }

  /** Run the instructions of a delta against its base. */
  function Decode(base: Bytes, d: Bytes): Option<Bytes>
    decreases |d|
  {
    if d == [] then Some([])
    else if d[0] >= 128 then
      match DecodeCopy(d[0], d[1..])
      case None => None
      case Some((offset, size, rest)) =>
        if offset + size > |base| then None else Prepend(base[offset..offset + size], Decode(base, rest))
    else if d[0] == 0 || 1 + d[0] > |d| then None
    else Prepend(d[1..1 + d[0]], Decode(base, d[1 + d[0]..]))
  }

  /** A whole delta: both sizes, then the instructions. */
  function ApplyDelta(base: Bytes, delta: Bytes): Option<Bytes> {
    match DecodeSize(delta)
    case None => None
    case Some((baseSize, afterBase)) =>
      match DecodeSize(afterBase)
      case None => None
      case Some((targetSize, instructions)) =>
        match Decode(base, instructions)
        case None => None
        case Some(target) => if baseSize == |base| && targetSize == |target| then Some(target) else None
  }

  // ----------------------------------------------------------------- encoder

  function SizeBytes(n: nat): (r: Bytes)
    ensures r != []
  {
    if n < 128 then [n] else [128 + n % 128] + SizeBytes(n / 128)
  }

  method EncodeSize(n: nat, out: Bytes) returns (r: Bytes)
    ensures r == out + SizeBytes(n)
  {
    var size := n;
    r := out;
    while true
      invariant r + SizeBytes(size) == out + SizeBytes(n)
      decreases size
    {
      var low := size % 128;
      var high := size / 128;
      if high == 0 {
        r := r + [low];
        return;
      }
      r := r + [low + 128];
      size := high;
    }
  }

  lemma {:induction false} SizeRoundTrip(n: nat, rest: Bytes)
    ensures DecodeSize(SizeBytes(n) + rest) == Some((n, rest))
    decreases n
  {
    if n < 128 {
      assert ([n] + rest)[1..] == rest;
    } else {
      SizeRoundTrip(n / 128, rest);
      assert (SizeBytes(n) + rest)[1..] == SizeBytes(n / 128) + rest;
    }
  }

  /** Literal instructions of at most 127 bytes each. */
  function Inserts(bytes: Bytes): Bytes {
    if bytes == [] then []
    else
      var n := if |bytes| < 127 then |bytes| else 127;
      [n] + bytes[..n] + Inserts(bytes[n..])
  }

  method AppendInsert(out: Bytes, bytes: Bytes) returns (r: Bytes)
    ensures r == out + Inserts(bytes)
  {
    r := out;
    var i := 0;
    while i < |bytes|
      invariant 0 <= i <= |bytes|
      invariant r + Inserts(bytes[i..]) == out + Inserts(bytes)
    {
      var n := if |bytes| - i < 127 then |bytes| - i else 127;
      assert bytes[i..][..n] == bytes[i..i + n] && bytes[i..][n..] == bytes[i + n..];
      ghost var before, tail := r, Inserts(bytes[i + n..]);
      r := r + ([n] + bytes[i..i + n]);
      assert r + tail == before + ([n] + bytes[i..i + n] + tail);
      i := i + n;
    }
  }

  lemma {:induction false} DecodeInserts(base: Bytes, bytes: Bytes, rest: Bytes)
    ensures Decode(base, Inserts(bytes) + rest) == Prepend(bytes, Decode(base, rest))
    decreases |bytes|
  {
    hide Decode;
    if bytes == [] {
      assert Inserts(bytes) + rest == rest;
      PrependNil(Decode(base, rest));
    } else {
      var n := if |bytes| < 127 then |bytes| else 127;
      var tail := Inserts(bytes[n..]) + rest;
      assert Inserts(bytes) + rest == [n] + bytes[..n] + tail;
      DecodeInsert(base, bytes[..n], tail);
      DecodeInserts(base, bytes[n..], rest);
      PrependTwice(bytes[..n], bytes[n..], Decode(base, rest));
      assert bytes[..n] + bytes[n..] == bytes;
    }
  }

  lemma DecodeInsert(base: Bytes, bytes: Bytes, rest: Bytes)
    requires 0 < |bytes| < 128
    ensures Decode(base, [|bytes|] + bytes + rest) == Prepend(bytes, Decode(base, rest))
  {
    var d: Bytes := [|bytes|] + bytes + rest;
    assert d[1..1 + |bytes|] == bytes && d[1 + |bytes|..] == rest;
  }

  lemma PrependNil(r: Option<Bytes>)
    ensures Prepend([], r) == r
  {
    if r.Some? {
      assert [] + r.value == r.value;
    }
  }

  lemma PrependTwice(a: Bytes, b: Bytes, r: Option<Bytes>)
    ensures Prepend(a, Prepend(b, r)) == Prepend(a + b, r)
  {
    if r.Some? {
      assert a + (b + r.value) == a + b + r.value;
    }
  }

  /** The non-zero bytes of a little-endian field, and the flag bits that announce them. */
  function FieldBytes(v: nat, count: nat): Bytes {
    if count == 0 then [] else (if v % 256 != 0 then [v % 256] else []) + FieldBytes(v / 256, count - 1)
  }

  function FieldFlags(v: nat, count: nat): nat {
    if count == 0 then 0 else (if v % 256 != 0 then 1 else 0) + 2 * FieldFlags(v / 256, count - 1)
  }

  function Pow(b: nat, n: nat): nat {
    if n == 0 then 1 else b * Pow(b, n - 1)
  }

  lemma {:induction false} FieldFlagsBound(v: nat, count: nat)
    ensures FieldFlags(v, count) < Pow(2, count)
    decreases count
  {
    if count > 0 {
      FieldFlagsBound(v / 256, count - 1);
    }
  }

  lemma FlagsShift(v: nat, count: nat, above: nat)
    requires count > 0
    ensures var flags := FieldFlags(v, count) + Pow(2, count) * above;
      && flags % 2 == (if v % 256 != 0 then 1 else 0)
      && flags / 2 == FieldFlags(v / 256, count - 1) + Pow(2, count - 1) * above
  {
    assert Pow(2, count) * above == 2 * (Pow(2, count - 1) * above);
  }

  /** A field decodes to its value, whatever flags of other fields sit above its own. */
  lemma {:induction false} FieldRoundTrip(v: nat, count: nat, above: nat, rest: Bytes)
    requires v < Pow(256, count)
    ensures var flags := FieldFlags(v, count) + Pow(2, count) * above;
      DecodeField(flags, count, FieldBytes(v, count) + rest) == Some((v, rest))
    decreases count
  {
    hide FieldFlags, Pow, DecodeField;
    PowStep(256, count);
    if count == 0 {
      NoField(FieldFlags(v, 0) + Pow(2, 0) * above, rest);
      assert FieldBytes(v, 0) + rest == rest;
    } else {
      FieldRoundTrip(v / 256, count - 1, above, rest);
      FlagsShift(v, count, above);
      FieldStep(FieldFlags(v, count) + Pow(2, count) * above, v, count, FieldBytes(v / 256, count - 1) + rest, rest);
      assert FieldBytes(v, count) + rest ==
             (if v % 256 != 0 then [v % 256] else []) + (FieldBytes(v / 256, count - 1) + rest);
    }
  }

  lemma NoField(flags: nat, d: Bytes)
    ensures DecodeField(flags, 0, d) == Some((0, d))
  {
  }

  /** One byte of a field, present or omitted as its flag says. */
  lemma FieldStep(flags: nat, v: nat, count: nat, d: Bytes, rest: Bytes)
    requires count > 0 && flags % 2 == (if v % 256 != 0 then 1 else 0)
    requires DecodeField(flags / 2, count - 1, d) == Some((v / 256, rest))
    ensures DecodeField(flags, count, (if v % 256 != 0 then [v % 256] else []) + d) == Some((v, rest))
  {
    if v % 256 != 0 {
      assert ([v % 256] + d)[1..] == d;
    } else {
      assert [] + d == d;
    }
  }

  lemma PowStep(b: nat, n: nat)
    ensures Pow(b, n) == if n == 0 then 1 else b * Pow(b, n - 1)
  {
  }

  lemma PowFacts()
    ensures Pow(2, 3) == 8 && Pow(2, 4) == 16 && Pow(256, 3) == 0x100_0000 && Pow(256, 4) == 0x1_0000_0000
  {
    assert Pow(2, 2) == 4 && Pow(256, 2) == 0x1_0000;
  }

  /** One copy instruction; a full 64 KiB is written as size zero. */
  function CopyInstruction(offset: nat, size: nat): (r: Bytes)
    requires 0 < size <= 0x10000
    ensures r != []
  {
    var encoded := if size == 0x10000 then 0 else size;
    FieldFlagsBound(offset, 4);
    FieldFlagsBound(encoded, 3);
    PowFacts();
    [128 + FieldFlags(offset, 4) + 16 * FieldFlags(encoded, 3)] + FieldBytes(offset, 4) + FieldBytes(encoded, 3)
  }

  function Copies(offset: nat, len: nat): Bytes
    decreases len
  {
    if len == 0 then []
    else
      var chunk := if len < 0x10000 then len else 0x10000;
      CopyInstruction(offset, chunk) + Copies(offset + chunk, len - chunk)
  }

  lemma CopyRoundTrip(offset: nat, size: nat, rest: Bytes)
    requires offset < 0x1_0000_0000 && 0 < size <= 0x10000
    ensures var c := CopyInstruction(offset, size);
      c[0] >= 128 && DecodeCopy(c[0], c[1..] + rest) == Some((offset, size, rest))
  {
    hide DecodeField, FieldFlags, FieldBytes, Pow;
    var encoded := if size == 0x10000 then 0 else size;
    var fo, fs := FieldFlags(offset, 4), FieldFlags(encoded, 3);
    FieldFlagsBound(offset, 4);
    FieldFlagsBound(encoded, 3);
    PowFacts();
    FieldRoundTrip(offset, 4, fs + 8, FieldBytes(encoded, 3) + rest);
    FieldRoundTrip(encoded, 3, 1, rest);
    assert (128 + fo + 16 * fs) / 16 == fs + 8;
    var c := CopyInstruction(offset, size);
    assert c[1..] + rest == FieldBytes(offset, 4) + (FieldBytes(encoded, 3) + rest);
  }

  lemma {:induction false} DecodeCopies(base: Bytes, offset: nat, len: nat, rest: Bytes)
    requires offset + len <= |base| < 0x1_0000_0000
    ensures Decode(base, Copies(offset, len) + rest) == Prepend(base[offset..offset + len], Decode(base, rest))
    decreases len
  {
    hide CopyInstruction, DecodeCopy;
    if len == 0 {
      assert Copies(offset, len) + rest == rest && base[offset..offset] == [];
      PrependNil(Decode(base, rest));
    } else {
      var chunk := if len < 0x10000 then len else 0x10000;
      var c, tail := CopyInstruction(offset, chunk), Copies(offset + chunk, len - chunk) + rest;
      var d := Copies(offset, len) + rest;
      assert d == c + tail && d[0] == c[0] && d[1..] == c[1..] + tail;
      CopyRoundTrip(offset, chunk, tail);
      DecodeCopies(base, offset + chunk, len - chunk, rest);
      PrependTwice(base[offset..offset + chunk], base[offset + chunk..offset + len], Decode(base, rest));
      assert base[offset..offset + chunk] + base[offset + chunk..offset + len] == base[offset..offset + len];
    }
  }

  /** Append one field: set a flag bit and push a byte for each non-zero byte of the value. */
  method AppendField(v: nat, count: nat, bit0: nat, command0: nat, payload0: Bytes)
    returns (command: nat, payload: Bytes)
    ensures command == command0 + bit0 * FieldFlags(v, count)
    ensures payload == payload0 + FieldBytes(v, count)
  {
    var rest: nat, bit: nat := v, bit0;
    command, payload := command0, payload0;
    for i := 0 to count
      invariant command + bit * FieldFlags(rest, count - i) == command0 + bit0 * FieldFlags(v, count)
      invariant payload + FieldBytes(rest, count - i) == payload0 + FieldBytes(v, count)
    {
      var byte := rest % 256;
      FlagStep(bit, rest, count - i);
      if byte != 0 {
        command := command + bit;
        payload := payload + [byte];
      }
      rest, bit := rest / 256, bit * 2;
    }
  }

  lemma FlagStep(bit: nat, v: nat, count: nat)
    requires count > 0
    ensures bit * FieldFlags(v, count) == (if v % 256 != 0 then bit else 0) + bit * 2 * FieldFlags(v / 256, count - 1)
  {
  }

  method AppendCopyChunk(out: Bytes, offset: nat, chunk: nat) returns (r: Bytes)
    requires 0 < chunk <= 0x10000
    ensures r == out + CopyInstruction(offset, chunk)
  {
    hide CopyInstruction, FieldFlags, FieldBytes;
    var command, payload := AppendField(offset, 4, 1, 0x80, []);
    if chunk != 0x10000 {
      command, payload := AppendField(chunk, 3, 16, command, payload);
    }
    EmptyField();
    CopyBytes(offset, chunk, command, payload);
    r := out + ([command] + payload);
  }

  method AppendCopy(out: Bytes, offset0: nat, len0: nat) returns (r: Bytes)
    ensures r == out + Copies(offset0, len0)
  {
    hide CopyInstruction;
    var offset: nat, len: nat := offset0, len0;
    r := out;
    while len != 0
      invariant r + Copies(offset, len) == out + Copies(offset0, len0)
    {
      var chunk := if len < 0x10000 then len else 0x10000;
      ghost var before, tail := r, Copies(offset + chunk, len - chunk);
      r := AppendCopyChunk(r, offset, chunk);
      assert r + tail == before + (CopyInstruction(offset, chunk) + tail);
      offset, len := offset + chunk, len - chunk;
    }
  }

  lemma CopyBytes(offset: nat, chunk: nat, command: nat, payload: Bytes)
    requires 0 < chunk <= 0x10000
    requires var size := if chunk == 0x10000 then 0 else chunk;
      && command == 0x80 + FieldFlags(offset, 4) + 16 * FieldFlags(size, 3)
      && payload == FieldBytes(offset, 4) + FieldBytes(size, 3)
    ensures command < 256 && [command] + payload == CopyInstruction(offset, chunk)
  {
    hide FieldFlags, FieldBytes, Pow;
    FieldFlagsBound(offset, 4);
    FieldFlagsBound(chunk, 3);
    PowFacts();
    EmptyField();
  }

  lemma EmptyField()
    ensures FieldFlags(0, 3) == 0 && FieldBytes(0, 3) == []
  {
    assert FieldFlags(0, 1) == 0 && FieldBytes(0, 1) == [];
    assert FieldFlags(0, 2) == 0 && FieldBytes(0, 2) == [];
  }
}
