/** The Protocol Buffers wire format: varints, fixed64, tags and records
    ("Base 128 Varints" and "Message Structure" of the encoding specification). */
module Wire {
  import opened Memory

  type Byte = x: int | 0 <= x < 256
  type Bytes = seq<Byte>

  const TWO_31: int := 0x8000_0000
  const TWO_32: int := 0x1_0000_0000
  const TWO_63: int := 0x8000_0000_0000_0000
  const TWO_64: int := 0x1_0000_0000_0000_0000

  type Int32 = x: int | -TWO_31 <= x < TWO_31
  type Int64 = x: int | -TWO_63 <= x < TWO_63
  type Uint64 = x: int | 0 <= x < TWO_64

  // ---- numbers

  /** Two's complement, sign-extended to 64 bits. */
  function Unsigned(i: Int64): Uint64 {
    if i < 0 then i + TWO_64 else i
  }

  function AsInt64(u: Uint64): Int64 {
    if u < TWO_63 then u else u - TWO_64
  }

  /** The low 32 bits, read as a signed number. */
  function AsInt32(u: Uint64): Int32 {
    var low := u % TWO_32;
    if low < TWO_31 then low else low - TWO_32
  }

  lemma SignedRoundTrip(i: Int64)
    ensures AsInt64(Unsigned(i)) == i
    ensures -TWO_31 <= i < TWO_31 ==> AsInt32(Unsigned(i)) == i
  {
  }

  /** Reading a number as signed drops whole turns of the word only. */
  lemma SignedDropsTurns(u: Uint64)
    ensures (AsInt32(u) - u) % TWO_32 == 0
    ensures (AsInt64(u) - u) % TWO_64 == 0
  {
  }

  function Varint(n: nat): Bytes {
    if n < 128 then [n] else [n % 128 + 128] + Varint(n / 128)
  }

  function VarintSize(n: nat): nat {
    if n < 128 then 1 else 1 + VarintSize(n / 128)
  }

  function ReadVarint(b: Bytes, room: nat): (r: Option<(nat, Bytes)>)
    ensures r.Some? ==> |r.value.1| < |b|
  {
    if room == 0 || b == [] then None
    else if b[0] < 128 then Some((b[0], b[1..]))
    else match ReadVarint(b[1..], room - 1)
      case None => None
      case Some((high, rest)) => Some((b[0] - 128 + 128 * high, rest))
  }

  /** A varint is refused exactly when no byte within reach ends it. */
  lemma {:induction false} ReadVarintRefuses(b: Bytes, room: nat)
    ensures ReadVarint(b, room).None? <==> forall i :: 0 <= i < room && i < |b| ==> b[i] >= 128
  {
    if room > 0 && b != [] && b[0] >= 128 {
      ReadVarintRefuses(b[1..], room - 1);
      assert forall i :: 0 < i < |b| ==> b[i] == b[1..][i - 1];
      assert forall i :: 0 <= i < |b[1..]| ==> b[1..][i] == b[i + 1];
    }
  }

  /** At most ten bytes; bits beyond the 64th are dropped. */
  function ReadVarint64(b: Bytes): (r: Option<(Uint64, Bytes)>)
    ensures r.Some? ==> |r.value.1| < |b|
  {
    match ReadVarint(b, 10)
    case None => None
    case Some((n, rest)) => Some((if n < TWO_64 then n else n % TWO_64, rest))
  }

  function Power128(k: nat): nat {
    if k == 0 then 1 else 128 * Power128(k - 1)
  }

  lemma {:induction false} VarintFits(n: nat, k: nat)
    requires k > 0 && n < Power128(k)
    ensures VarintSize(n) <= k
  {
    if n >= 128 {
      VarintFits(n / 128, k - 1);
    }
  }

  lemma {:induction false} VarintLength(n: nat)
    ensures |Varint(n)| == VarintSize(n)
  {
    if n >= 128 {
      VarintLength(n / 128);
    }
  }

  lemma {:induction false} VarintReads(n: nat, rest: Bytes, room: nat)
    requires VarintSize(n) <= room
    ensures ReadVarint(Varint(n) + rest, room) == Some((n, rest))
  {
    var b := Varint(n) + rest;
    if n < 128 {
      assert b[1..] == rest;
    } else {
      assert b[1..] == Varint(n / 128) + rest;
      VarintReads(n / 128, rest, room - 1);
    }
  }

  /** A 64-bit number takes at most ten bytes. */
  lemma Varint64Fits(n: Uint64)
    ensures VarintSize(n) <= 10
  {
    assert Power128(1) == 0x80;
    assert Power128(2) == 0x4000;
    assert Power128(3) == 0x200000;
    assert Power128(4) == 0x10000000;
    assert Power128(5) == 0x800000000;
    assert Power128(6) == 0x40000000000;
    assert Power128(7) == 0x2000000000000;
    assert Power128(8) == 0x100000000000000;
    assert Power128(9) == 0x8000000000000000;
    assert Power128(10) == 0x400000000000000000;
    VarintFits(n, 10);
  }

  lemma Varint64Reads(n: Uint64, rest: Bytes)
    ensures ReadVarint64(Varint(n) + rest) == Some((n, rest))
  {
    Varint64Fits(n);
    VarintReads(n, rest, 10);
  }

  /** Little endian, `width` bytes. */
  function Fixed(n: nat, width: nat): Bytes {
    if width == 0 then [] else [n % 256] + Fixed(n / 256, width - 1)
  }

  function FixedValue(b: Bytes): nat {
    if b == [] then 0 else b[0] + 256 * FixedValue(b[1..])
  }

  function Power256(k: nat): nat {
    if k == 0 then 1 else 256 * Power256(k - 1)
  }

  lemma {:induction false} FixedReads(n: nat, width: nat)
    requires n < Power256(width)
    ensures |Fixed(n, width)| == width && FixedValue(Fixed(n, width)) == n
  {
    if width > 0 {
      FixedReads(n / 256, width - 1);
      assert Fixed(n, width)[1..] == Fixed(n / 256, width - 1);
    }
  }

  // ---- records

  /** One record of a message. Field numbers start at 1. */
  datatype Record =
    | VarintRecord(field: nat, n: Uint64)
    | Fixed64Record(field: nat, n: Uint64)
    | ChunkRecord(field: nat, bytes: Bytes)
    | Fixed32Record(field: nat, n: Uint64)

  function WireType(r: Record): nat {
    match r
    case VarintRecord(_, _) => 0
    case Fixed64Record(_, _) => 1
    case ChunkRecord(_, _) => 2
    case Fixed32Record(_, _) => 5
  }

  function Content(r: Record): Bytes {
    match r
    case VarintRecord(_, n) => Varint(n)
    case Fixed64Record(_, n) => Fixed(n, 8)
    case ChunkRecord(_, bytes) => Varint(|bytes|) + bytes
    case Fixed32Record(_, n) => Fixed(n, 4)
  }

  function Write(r: Record): Bytes {
    Varint(8 * r.field + WireType(r)) + Content(r)
  }

  /** Chunks are shorter than 2 GiB, and fixed32 values fit four bytes. */
  predicate Writable(r: Record) {
    && 1 <= r.field < 0x2000_0000
    && (r.ChunkRecord? ==> |r.bytes| < TWO_31)
    && (r.Fixed32Record? ==> r.n < TWO_32)
  }

  function Weight(r: Record): nat {
    if r.ChunkRecord? then |r.bytes| else 0
  }

  function ReadFixed(b: Bytes, width: nat): (r: Option<(nat, Bytes)>)
    ensures r.Some? ==> |r.value.1| == |b| - width
  {
    if |b| < width then None else Some((FixedValue(b[..width]), b[width..]))
  }

  function ReadContent(field: nat, wireType: nat, b: Bytes): (r: Option<(Record, Bytes)>)
    ensures r.Some? ==> |r.value.1| + Weight(r.value.0) <= |b|
  {
    if wireType == 0 then
      match ReadVarint64(b)
      case None => None
      case Some((n, rest)) => Some((VarintRecord(field, n), rest))
    else if wireType == 1 then
      match ReadFixed(b, 8)
      case None => None
      case Some((n, rest)) => Some((Fixed64Record(field, n % TWO_64), rest))
    else if wireType == 2 then
      match ReadVarint64(b)
      case None => None
      case Some((n, rest)) =>
        if n >= TWO_31 || n > |rest| then None else Some((ChunkRecord(field, rest[..n]), rest[n..]))
    else if wireType == 5 then
      match ReadFixed(b, 4)
      case None => None
      case Some((n, rest)) => Some((Fixed32Record(field, n % TWO_64), rest))
    else None
  }

  /** The first record of `b` and what follows it. */
  function ReadRecord(b: Bytes): (r: Option<(Record, Bytes)>)
    ensures r.Some? ==> |r.value.1| + Weight(r.value.0) < |b|
  {
    match ReadVarint64(b)
    case None => None
    case Some((tag, rest)) =>
      if tag >= TWO_32 || tag / 8 == 0 then None else ReadContent(tag / 8, tag % 8, rest)
  }

  lemma ReadFixedReads(n: nat, width: nat, rest: Bytes)
    requires n < Power256(width)
    ensures ReadFixed(Fixed(n, width) + rest, width) == Some((n, rest))
  {
    FixedReads(n, width);
    var b := Fixed(n, width) + rest;
    assert b[..width] == Fixed(n, width) && b[width..] == rest;
  }

  lemma Powers256()
    ensures Power256(4) == TWO_32 && Power256(8) == TWO_64
  {
    assert Power256(4) == TWO_32;
    assert Power256(8) == 0x1_0000_0000 * Power256(4);
  }

  lemma ContentReads(r: Record, rest: Bytes)
    requires Writable(r)
    ensures ReadContent(r.field, WireType(r), Content(r) + rest) == Some((r, rest))
  {
    match r {
      case VarintRecord(_, n) =>
        Varint64Reads(n, rest);
      case Fixed64Record(_, n) =>
        Powers256();
        ReadFixedReads(n, 8, rest);
      case ChunkRecord(_, bytes) =>
        ChunkReads(r.field, bytes, rest);
      case Fixed32Record(_, n) =>
        Powers256();
        ReadFixedReads(n, 4, rest);
    }
  }

  lemma ChunkReads(field: nat, bytes: Bytes, rest: Bytes)
    requires |bytes| < TWO_31
    ensures ReadContent(field, 2, Varint(|bytes|) + bytes + rest) == Some((ChunkRecord(field, bytes), rest))
  {
    Varint64Reads(|bytes|, bytes + rest);
    assert Varint(|bytes|) + bytes + rest == Varint(|bytes|) + (bytes + rest);
    assert (bytes + rest)[..|bytes|] == bytes && (bytes + rest)[|bytes|..] == rest;
  }

  /** A written record is read back, whatever follows it. */
  lemma RecordReads(r: Record, rest: Bytes)
    requires Writable(r)
    ensures Write(r) != [] && ReadRecord(Write(r) + rest) == Some((r, rest))
  {
    var tag := 8 * r.field + WireType(r);
    var after := Content(r) + rest;
    Varint64Reads(tag, after);
    assert Write(r) + rest == Varint(tag) + after;
    ContentReads(r, rest);
    TagReads(Write(r) + rest, tag, after);
    TagSplits(r.field, WireType(r));
  }

  lemma TagReads(b: Bytes, tag: Uint64, after: Bytes)
    requires ReadVarint64(b) == Some((tag, after)) && 8 <= tag < TWO_32
    ensures ReadRecord(b) == ReadContent(tag / 8, tag % 8, after)
  {
  }

  lemma TagSplits(field: nat, wireType: nat)
    requires wireType < 8
    ensures (8 * field + wireType) / 8 == field && (8 * field + wireType) % 8 == wireType
  {
  }

  // ---- sequences of records

  function WriteAll(records: seq<Record>): Bytes {
    if records == [] then [] else Write(records[0]) + WriteAll(records[1..])
  }

  predicate AllWritable(records: seq<Record>) {
    forall r :: r in records ==> Writable(r)
  }

  function TotalWeight(records: seq<Record>): nat {
    if records == [] then 0 else Weight(records[0]) + TotalWeight(records[1..])
  }

  function Prepend(first: Record, others: Option<seq<Record>>): Option<seq<Record>> {
    if others.None? then None else Some([first] + others.value)
  }

  function Join(a: seq<Record>, b: Option<seq<Record>>): Option<seq<Record>> {
    if b.None? then None else Some(a + b.value)
  }

  /** All records of `b`, or None when it is not a sequence of records. */
  function ReadAll(b: Bytes): (r: Option<seq<Record>>)
    ensures r.Some? && b != [] ==> TotalWeight(r.value) < |b|
    decreases |b|
  {
    if b == [] then Some([])
    else match ReadRecord(b)
      case None => None
      case Some((first, rest)) => Prepend(first, ReadAll(rest))
  }

  lemma {:induction false} WrittenReads(records: seq<Record>)
    requires AllWritable(records)
    ensures ReadAll(WriteAll(records)) == Some(records)
  {
    if records != [] {
      RecordReads(records[0], WriteAll(records[1..]));
      WrittenReads(records[1..]);
      assert WriteAll(records) == Write(records[0]) + WriteAll(records[1..]);
      assert records == [records[0]] + records[1..];
    }
  }

  // ---- a record is read the same whatever follows it

  lemma {:induction false} ReadVarintLocal(a: Bytes, b: Bytes, room: nat)
    ensures ReadVarint(a, room).Some? ==>
              ReadVarint(a + b, room) == Some((ReadVarint(a, room).value.0, ReadVarint(a, room).value.1 + b))
  {
    if room > 0 && a != [] {
      assert (a + b)[1..] == a[1..] + b;
      if a[0] >= 128 {
        ReadVarintLocal(a[1..], b, room - 1);
      }
    }
  }

  lemma ReadVarint64Local(a: Bytes, b: Bytes)
    ensures ReadVarint64(a).Some? ==>
              ReadVarint64(a + b) == Some((ReadVarint64(a).value.0, ReadVarint64(a).value.1 + b))
  {
    ReadVarintLocal(a, b, 10);
  }

  lemma ReadFixedLocal(a: Bytes, b: Bytes, width: nat)
    ensures ReadFixed(a, width).Some? ==>
              ReadFixed(a + b, width) == Some((ReadFixed(a, width).value.0, ReadFixed(a, width).value.1 + b))
  {
    if |a| >= width {
      assert (a + b)[..width] == a[..width] && (a + b)[width..] == a[width..] + b;
    }
  }

  lemma ReadChunkLocal(field: nat, a: Bytes, b: Bytes)
    ensures ReadContent(field, 2, a).Some? ==>
              ReadContent(field, 2, a + b) == Some((ReadContent(field, 2, a).value.0, ReadContent(field, 2, a).value.1 + b))
  {
    ReadVarint64Local(a, b);
    if ReadContent(field, 2, a).Some? {
      var (n, rest) := ReadVarint64(a).value;
      assert (rest + b)[..n] == rest[..n] && (rest + b)[n..] == rest[n..] + b;
    }
  }

  lemma ReadContentLocal(field: nat, wireType: nat, a: Bytes, b: Bytes)
    ensures ReadContent(field, wireType, a).Some? ==>
              ReadContent(field, wireType, a + b)
              == Some((ReadContent(field, wireType, a).value.0, ReadContent(field, wireType, a).value.1 + b))
  {
    if wireType == 0 {
      ReadVarint64Local(a, b);
    } else if wireType == 1 {
      ReadFixedLocal(a, b, 8);
    } else if wireType == 2 {
      ReadChunkLocal(field, a, b);
    } else if wireType == 5 {
      ReadFixedLocal(a, b, 4);
    }
  }

  lemma ReadRecordLocal(a: Bytes, b: Bytes)
    ensures ReadRecord(a).Some? ==>
              ReadRecord(a + b) == Some((ReadRecord(a).value.0, ReadRecord(a).value.1 + b))
  {
    ReadVarint64Local(a, b);
    if ReadVarint64(a).Some? {
      var (tag, rest) := ReadVarint64(a).value;
      ReadContentLocal(tag / 8, tag % 8, rest, b);
    }
  }

  lemma ReadAllStep(a: Bytes, b: Bytes)
    requires a != [] && ReadRecord(a).Some?
    ensures ReadAll(a + b) == Prepend(ReadRecord(a).value.0, ReadAll(ReadRecord(a).value.1 + b))
  {
    ReadRecordLocal(a, b);
  }

  lemma PrependJoins(first: Record, a: seq<Record>, b: Option<seq<Record>>)
    ensures Prepend(first, Join(a, b)) == Join([first] + a, b)
  {
    if b.Some? {
      assert [first] + (a + b.value) == [first] + a + b.value;
    }
  }

  /** Reading distributes over concatenation once the first part is complete. */
  lemma {:induction false} ReadAllConcat(a: Bytes, b: Bytes)
    requires ReadAll(a).Some?
    ensures ReadAll(a + b) == Join(ReadAll(a).value, ReadAll(b))
    decreases |a|
  {
    if a == [] {
      assert a + b == b;
      assert ReadAll(b).Some? ==> [] + ReadAll(b).value == ReadAll(b).value;
    } else {
      var (first, rest) := ReadRecord(a).value;
      assert ReadAll(a) == Prepend(first, ReadAll(rest));
      ReadAllStep(a, b);
      ReadAllConcat(rest, b);
      PrependJoins(first, ReadAll(rest).value, ReadAll(b));
    }
  }

  lemma {:induction false} WriteAllConcat(a: seq<Record>, b: seq<Record>)
    ensures WriteAll(a + b) == WriteAll(a) + WriteAll(b)
  {
    if a == [] {
      assert a + b == b;
    } else {
      assert (a + b)[1..] == a[1..] + b;
      WriteAllConcat(a[1..], b);
    }
  }
}
