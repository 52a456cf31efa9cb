/** cel.expr.Value and the messages it is made of (value.pb.cc), as values:
    encoded form, size, merging. */
module Messages {
  import opened Memory
  import opened Wire

  datatype Value =
    | KindNotSet
    | NullKind(n: Int32)
    | BoolKind(b: bool)
    | IntKind(i: Int64)
    | UintKind(u: Uint64)
    | DoubleKind(bits: Uint64)
    | StringKind(s: Bytes)
    | BytesKind(bytes: Bytes)
    | EnumKind(e: EnumValue)
    | ObjectKind(o: AnyValue)
    | MapKind(entries: seq<Entry>)
    | ListKind(values: seq<Value>)
    | TypeKind(t: Bytes)

  datatype EnumValue = EnumValue(typ: Bytes, number: Int32)

  datatype AnyValue = AnyValue(typeUrl: Bytes, content: Bytes)

  datatype Entry = Entry(key: Option<Value>, value: Option<Value>)

  // ---- encoding: the records of each message, in field order

  function ValueRecords(v: Value): seq<Record>
    decreases v, 0
  {
    match v
    case KindNotSet => []
    case NullKind(n) => [VarintRecord(1, Unsigned(n))]
    case BoolKind(b) => [VarintRecord(2, if b then 1 else 0)]
    case IntKind(i) => [VarintRecord(3, Unsigned(i))]
    case UintKind(u) => [VarintRecord(4, u)]
    case DoubleKind(bits) => [Fixed64Record(5, bits)]
    case StringKind(s) => [ChunkRecord(6, s)]
    case BytesKind(bytes) => [ChunkRecord(7, bytes)]
    case EnumKind(e) => [ChunkRecord(9, WriteAll(EnumRecords(e)))]
    case ObjectKind(o) => [ChunkRecord(10, WriteAll(AnyRecords(o)))]
    case MapKind(entries) => [ChunkRecord(11, WriteAll(EntriesRecords(entries)))]
    case ListKind(values) => [ChunkRecord(12, WriteAll(ValuesRecords(values)))]
    case TypeKind(t) => [ChunkRecord(15, t)]
  }

  function Optional(present: bool, r: Record): seq<Record> {
    if present then [r] else []
  }

  function FieldRecords(field: nat, v: Option<Value>): seq<Record>
    decreases v, 2
  {
    if v.Some? then [ChunkRecord(field, EncodeValue(v.value))] else []
  }

  /** Implicit presence: an empty string and a zero are not written. */
  function EnumRecords(e: EnumValue): seq<Record> {
    Optional(e.typ != [], ChunkRecord(1, e.typ)) + Optional(e.number != 0, VarintRecord(2, Unsigned(e.number)))
  }

  function AnyRecords(o: AnyValue): seq<Record> {
    Optional(o.typeUrl != [], ChunkRecord(1, o.typeUrl)) + Optional(o.content != [], ChunkRecord(2, o.content))
  }

  function ValuesRecords(values: seq<Value>): seq<Record>
    decreases values, 0
  {
    if values == [] then [] else [ChunkRecord(1, EncodeValue(values[0]))] + ValuesRecords(values[1..])
  }

  function EntriesRecords(entries: seq<Entry>): seq<Record>
    decreases entries, 0
  {
    if entries == [] then [] else [ChunkRecord(1, EncodeEntry(entries[0]))] + EntriesRecords(entries[1..])
  }

  function EntryRecords(e: Entry): seq<Record>
    decreases e, 0
  {
    FieldRecords(1, e.key) + FieldRecords(2, e.value)
  }

  function EncodeValue(v: Value): Bytes
    decreases v, 1
  {
    WriteAll(ValueRecords(v))
  }

  function EncodeEntry(e: Entry): Bytes
    decreases e, 1
  {
    WriteAll(EntryRecords(e))
  }

  // ---- sizes, as ByteSizeLong adds them up

  function LengthDelimited(n: nat): nat {
    VarintSize(n) + n
  }

  function ValueSize(v: Value): nat {
    match v
    case KindNotSet => 0
    case NullKind(n) => 1 + VarintSize(Unsigned(n))
    case BoolKind(b) => 2
    case IntKind(i) => VarintSize(Unsigned(i)) + 1
    case UintKind(u) => VarintSize(u) + 1
    case DoubleKind(bits) => 9
    case StringKind(s) => 1 + LengthDelimited(|s|)
    case BytesKind(bytes) => 1 + LengthDelimited(|bytes|)
    case EnumKind(e) => 1 + LengthDelimited(EnumSize(e))
    case ObjectKind(o) => 1 + LengthDelimited(AnySize(o))
    case MapKind(entries) => 1 + LengthDelimited(EntriesSize(entries))
    case ListKind(values) => 1 + LengthDelimited(ValuesSize(values))
    case TypeKind(t) => 1 + LengthDelimited(|t|)
  }

  function EnumSize(e: EnumValue): nat {
    (if e.typ != [] then 1 + LengthDelimited(|e.typ|) else 0)
    + (if e.number != 0 then VarintSize(Unsigned(e.number)) + 1 else 0)
  }

  function AnySize(o: AnyValue): nat {
    (if o.typeUrl != [] then 1 + LengthDelimited(|o.typeUrl|) else 0)
    + (if o.content != [] then 1 + LengthDelimited(|o.content|) else 0)
  }

  function ValuesSize(values: seq<Value>): nat {
    if values == [] then 0 else 1 + LengthDelimited(ValueSize(values[0])) + ValuesSize(values[1..])
  }

  function EntriesSize(entries: seq<Entry>): nat {
    if entries == [] then 0 else 1 + LengthDelimited(EntrySize(entries[0])) + EntriesSize(entries[1..])
  }

  function EntrySize(e: Entry): nat {
    (if e.key.Some? then 1 + LengthDelimited(ValueSize(e.key.value)) else 0)
    + (if e.value.Some? then 1 + LengthDelimited(ValueSize(e.value.value)) else 0)
  }

  function RecordSize(r: Record): nat {
    VarintSize(8 * r.field + WireType(r))
    + match r
      case VarintRecord(_, n) => VarintSize(n)
      case Fixed64Record(_, _) => 8
      case ChunkRecord(_, bytes) => LengthDelimited(|bytes|)
      case Fixed32Record(_, _) => 4
  }

  function RecordSizes(records: seq<Record>): nat {
    if records == [] then 0 else RecordSize(records[0]) + RecordSizes(records[1..])
  }

  lemma {:induction false} FixedLength(n: nat, width: nat)
    ensures |Fixed(n, width)| == width
  {
    if width > 0 {
      FixedLength(n / 256, width - 1);
    }
  }

  lemma RecordLength(r: Record)
    ensures |Write(r)| == RecordSize(r)
  {
    VarintLength(8 * r.field + WireType(r));
    match r {
      case VarintRecord(_, n) => VarintLength(n);
      case Fixed64Record(_, n) => FixedLength(n, 8);
      case ChunkRecord(_, bytes) => VarintLength(|bytes|);
      case Fixed32Record(_, n) => FixedLength(n, 4);
    }
  }

  lemma {:induction false} RecordsLength(records: seq<Record>)
    ensures |WriteAll(records)| == RecordSizes(records)
  {
    if records != [] {
      RecordLength(records[0]);
      RecordsLength(records[1..]);
    }
  }

  lemma OneRecordLength(r: Record)
    ensures |WriteAll([r])| == RecordSize(r)
  {
    RecordsLength([r]);
    assert RecordSizes([r]) == RecordSize(r) + RecordSizes([r][1..]);
  }

  lemma TwoPartsLength(a: seq<Record>, b: seq<Record>)
    requires |a| <= 1 && |b| <= 1
    ensures |WriteAll(a + b)| == (if a == [] then 0 else RecordSize(a[0])) + (if b == [] then 0 else RecordSize(b[0]))
  {
    WriteAllConcat(a, b);
    if a != [] { OneRecordLength(a[0]); assert a == [a[0]]; }
    if b != [] { OneRecordLength(b[0]); assert b == [b[0]]; }
  }

  /** ByteSizeLong counts exactly the bytes that are written. */
  lemma {:induction false} ValueLength(v: Value)
    ensures |EncodeValue(v)| == ValueSize(v)
    decreases v
  {
    if !v.KindNotSet? {
      OneRecordLength(ValueRecords(v)[0]);
    }
    match v {
      case EnumKind(e) => EnumLength(e);
      case ObjectKind(o) => AnyLength(o);
      case MapKind(entries) => EntriesLength(entries);
      case ListKind(values) => ValuesLength(values);
      case _ =>
    }
  }

  lemma EnumLength(e: EnumValue)
    ensures |WriteAll(EnumRecords(e))| == EnumSize(e)
  {
    TwoPartsLength(Optional(e.typ != [], ChunkRecord(1, e.typ)), Optional(e.number != 0, VarintRecord(2, Unsigned(e.number))));
  }

  lemma AnyLength(o: AnyValue)
    ensures |WriteAll(AnyRecords(o))| == AnySize(o)
  {
    TwoPartsLength(Optional(o.typeUrl != [], ChunkRecord(1, o.typeUrl)), Optional(o.content != [], ChunkRecord(2, o.content)));
  }

  lemma {:induction false} ValuesLength(values: seq<Value>)
    ensures |WriteAll(ValuesRecords(values))| == ValuesSize(values)
    decreases values
  {
    if values != [] {
      ValueLength(values[0]);
      RecordLength(ChunkRecord(1, EncodeValue(values[0])));
      ValuesLength(values[1..]);
    }
  }

  lemma {:induction false} EntriesLength(entries: seq<Entry>)
    ensures |WriteAll(EntriesRecords(entries))| == EntriesSize(entries)
    decreases entries
  {
    if entries != [] {
      EntryLength(entries[0]);
      RecordLength(ChunkRecord(1, EncodeEntry(entries[0])));
      EntriesLength(entries[1..]);
    }
  }

  lemma {:induction false} EntryLength(e: Entry)
    ensures |EncodeEntry(e)| == EntrySize(e)
    decreases e
  {
    TwoPartsLength(FieldRecords(1, e.key), FieldRecords(2, e.value));
    if e.key.Some? {
      ValueLength(e.key.value);
    }
    if e.value.Some? {
      ValueLength(e.value.value);
    }
  }

  // ---- merging

  /** The oneof is replaced unless both sides hold the same message. */
  function MergeValue(to: Value, from: Value): Value {
    match from
    case KindNotSet => to
    case EnumKind(e) => if to.EnumKind? then EnumKind(MergeEnum(to.e, e)) else from
    case ObjectKind(o) => if to.ObjectKind? then ObjectKind(MergeAny(to.o, o)) else from
    case MapKind(entries) => if to.MapKind? then MapKind(to.entries + entries) else from
    case ListKind(values) => if to.ListKind? then ListKind(to.values + values) else from
    case _ => from
  }

  function MergeEnum(to: EnumValue, from: EnumValue): EnumValue {
    EnumValue(if from.typ != [] then from.typ else to.typ, if from.number != 0 then from.number else to.number)
  }

  function MergeAny(to: AnyValue, from: AnyValue): AnyValue {
    AnyValue(if from.typeUrl != [] then from.typeUrl else to.typeUrl, if from.content != [] then from.content else to.content)
  }

  function MergeEntry(to: Entry, from: Entry): Entry {
    Entry(MergeField(to.key, from.key), MergeField(to.value, from.value))
  }

  function MergeField(to: Option<Value>, from: Option<Value>): Option<Value> {
    if from.None? then to else if to.None? then from else Some(MergeValue(to.value, from.value))
  }

  lemma MergeIsNotAssociative()
    ensures var a, b, c := ListKind([KindNotSet]), IntKind(1), ListKind([]);
            MergeValue(MergeValue(a, b), c) != MergeValue(a, MergeValue(b, c))
  {
  }

  /** A value of another kind stands between two messages of the same kind,
      and the first sets a field that the last leaves unset, or adds elements. */
  predicate Hides(a: Value, b: Value, c: Value) {
    && !b.KindNotSet?
    && ((c.EnumKind? && a.EnumKind? && !b.EnumKind?
         && ((c.e.typ == [] && a.e.typ != []) || (c.e.number == 0 && a.e.number != 0)))
        || (c.ObjectKind? && a.ObjectKind? && !b.ObjectKind?
            && ((c.o.typeUrl == [] && a.o.typeUrl != []) || (c.o.content == [] && a.o.content != [])))
        || (c.MapKind? && a.MapKind? && !b.MapKind? && a.entries != [])
        || (c.ListKind? && a.ListKind? && !b.ListKind? && a.values != []))
  }

  /** Merging three values gives the same result in both orders unless the
      middle one hides the first. */
  lemma MergeAssociates(a: Value, b: Value, c: Value)
    ensures MergeValue(MergeValue(a, b), c) == MergeValue(a, MergeValue(b, c)) <==> !Hides(a, b, c)
  {
    if a.MapKind? && c.MapKind? {
      if b.MapKind? {
        assert a.entries + b.entries + c.entries == a.entries + (b.entries + c.entries);
      } else {
        assert a.entries != [] ==> |a.entries + c.entries| != |c.entries|;
        assert a.entries == [] ==> a.entries + c.entries == c.entries;
      }
    }
    if a.ListKind? && c.ListKind? {
      if b.ListKind? {
        assert a.values + b.values + c.values == a.values + (b.values + c.values);
      } else {
        assert a.values != [] ==> |a.values + c.values| != |c.values|;
        assert a.values == [] ==> a.values + c.values == c.values;
      }
    }
  }
}
