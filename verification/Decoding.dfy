/** A decoder for cel.expr.Value written from the Protocol Buffers encoding
    specification, and what it makes of the encoder's output. */
module Decoding {
  import opened Memory
  import opened Wire
  import opened Messages

  /** A message being parsed. */
  datatype Message =
    | ValueMessage(v: Value)
    | EnumMessage(e: EnumValue)
    | AnyMessage(o: AnyValue)
    | MapMessage(entries: seq<Entry>)
    | ListMessage(values: seq<Value>)
    | EntryMessage(entry: Entry)

  predicate Continuation(b: Byte) {
    0x80 <= b < 0xC0
  }

  /** Well-formed UTF-8: no overlong forms, no surrogates, at most U+10FFFF. */
  predicate ValidUtf8(s: Bytes) {
    if s == [] then true
    else if s[0] < 0x80 then ValidUtf8(s[1..])
    else if 0xC2 <= s[0] < 0xE0 then |s| >= 2 && Continuation(s[1]) && ValidUtf8(s[2..])
    else if 0xE0 <= s[0] < 0xF0 then
      && |s| >= 3 && Continuation(s[1]) && Continuation(s[2])
      && (s[0] == 0xE0 ==> s[1] >= 0xA0) && (s[0] == 0xED ==> s[1] < 0xA0)
      && ValidUtf8(s[3..])
    else if 0xF0 <= s[0] < 0xF5 then
      && |s| >= 4 && Continuation(s[1]) && Continuation(s[2]) && Continuation(s[3])
      && (s[0] == 0xF0 ==> s[1] >= 0x90) && (s[0] == 0xF4 ==> s[1] < 0x90)
      && ValidUtf8(s[4..])
    else false
  }

  /** Parses `b` into a message that already holds `acc`. */
  function Parse(b: Bytes, acc: Message): (r: Option<Message>)
    decreases |b|, 0, 0
  {
    if b == [] then Some(acc)
    else match ReadAll(b)
      case None => None
      case Some(records) => ApplyAll(acc, records)
  }

  function ApplyAll(acc: Message, records: seq<Record>): (r: Option<Message>)
    decreases TotalWeight(records), 3, |records|
  {
    if records == [] then Some(acc)
    else match Apply(acc, records[0])
      case None => None
      case Some(next) => ApplyAll(next, records[1..])
  }

  /** One record's effect on the message: a scalar replaces what was there, a
      submessage is parsed into it, an element is appended, and a record of an
      unknown field or with another field's wire type is passed over. */
  function Apply(acc: Message, r: Record): (next: Option<Message>)
    decreases Weight(r), 2, 0
  {
    match acc
    case ValueMessage(v) => ApplyValue(v, r)
    case EnumMessage(e) =>
      if r.ChunkRecord? && r.field == 1 then
        if ValidUtf8(r.bytes) then Some(EnumMessage(e.(typ := r.bytes))) else None
      else if r.VarintRecord? && r.field == 2 then Some(EnumMessage(e.(number := AsInt32(r.n))))
      else Some(acc)
    case AnyMessage(o) =>
      if r.ChunkRecord? && r.field == 1 then
        if ValidUtf8(r.bytes) then Some(AnyMessage(o.(typeUrl := r.bytes))) else None
      else if r.ChunkRecord? && r.field == 2 then Some(AnyMessage(o.(content := r.bytes)))
      else Some(acc)
    case MapMessage(entries) =>
      if r.ChunkRecord? && r.field == 1 then
        match Parse(r.bytes, EntryMessage(Entry(None, None)))
        case Some(EntryMessage(entry)) => Some(MapMessage(entries + [entry]))
        case _ => None
      else Some(acc)
    case ListMessage(values) =>
      if r.ChunkRecord? && r.field == 1 then
        match Parse(r.bytes, ValueMessage(KindNotSet))
        case Some(ValueMessage(v)) => Some(ListMessage(values + [v]))
        case _ => None
      else Some(acc)
    case EntryMessage(entry) =>
      if r.ChunkRecord? && (r.field == 1 || r.field == 2) then
        var was := if r.field == 1 then entry.key else entry.value;
        match Parse(r.bytes, ValueMessage(if was.Some? then was.value else KindNotSet))
        case Some(ValueMessage(v)) =>
          Some(EntryMessage(if r.field == 1 then entry.(key := Some(v)) else entry.(value := Some(v))))
        case _ => None
      else Some(acc)
  }

  function ApplyValue(v: Value, r: Record): (next: Option<Message>)
    decreases Weight(r), 1, 0
  {
    match r
    case VarintRecord(1, n) => Some(ValueMessage(NullKind(AsInt32(n))))
    case VarintRecord(2, n) => Some(ValueMessage(BoolKind(n != 0)))
    case VarintRecord(3, n) => Some(ValueMessage(IntKind(AsInt64(n))))
    case VarintRecord(4, n) => Some(ValueMessage(UintKind(n)))
    case Fixed64Record(5, n) => Some(ValueMessage(DoubleKind(n)))
    case ChunkRecord(6, s) => if ValidUtf8(s) then Some(ValueMessage(StringKind(s))) else None
    case ChunkRecord(7, bytes) => Some(ValueMessage(BytesKind(bytes)))
    case ChunkRecord(9, bytes) =>
      (match Parse(bytes, EnumMessage(if v.EnumKind? then v.e else EnumValue([], 0)))
       case Some(EnumMessage(e)) => Some(ValueMessage(EnumKind(e)))
       case _ => None)
    case ChunkRecord(10, bytes) =>
      (match Parse(bytes, AnyMessage(if v.ObjectKind? then v.o else AnyValue([], [])))
       case Some(AnyMessage(o)) => Some(ValueMessage(ObjectKind(o)))
       case _ => None)
    case ChunkRecord(11, bytes) =>
      (match Parse(bytes, MapMessage(if v.MapKind? then v.entries else []))
       case Some(MapMessage(entries)) => Some(ValueMessage(MapKind(entries)))
       case _ => None)
    case ChunkRecord(12, bytes) =>
      (match Parse(bytes, ListMessage(if v.ListKind? then v.values else []))
       case Some(ListMessage(values)) => Some(ValueMessage(ListKind(values)))
       case _ => None)
    case ChunkRecord(15, t) => if ValidUtf8(t) then Some(ValueMessage(TypeKind(t))) else None
    case _ => Some(ValueMessage(v))
  }

  /** What an encoder of another version may send: records of other fields and
      of other wire types are passed over, and any number but zero is true. */
  lemma OtherRecordsAreSkipped(v: Value, r: Record)
    ensures r.field !in {1, 2, 3, 4, 5, 6, 7, 9, 10, 11, 12, 15} || r.Fixed32Record? ==> ApplyValue(v, r) == Some(ValueMessage(v))
    ensures r.field in {6, 7, 9, 10, 11, 12, 15} && !r.ChunkRecord? ==> ApplyValue(v, r) == Some(ValueMessage(v))
    ensures r.field in {1, 2, 3, 4} && !r.VarintRecord? ==> ApplyValue(v, r) == Some(ValueMessage(v))
    ensures r.field == 2 && r.VarintRecord? ==> ApplyValue(v, r) == Some(ValueMessage(BoolKind(r.n > 0)))
  {
  }

  function DecodeValue(b: Bytes): Option<Value> {
    match Parse(b, ValueMessage(KindNotSet))
    case Some(ValueMessage(v)) => Some(v)
    case _ => None
  }
}
