/** Decoding undoes encoding, and decoding a concatenation merges. */
module RoundTrip {
  import opened Memory
  import opened Wire
  import opened Messages
  import opened Decoding

  // ---- concatenation

  lemma {:induction false} ApplyAllConcat(acc: Message, a: seq<Record>, b: seq<Record>)
    ensures ApplyAll(acc, a + b) == if ApplyAll(acc, a).Some? then ApplyAll(ApplyAll(acc, a).value, b) else None
    decreases |a|
  {
    if a == [] {
      assert a + b == b;
    } else {
      assert (a + b)[1..] == a[1..] + b;
      if Apply(acc, a[0]).Some? {
        ApplyAllConcat(Apply(acc, a[0]).value, a[1..], b);
      }
    }
  }

  lemma ParseApplies(b: Bytes, acc: Message)
    ensures Parse(b, acc) == if ReadAll(b).Some? then ApplyAll(acc, ReadAll(b).value) else None
  {
  }

  /** Parsing a concatenation parses the second part into the result of the
      first, for all bytes. */
  lemma ParseConcat(a: Bytes, b: Bytes, acc: Message)
    requires Parse(a, acc).Some?
    ensures Parse(a + b, acc) == Parse(b, Parse(a, acc).value)
  {
    ParseApplies(a, acc);
    ReadAllConcat(a, b);
    ParseApplies(a + b, acc);
    ParseApplies(b, Parse(a, acc).value);
    if ReadAll(b).Some? {
      ApplyAllConcat(acc, ReadAll(a).value, ReadAll(b).value);
    }
  }

  // ---- what can be encoded

  predicate TextsValid(v: Value) {
    match v
    case StringKind(s) => ValidUtf8(s)
    case TypeKind(t) => ValidUtf8(t)
    case EnumKind(e) => ValidUtf8(e.typ)
    case ObjectKind(o) => ValidUtf8(o.typeUrl)
    case MapKind(entries) => forall e :: e in entries ==> EntryTextsValid(e)
    case ListKind(values) => forall x :: x in values ==> TextsValid(x)
    case _ => true
  }

  predicate EntryTextsValid(e: Entry) {
    (e.key.Some? ==> TextsValid(e.key.value)) && (e.value.Some? ==> TextsValid(e.value.value))
  }

  /** Strings are UTF-8 and the encoding is shorter than 2 GiB. */
  predicate Encodable(v: Value) {
    TextsValid(v) && |EncodeValue(v)| < TWO_31
  }

  // ---- encoding and parsing back merges

  lemma {:induction false} WeightsFit(records: seq<Record>)
    ensures forall r :: r in records && r.ChunkRecord? ==> |r.bytes| < |WriteAll(records)|
  {
    if records != [] {
      WeightsFit(records[1..]);
    }
  }

  lemma ParseWritten(records: seq<Record>, acc: Message)
    requires AllWritable(records)
    ensures Parse(WriteAll(records), acc) == ApplyAll(acc, records)
  {
    WrittenReads(records);
    ParseApplies(WriteAll(records), acc);
  }

  /** Short encodings have short chunks. */
  lemma ShortIsWritable(records: seq<Record>)
    requires forall r :: r in records ==> 1 <= r.field < 16 && !r.Fixed32Record?
    requires |WriteAll(records)| < TWO_31
    ensures AllWritable(records)
  {
    WeightsFit(records);
  }

  lemma {:induction false} ValuesWritable(values: seq<Value>)
    requires |WriteAll(ValuesRecords(values))| < TWO_31
    ensures AllWritable(ValuesRecords(values))
  {
    if values != [] {
      ValuesWritable(values[1..]);
    }
  }

  lemma {:induction false} EntriesWritable(entries: seq<Entry>)
    requires |WriteAll(EntriesRecords(entries))| < TWO_31
    ensures AllWritable(EntriesRecords(entries))
  {
    if entries != [] {
      EntriesWritable(entries[1..]);
    }
  }

  lemma ApplyOne(acc: Message, r: Record)
    ensures ApplyAll(acc, [r]) == Apply(acc, r)
  {
  }

  /** At most one record from each part, as in a message of two fields. */
  lemma ApplyTwo(acc: Message, a: seq<Record>, b: seq<Record>, mid: Message, end: Message)
    requires |a| <= 1 && |b| <= 1
    requires if a == [] then mid == acc else Apply(acc, a[0]) == Some(mid)
    requires if b == [] then end == mid else Apply(mid, b[0]) == Some(end)
    ensures ApplyAll(acc, a + b) == Some(end)
  {
    ApplyAllConcat(acc, a, b);
    if a != [] { ApplyOne(acc, a[0]); assert a == [a[0]]; }
    if b != [] { ApplyOne(mid, b[0]); assert b == [b[0]]; }
  }

  lemma {:induction false} ValueParses(v: Value, acc: Value)
    requires Encodable(v)
    ensures Parse(EncodeValue(v), ValueMessage(acc)) == Some(ValueMessage(MergeValue(acc, v)))
    decreases v, 1
  {
    ShortIsWritable(ValueRecords(v));
    ParseWritten(ValueRecords(v), ValueMessage(acc));
    if !v.KindNotSet? {
      WeightsFit(ValueRecords(v));
      ApplyOne(ValueMessage(acc), ValueRecords(v)[0]);
      if v.EnumKind? || v.ObjectKind? || v.MapKind? || v.ListKind? {
        MessageApplies(v, acc);
      } else {
        ScalarApplies(v, acc);
      }
    }
  }

  lemma ScalarApplies(v: Value, acc: Value)
    requires TextsValid(v)
    requires !v.KindNotSet? && !v.EnumKind? && !v.ObjectKind? && !v.MapKind? && !v.ListKind?
    ensures ApplyValue(acc, ValueRecords(v)[0]) == Some(ValueMessage(MergeValue(acc, v)))
  {
    if v.NullKind? { SignedRoundTrip(v.n); }
    if v.IntKind? { SignedRoundTrip(v.i); }
  }

  lemma {:induction false} MessageApplies(v: Value, acc: Value)
    requires TextsValid(v) && (v.EnumKind? || v.ObjectKind? || v.MapKind? || v.ListKind?)
    requires |ValueRecords(v)[0].bytes| < TWO_31
    ensures ApplyValue(acc, ValueRecords(v)[0]) == Some(ValueMessage(MergeValue(acc, v)))
    decreases v, 0
  {
    match v {
      case EnumKind(e) =>
        var was := if acc.EnumKind? then acc.e else EnumValue([], 0);
        EnumParses(e, was);
        ChunkApplies(acc, 9, WriteAll(EnumRecords(e)), EnumMessage(was), EnumMessage(MergeEnum(was, e)));
      case ObjectKind(o) =>
        var was := if acc.ObjectKind? then acc.o else AnyValue([], []);
        AnyParses(o, was);
        ChunkApplies(acc, 10, WriteAll(AnyRecords(o)), AnyMessage(was), AnyMessage(MergeAny(was, o)));
      case MapKind(entries) =>
        var was := if acc.MapKind? then acc.entries else [];
        EntriesParse(entries, was);
        assert [] + entries == entries;
        ChunkApplies(acc, 11, WriteAll(EntriesRecords(entries)), MapMessage(was), MapMessage(was + entries));
      case ListKind(values) =>
        var was := if acc.ListKind? then acc.values else [];
        ValuesParse(values, was);
        assert [] + values == values;
        ChunkApplies(acc, 12, WriteAll(ValuesRecords(values)), ListMessage(was), ListMessage(was + values));
    }
  }

  /** The submessage a field of the oneof is parsed into. */
  function Submessage(acc: Value, field: nat): Message {
    if field == 9 then EnumMessage(if acc.EnumKind? then acc.e else EnumValue([], 0))
    else if field == 10 then AnyMessage(if acc.ObjectKind? then acc.o else AnyValue([], []))
    else if field == 11 then MapMessage(if acc.MapKind? then acc.entries else [])
    else ListMessage(if acc.ListKind? then acc.values else [])
  }

  lemma ChunkApplies(acc: Value, field: nat, bytes: Bytes, was: Message, now: Message)
    requires 9 <= field <= 12 && was == Submessage(acc, field) && Parse(bytes, was) == Some(now)
    ensures ApplyValue(acc, ChunkRecord(field, bytes)) ==
            match now {
              case EnumMessage(e) => if field == 9 then Some(ValueMessage(EnumKind(e))) else None
              case AnyMessage(o) => if field == 10 then Some(ValueMessage(ObjectKind(o))) else None
              case MapMessage(entries) => if field == 11 then Some(ValueMessage(MapKind(entries))) else None
              case ListMessage(values) => if field == 12 then Some(ValueMessage(ListKind(values))) else None
              case _ => None
            }
  {
  }

  lemma EnumParses(e: EnumValue, acc: EnumValue)
    requires ValidUtf8(e.typ) && |WriteAll(EnumRecords(e))| < TWO_31
    ensures Parse(WriteAll(EnumRecords(e)), EnumMessage(acc)) == Some(EnumMessage(MergeEnum(acc, e)))
  {
    ShortIsWritable(EnumRecords(e));
    ParseWritten(EnumRecords(e), EnumMessage(acc));
    SignedRoundTrip(e.number);
    var mid := if e.typ != [] then acc.(typ := e.typ) else acc;
    ApplyTwo(EnumMessage(acc), Optional(e.typ != [], ChunkRecord(1, e.typ)),
             Optional(e.number != 0, VarintRecord(2, Unsigned(e.number))), EnumMessage(mid), EnumMessage(MergeEnum(acc, e)));
  }

  lemma AnyParses(o: AnyValue, acc: AnyValue)
    requires ValidUtf8(o.typeUrl) && |WriteAll(AnyRecords(o))| < TWO_31
    ensures Parse(WriteAll(AnyRecords(o)), AnyMessage(acc)) == Some(AnyMessage(MergeAny(acc, o)))
  {
    ShortIsWritable(AnyRecords(o));
    ParseWritten(AnyRecords(o), AnyMessage(acc));
    var mid := if o.typeUrl != [] then acc.(typeUrl := o.typeUrl) else acc;
    ApplyTwo(AnyMessage(acc), Optional(o.typeUrl != [], ChunkRecord(1, o.typeUrl)),
             Optional(o.content != [], ChunkRecord(2, o.content)), AnyMessage(mid), AnyMessage(MergeAny(acc, o)));
  }

  lemma {:induction false} ValuesParse(values: seq<Value>, acc: seq<Value>)
    requires (forall x :: x in values ==> TextsValid(x)) && |WriteAll(ValuesRecords(values))| < TWO_31
    ensures Parse(WriteAll(ValuesRecords(values)), ListMessage(acc)) == Some(ListMessage(acc + values))
    decreases values
  {
    ValuesWritable(values);
    ParseWritten(ValuesRecords(values), ListMessage(acc));
    ValuesApply(values, acc);
  }

  lemma WritableSplits(first: Record, rest: seq<Record>)
    requires AllWritable([first] + rest)
    ensures Writable(first) && AllWritable(rest)
  {
    assert forall r :: r == first || r in rest ==> r in [first] + rest;
  }

  lemma AppendShifts<T>(acc: seq<T>, more: seq<T>)
    requires more != []
    ensures acc + [more[0]] + more[1..] == acc + more
  {
  }

  lemma ApplyFirst(acc: Message, first: Record, rest: seq<Record>)
    requires Apply(acc, first).Some?
    ensures ApplyAll(acc, [first] + rest) == ApplyAll(Apply(acc, first).value, rest)
  {
    assert ([first] + rest)[1..] == rest;
  }

  lemma {:induction false} ValuesApply(values: seq<Value>, acc: seq<Value>)
    requires (forall x :: x in values ==> TextsValid(x)) && AllWritable(ValuesRecords(values))
    ensures ApplyAll(ListMessage(acc), ValuesRecords(values)) == Some(ListMessage(acc + values))
    decreases values, 0
  {
    if values == [] {
      assert acc + values == acc;
    } else {
      var first, rest := ChunkRecord(1, EncodeValue(values[0])), ValuesRecords(values[1..]);
      assert ValuesRecords(values) == [first] + rest;
      WritableSplits(first, rest);
      ElementApplies(values[0], acc);
      ApplyFirst(ListMessage(acc), first, rest);
      ValuesApply(values[1..], acc + [values[0]]);
      AppendShifts(acc, values);
    }
  }

  lemma {:induction false} ElementApplies(v: Value, acc: seq<Value>)
    requires Encodable(v)
    ensures Apply(ListMessage(acc), ChunkRecord(1, EncodeValue(v))) == Some(ListMessage(acc + [v]))
    decreases v, 2
  {
    ValueParses(v, KindNotSet);
    MergeIntoEmpty(v);
  }

  lemma {:induction false} EntriesParse(entries: seq<Entry>, acc: seq<Entry>)
    requires (forall e :: e in entries ==> EntryTextsValid(e)) && |WriteAll(EntriesRecords(entries))| < TWO_31
    ensures Parse(WriteAll(EntriesRecords(entries)), MapMessage(acc)) == Some(MapMessage(acc + entries))
    decreases entries
  {
    EntriesWritable(entries);
    ParseWritten(EntriesRecords(entries), MapMessage(acc));
    EntriesApply(entries, acc);
  }

  lemma {:induction false} EntriesApply(entries: seq<Entry>, acc: seq<Entry>)
    requires (forall e :: e in entries ==> EntryTextsValid(e)) && AllWritable(EntriesRecords(entries))
    ensures ApplyAll(MapMessage(acc), EntriesRecords(entries)) == Some(MapMessage(acc + entries))
    decreases entries, 0
  {
    if entries == [] {
      assert acc + entries == acc;
    } else {
      var first, rest := ChunkRecord(1, EncodeEntry(entries[0])), EntriesRecords(entries[1..]);
      assert EntriesRecords(entries) == [first] + rest;
      WritableSplits(first, rest);
      EntryApplies(entries[0], acc);
      ApplyFirst(MapMessage(acc), first, rest);
      EntriesApply(entries[1..], acc + [entries[0]]);
      AppendShifts(acc, entries);
    }
  }

  lemma {:induction false} EntryApplies(e: Entry, acc: seq<Entry>)
    requires EntryTextsValid(e) && |EncodeEntry(e)| < TWO_31
    ensures Apply(MapMessage(acc), ChunkRecord(1, EncodeEntry(e))) == Some(MapMessage(acc + [e]))
    decreases e, 2
  {
    EntryParses(e, Entry(None, None));
  }

  lemma {:induction false} EntryParses(e: Entry, acc: Entry)
    requires EntryTextsValid(e) && |EncodeEntry(e)| < TWO_31
    ensures Parse(EncodeEntry(e), EntryMessage(acc)) == Some(EntryMessage(MergeEntry(acc, e)))
    decreases e, 1
  {
    var keys, values := FieldRecords(1, e.key), FieldRecords(2, e.value);
    ShortIsWritable(keys + values);
    ParseWritten(keys + values, EntryMessage(acc));
    var mid := acc.(key := MergeField(acc.key, e.key));
    assert forall r :: r in keys || r in values ==> r in keys + values;
    if e.key.Some? {
      FieldApplies(e.key.value, acc, 1);
    }
    if e.value.Some? {
      FieldApplies(e.value.value, mid, 2);
    }
    ApplyTwo(EntryMessage(acc), keys, values, EntryMessage(mid), EntryMessage(MergeEntry(acc, e)));
  }

  lemma {:induction false} FieldApplies(v: Value, acc: Entry, field: nat)
    requires TextsValid(v) && Writable(ChunkRecord(field, EncodeValue(v))) && (field == 1 || field == 2)
    ensures Apply(EntryMessage(acc), ChunkRecord(field, EncodeValue(v))) ==
            Some(EntryMessage(if field == 1 then acc.(key := MergeField(acc.key, Some(v)))
                              else acc.(value := MergeField(acc.value, Some(v)))))
    decreases v, 2
  {
    var was := if field == 1 then acc.key else acc.value;
    ValueParses(v, if was.Some? then was.value else KindNotSet);
  }

  // ---- the laws

  lemma MergeIntoEmpty(v: Value)
    ensures MergeValue(KindNotSet, v) == v
  {
  }

  lemma ParsedDecodes(b: Bytes, v: Value)
    requires Parse(b, ValueMessage(KindNotSet)) == Some(ValueMessage(v))
    ensures DecodeValue(b) == Some(v)
  {
  }

  /** Decoding the encoding of a message gives the message back. */
  lemma DecodeUndoesEncode(v: Value)
    requires Encodable(v)
    ensures DecodeValue(EncodeValue(v)) == Some(v)
  {
    ValueParses(v, KindNotSet);
    MergeIntoEmpty(v);
    ParsedDecodes(EncodeValue(v), v);
  }

  /** Decoding two encodings one after the other merges the messages. */
  lemma DecodeConcatenationMerges(a: Value, b: Value)
    requires Encodable(a) && Encodable(b)
    ensures DecodeValue(EncodeValue(a) + EncodeValue(b)) == Some(MergeValue(a, b))
  {
    ValueParses(a, KindNotSet);
    ValueParses(b, a);
    ParseConcat(EncodeValue(a), EncodeValue(b), ValueMessage(KindNotSet));
    ParsedDecodes(EncodeValue(a) + EncodeValue(b), MergeValue(a, b));
  }

  /** No two messages share an encoding. */
  lemma EncodeIsInjective(a: Value, b: Value)
    requires Encodable(a) && Encodable(b) && EncodeValue(a) == EncodeValue(b)
    ensures a == b
  {
    DecodeUndoesEncode(a);
    DecodeUndoesEncode(b);
  }
}
