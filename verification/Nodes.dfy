/** The messages of value.pb.cc as mutable objects: the oneof, has-bits, owned
    submessages and cached sizes that the generated methods update in place.

    `view` is the message an object stands for and `repr` the objects it owns. */
module Nodes {
  import opened Memory
  import opened Wire
  import opened Messages

  /** The stream that `target` points into. */
  class OutputStream {
    var written: Bytes

    constructor ()
      ensures written == []
    {
      written := [];
    }

    method WriteRecord(r: Record)
      modifies this
      ensures written == old(written) + Write(r)
    {
      written := written + Write(r);
    }

    /** The tag of a submessage and its length prefix, taken from a cached size. */
    method WritePrefix(field: nat, cachedSize: nat)
      modifies this
      ensures written == old(written) + (Varint(8 * field + 2) + Varint(cachedSize))
    {
      written := written + (Varint(8 * field + 2) + Varint(cachedSize));
    }
  }

  /** `delete`, by the objects that have been freed: none twice. */
  class Deleter {
    ghost var released: set<object>

    constructor ()
      ensures released == {}
    {
      released := {};
    }

    method Free(ghost o: object)
      requires o !in released
      modifies this
      ensures released == old(released) + {o}
    {
      released := released + {o};
    }
  }

  /** A size as the int it is cached in: the low 32 bits. */
  function ToCachedSize(n: nat): int {
    if n < TWO_31 then n else AsInt32(n % TWO_64)
  }

  // ---- sizes and records of growing lists

  /** A cached size is the size, up to whole turns of 32 bits. */
  lemma CachedSizeTruncates(n: nat)
    ensures exists turns: int :: ToCachedSize(n) == n + turns * TWO_32
    ensures -TWO_31 <= ToCachedSize(n) < TWO_31
  {
    if n < TWO_31 {
      assert ToCachedSize(n) == n + 0 * TWO_32;
    } else {
      LowWord(n % TWO_64);
      var turns: int :| AsInt32(n % TWO_64) == n % TWO_64 + turns * TWO_32;
      var words := n / TWO_64;
      assert n % TWO_64 == n - words * TWO_32 * TWO_32;
      assert ToCachedSize(n) == n + (turns - words * TWO_32) * TWO_32;
    }
  }

  lemma LowWord(u: Uint64)
    ensures exists turns: int :: AsInt32(u) == u + turns * TWO_32
  {
    var q := u / TWO_32;
    assert u % TWO_32 == u + (-q) * TWO_32;
    assert AsInt32(u) == u + (-q) * TWO_32 || AsInt32(u) == u + (-q - 1) * TWO_32;
  }

  lemma {:induction false} ValuesSizeAppend(values: seq<Value>, v: Value)
    ensures ValuesSize(values + [v]) == ValuesSize(values) + 1 + LengthDelimited(ValueSize(v))
  {
    if values == [] {
      assert values + [v] == [v];
    } else {
      assert (values + [v])[1..] == values[1..] + [v];
      ValuesSizeAppend(values[1..], v);
    }
  }

  lemma {:induction false} EntriesSizeAppend(entries: seq<Entry>, e: Entry)
    ensures EntriesSize(entries + [e]) == EntriesSize(entries) + 1 + LengthDelimited(EntrySize(e))
  {
    if entries == [] {
      assert entries + [e] == [e];
    } else {
      assert (entries + [e])[1..] == entries[1..] + [e];
      EntriesSizeAppend(entries[1..], e);
    }
  }

  lemma {:induction false} ValuesSizeCovers(values: seq<Value>, i: nat)
    requires i < |values|
    ensures ValueSize(values[i]) < ValuesSize(values)
  {
    if i > 0 {
      ValuesSizeCovers(values[1..], i - 1);
    }
  }

  lemma {:induction false} EntriesSizeCovers(entries: seq<Entry>, i: nat)
    requires i < |entries|
    ensures EntrySize(entries[i]) < EntriesSize(entries)
  {
    if i > 0 {
      EntriesSizeCovers(entries[1..], i - 1);
    }
  }

  lemma {:induction false} ValuesRecordsAppend(values: seq<Value>, v: Value)
    ensures ValuesRecords(values + [v]) == ValuesRecords(values) + [ChunkRecord(1, EncodeValue(v))]
  {
    if values == [] {
      assert values + [v] == [v];
      assert [v][1..] == [];
    } else {
      assert (values + [v])[1..] == values[1..] + [v] && (values + [v])[0] == values[0];
      ValuesRecordsAppend(values[1..], v);
    }
  }

  lemma ValuesBytesAppend(values: seq<Value>, v: Value)
    ensures WriteAll(ValuesRecords(values + [v])) == WriteAll(ValuesRecords(values)) + Write(ChunkRecord(1, EncodeValue(v)))
  {
    ValuesRecordsAppend(values, v);
    WriteAllConcat(ValuesRecords(values), [ChunkRecord(1, EncodeValue(v))]);
    OneRecord(ChunkRecord(1, EncodeValue(v)));
  }

  lemma {:induction false} EntriesRecordsAppend(entries: seq<Entry>, e: Entry)
    ensures EntriesRecords(entries + [e]) == EntriesRecords(entries) + [ChunkRecord(1, EncodeEntry(e))]
  {
    if entries == [] {
      assert entries + [e] == [e];
      assert [e][1..] == [];
    } else {
      assert (entries + [e])[1..] == entries[1..] + [e] && (entries + [e])[0] == entries[0];
      EntriesRecordsAppend(entries[1..], e);
    }
  }

  lemma EntriesBytesAppend(entries: seq<Entry>, e: Entry)
    ensures WriteAll(EntriesRecords(entries + [e])) == WriteAll(EntriesRecords(entries)) + Write(ChunkRecord(1, EncodeEntry(e)))
  {
    EntriesRecordsAppend(entries, e);
    WriteAllConcat(EntriesRecords(entries), [ChunkRecord(1, EncodeEntry(e))]);
    OneRecord(ChunkRecord(1, EncodeEntry(e)));
  }

  lemma ValuesBytesNext(before: Bytes, values: seq<Value>, next: Value, longer: seq<Value>)
    requires longer == values + [next]
    ensures before + WriteAll(ValuesRecords(values)) + Write(ChunkRecord(1, EncodeValue(next))) == before + WriteAll(ValuesRecords(longer))
  {
    ValuesBytesAppend(values, next);
    ConcatAssociates(before, WriteAll(ValuesRecords(values)), Write(ChunkRecord(1, EncodeValue(next))), WriteAll(ValuesRecords(longer)));
  }

  lemma ValuesBytesAt(before: Bytes, values: seq<Value>, i: nat)
    requires i < |values|
    ensures before + WriteAll(ValuesRecords(values[..i])) + Write(ChunkRecord(1, EncodeValue(values[i])))
            == before + WriteAll(ValuesRecords(values[..i + 1]))
  {
    ValuesBytesNext(before, values[..i], values[i], values[..i + 1]);
  }

  lemma EntriesBytesNext(before: Bytes, entries: seq<Entry>, next: Entry, longer: seq<Entry>)
    requires longer == entries + [next]
    ensures before + WriteAll(EntriesRecords(entries)) + Write(ChunkRecord(1, EncodeEntry(next))) == before + WriteAll(EntriesRecords(longer))
  {
    EntriesBytesAppend(entries, next);
    ConcatAssociates(before, WriteAll(EntriesRecords(entries)), Write(ChunkRecord(1, EncodeEntry(next))), WriteAll(EntriesRecords(longer)));
  }

  lemma EntriesBytesAt(before: Bytes, entries: seq<Entry>, i: nat)
    requires i < |entries|
    ensures before + WriteAll(EntriesRecords(entries[..i])) + Write(ChunkRecord(1, EncodeEntry(entries[i])))
            == before + WriteAll(EntriesRecords(entries[..i + 1]))
  {
    EntriesBytesNext(before, entries[..i], entries[i], entries[..i + 1]);
  }

  lemma ConcatAssociates(a: Bytes, b: Bytes, c: Bytes, bc: Bytes)
    requires bc == b + c
    ensures a + b + c == a + bc
  {
  }

  lemma TwoRecords(before: Bytes, p: bool, a: Record, q: bool, b: Record)
    ensures before + (if p then Write(a) else []) + (if q then Write(b) else [])
            == before + WriteAll(Optional(p, a) + Optional(q, b))
  {
    WriteAllConcat(Optional(p, a), Optional(q, b));
    OneRecord(a);
    OneRecord(b);
    ConcatAssociates(before, if p then Write(a) else [], if q then Write(b) else [], WriteAll(Optional(p, a) + Optional(q, b)));
  }

  lemma OneRecord(r: Record)
    ensures WriteAll([r]) == Write(r)
  {
    assert WriteAll([r]) == Write(r) + WriteAll([r][1..]);
  }

  /** The bytes of a field that may be absent. */
  function FieldBytes(field: nat, v: Option<Value>): Bytes {
    if v.Some? then Write(ChunkRecord(field, EncodeValue(v.value))) else []
  }

  lemma FieldWritten(field: nat, v: Option<Value>)
    ensures WriteAll(FieldRecords(field, v)) == FieldBytes(field, v)
  {
    if v.Some? {
      OneRecord(ChunkRecord(field, EncodeValue(v.value)));
    }
  }

  lemma EntryBytes(before: Bytes, e: Entry)
    ensures before + FieldBytes(1, e.key) + FieldBytes(2, e.value) == before + EncodeEntry(e)
  {
    WriteAllConcat(FieldRecords(1, e.key), FieldRecords(2, e.value));
    FieldWritten(1, e.key);
    FieldWritten(2, e.value);
    assert EncodeEntry(e) == WriteAll(EntryRecords(e)) == WriteAll(FieldRecords(1, e.key) + FieldRecords(2, e.value));
    ConcatAssociates(before, FieldBytes(1, e.key), FieldBytes(2, e.value), EncodeEntry(e));
  }

  /** A prefix with the right length frames the payload that follows it. */
  lemma PrefixFrames(before: Bytes, field: nat, payload: Bytes)
    ensures before + (Varint(8 * field + 2) + Varint(|payload|)) + payload == before + Write(ChunkRecord(field, payload))
  {
    var tag := Varint(8 * field + 2);
    assert Write(ChunkRecord(field, payload)) == tag + (Varint(|payload|) + payload);
    assert before + (tag + Varint(|payload|)) + payload == before + (tag + (Varint(|payload|) + payload));
  }

  class EnumNode {
    var hasType: bool
    var hasValue: bool
    var typ: Bytes
    var value: Int32
    var cachedSize: int

    /** A field whose has-bit is clear has its default value. */
    ghost predicate Valid()
      reads this
    {
      (!hasType ==> typ == []) && (!hasValue ==> value == 0)
    }

    ghost function View(): EnumValue
      reads this
    {
      EnumValue(typ, value)
    }

    constructor ()
      ensures Valid() && View() == EnumValue([], 0)
    {
      hasType, hasValue, typ, value, cachedSize := false, false, [], 0, 0;
    }

    static method CopyConstruct(from: EnumNode) returns (copy: EnumNode)
      requires from.Valid()
      ensures fresh(copy) && copy.Valid() && copy.View() == from.View()
    {
      copy := new EnumNode();
      copy.hasType, copy.hasValue, copy.typ, copy.value := from.hasType, from.hasValue, from.typ, from.value;
    }

    method ByteSizeLong() returns (total: nat)
      requires Valid()
      modifies this`cachedSize
      ensures Valid() && total == EnumSize(View()) && cachedSize == ToCachedSize(total)
    {
      total := 0;
      if hasType {
        if typ != [] {
          total := total + 1 + LengthDelimited(|typ|);
        }
      }
      if hasValue {
        if value != 0 {
          total := total + VarintSize(Unsigned(value)) + 1;
        }
      }
      cachedSize := ToCachedSize(total);
    }

    method InternalSerialize(stream: OutputStream)
      requires Valid()
      modifies stream
      ensures stream.written == old(stream.written) + WriteAll(EnumRecords(View()))
    {
      TwoRecords(stream.written, typ != [], ChunkRecord(1, typ), value != 0, VarintRecord(2, Unsigned(value)));
      if hasType {
        if typ != [] {
          stream.WriteRecord(ChunkRecord(1, typ));
        }
      }
      if hasValue {
        if value != 0 {
          stream.WriteRecord(VarintRecord(2, Unsigned(value)));
        }
      }
    }

    /** InternalWriteMessage: the cached size frames the content. */
    method WriteAsField(field: nat, stream: OutputStream)
      requires Valid() && cachedSize == ToCachedSize(EnumSize(View())) && EnumSize(View()) < TWO_31
      modifies stream
      ensures stream.written == old(stream.written) + Write(ChunkRecord(field, WriteAll(EnumRecords(View()))))
    {
      ghost var before := stream.written;
      EnumLength(View());
      stream.WritePrefix(field, cachedSize);
      InternalSerialize(stream);
      PrefixFrames(before, field, WriteAll(EnumRecords(View())));
    }

    method Clear()
      requires Valid()
      modifies this
      ensures Valid() && View() == EnumValue([], 0) && !hasType && !hasValue
    {
      if hasType {
        typ := [];
      }
      value := 0;
      hasType, hasValue := false, false;
    }

    method MergeFrom(from: EnumNode)
      requires Valid() && from.Valid() && from != this
      modifies this
      ensures Valid() && View() == MergeEnum(old(View()), from.View())
    {
      if from.hasType {
        if from.typ != [] {
          typ := from.typ;
        }
      }
      if from.hasValue {
        if from.value != 0 {
          value := from.value;
        }
      }
      hasType, hasValue := hasType || from.hasType, hasValue || from.hasValue;
    }

    method CopyFrom(from: EnumNode)
      requires Valid() && from.Valid()
      modifies this
      ensures Valid() && View() == old(from.View())
      ensures from == this ==> unchanged(this)
    {
      if from == this {
        return;
      }
      Clear();
      MergeFrom(from);
    }
  }

  /** google.protobuf.Any, whose own generated code is not part of this model. */
  class AnyNode {
    var typeUrl: Bytes
    var content: Bytes
    var cachedSize: int

    constructor ()
      ensures View() == AnyValue([], [])
    {
      typeUrl, content, cachedSize := [], [], 0;
    }

    static method CopyConstruct(from: AnyNode) returns (copy: AnyNode)
      ensures fresh(copy) && copy.View() == from.View()
    {
      copy := new AnyNode();
      copy.typeUrl, copy.content := from.typeUrl, from.content;
    }

    ghost function View(): AnyValue
      reads this
    {
      AnyValue(typeUrl, content)
    }

    method ByteSizeLong() returns (total: nat)
      modifies this`cachedSize
      ensures total == AnySize(View()) && cachedSize == ToCachedSize(total)
    {
      total := (if typeUrl != [] then 1 + LengthDelimited(|typeUrl|) else 0)
               + (if content != [] then 1 + LengthDelimited(|content|) else 0);
      cachedSize := ToCachedSize(total);
    }

    method InternalSerialize(stream: OutputStream)
      modifies stream
      ensures stream.written == old(stream.written) + WriteAll(AnyRecords(View()))
    {
      TwoRecords(stream.written, typeUrl != [], ChunkRecord(1, typeUrl), content != [], ChunkRecord(2, content));
      if typeUrl != [] {
        stream.WriteRecord(ChunkRecord(1, typeUrl));
      }
      if content != [] {
        stream.WriteRecord(ChunkRecord(2, content));
      }
    }

    /** InternalWriteMessage: the cached size frames the content. */
    method WriteAsField(field: nat, stream: OutputStream)
      requires cachedSize == ToCachedSize(AnySize(View())) && AnySize(View()) < TWO_31
      modifies stream
      ensures stream.written == old(stream.written) + Write(ChunkRecord(field, WriteAll(AnyRecords(View()))))
    {
      ghost var before := stream.written;
      AnyLength(View());
      stream.WritePrefix(field, cachedSize);
      InternalSerialize(stream);
      PrefixFrames(before, field, WriteAll(AnyRecords(View())));
    }

    method MergeFrom(from: AnyNode)
      requires from != this
      modifies this
      ensures View() == MergeAny(old(View()), from.View())
    {
      if from.typeUrl != [] { typeUrl := from.typeUrl; }
      if from.content != [] { content := from.content; }
    }
  }

  datatype Kind =
    | NoKind
    | NullSlot(n: Int32)
    | BoolSlot(b: bool)
    | IntSlot(i: Int64)
    | UintSlot(u: Uint64)
    | DoubleSlot(bits: Uint64)
    | StringSlot(s: Bytes)
    | BytesSlot(bytes: Bytes)
    | EnumSlot(enumNode: EnumNode)
    | ObjectSlot(anyNode: AnyNode)
    | MapSlot(mapNode: MapNode)
    | ListSlot(listNode: ListNode)
    | TypeSlot(t: Bytes)

  /** _oneof_case_: the field number of what the oneof holds. */
  function OneofCase(kind: Kind): nat {
    match kind
    case NoKind => 0
    case NullSlot(_) => 1
    case BoolSlot(_) => 2
    case IntSlot(_) => 3
    case UintSlot(_) => 4
    case DoubleSlot(_) => 5
    case StringSlot(_) => 6
    case BytesSlot(_) => 7
    case EnumSlot(_) => 9
    case ObjectSlot(_) => 10
    case MapSlot(_) => 11
    case ListSlot(_) => 12
    case TypeSlot(_) => 15
  }

  /** The oneof case and the union it selects from. */
  class ValueNode {
    var kind: Kind
    var cachedSize: int
    ghost var repr: set<object>
    ghost var view: Value

    ghost predicate Valid()
      reads this, repr
      decreases repr, 1
    {
      && this in repr
      && match kind {
        case NoKind => view == KindNotSet
        case NullSlot(n) => view == NullKind(n)
        case BoolSlot(b) => view == BoolKind(b)
        case IntSlot(i) => view == IntKind(i)
        case UintSlot(u) => view == UintKind(u)
        case DoubleSlot(bits) => view == DoubleKind(bits)
        case StringSlot(s) => view == StringKind(s)
        case BytesSlot(bytes) => view == BytesKind(bytes)
        case EnumSlot(node) => node in repr && node.Valid() && view == EnumKind(node.View())
        case ObjectSlot(node) => node in repr && view == ObjectKind(node.View())
        case MapSlot(node) => node in repr && node.repr <= repr && this !in node.repr && node.Valid() && view == MapKind(node.view)
        case ListSlot(node) => node in repr && node.repr <= repr && this !in node.repr && node.Valid() && view == ListKind(node.view)
        case TypeSlot(t) => view == TypeKind(t)
      }
    }

    /** Every size cached below is the size of what it was cached for. */
    ghost predicate Sized()
      requires Valid()
      reads this, repr
      decreases repr, 1, 1
    {
      cachedSize == ToCachedSize(ValueSize(view)) && MessageSized()
    }

    ghost predicate MessageSized()
      requires Valid()
      reads this, repr
      decreases repr, 1, 0
    {
      match kind
      case EnumSlot(node) => node.cachedSize == ToCachedSize(EnumSize(node.View()))
      case ObjectSlot(node) => node.cachedSize == ToCachedSize(AnySize(node.View()))
      case MapSlot(node) => node.Sized()
      case ListSlot(node) => node.Sized()
      case _ => true
    }

    constructor ()
      ensures Valid() && view == KindNotSet && fresh(repr)
    {
      kind, cachedSize := NoKind, 0;
      view, repr := KindNotSet, {this};
    }

    method ByteSizeLong() returns (total: nat)
      requires Valid()
      modifies repr
      ensures Valid() && view == old(view) && repr == old(repr)
      ensures total == ValueSize(view) && Sized()
      decreases repr, 1, 2
    {
      total := SizeOfKind();
      cachedSize := ToCachedSize(total);
    }

    method SizeOfKind() returns (total: nat)
      requires Valid()
      modifies repr - {this}
      ensures Valid() && unchanged(this) && total == ValueSize(view) && MessageSized()
      decreases repr, 1, 1
    {
      total := 0;
      match kind {
        case NoKind =>
        case NullSlot(n) => total := total + 1 + VarintSize(Unsigned(n));
        case BoolSlot(_) => total := total + 2;
        case IntSlot(i) => total := total + VarintSize(Unsigned(i)) + 1;
        case UintSlot(u) => total := total + VarintSize(u) + 1;
        case DoubleSlot(_) => total := total + 9;
        case StringSlot(s) => total := total + 1 + LengthDelimited(|s|);
        case BytesSlot(bytes) => total := total + 1 + LengthDelimited(|bytes|);
        case TypeSlot(t) => total := total + 1 + LengthDelimited(|t|);
        case EnumSlot(_) | ObjectSlot(_) | MapSlot(_) | ListSlot(_) =>
          var size := SizeOfMessage();
          total := total + 1 + LengthDelimited(size);
      }
    }

    /** The size of the message the oneof holds, cached in that message. */
    method SizeOfMessage() returns (size: nat)
      requires Valid() && (kind.EnumSlot? || kind.ObjectSlot? || kind.MapSlot? || kind.ListSlot?)
      modifies repr - {this}
      ensures Valid() && unchanged(this) && ValueSize(view) == 1 + LengthDelimited(size) && MessageSized()
      decreases repr, 1, 0
    {
      match kind {
        case EnumSlot(node) => size := node.ByteSizeLong();
        case ObjectSlot(node) => size := node.ByteSizeLong();
        case MapSlot(node) => size := node.ByteSizeLong();
        case ListSlot(node) => size := node.ByteSizeLong();
      }
    }

    /** Writes exactly the bytes ByteSizeLong has counted. */
    method InternalSerialize(stream: OutputStream)
      requires Valid() && Sized() && ValueSize(view) < TWO_31 && stream !in repr
      modifies stream
      ensures stream.written == old(stream.written) + EncodeValue(view)
      decreases repr, 1, 0
    {
      if !kind.NoKind? {
        OneRecord(ValueRecords(view)[0]);
      }
      match kind {
        case NoKind =>
        case NullSlot(n) => stream.WriteRecord(VarintRecord(1, Unsigned(n)));
        case BoolSlot(b) => stream.WriteRecord(VarintRecord(2, if b then 1 else 0));
        case IntSlot(i) => stream.WriteRecord(VarintRecord(3, Unsigned(i)));
        case UintSlot(u) => stream.WriteRecord(VarintRecord(4, u));
        case DoubleSlot(bits) => stream.WriteRecord(Fixed64Record(5, bits));
        case StringSlot(s) => stream.WriteRecord(ChunkRecord(6, s));
        case BytesSlot(bytes) => stream.WriteRecord(ChunkRecord(7, bytes));
        case EnumSlot(node) => node.WriteAsField(9, stream);
        case ObjectSlot(node) => node.WriteAsField(10, stream);
        case MapSlot(node) => node.WriteAsField(11, stream);
        case ListSlot(node) => node.WriteAsField(12, stream);
        case TypeSlot(t) => stream.WriteRecord(ChunkRecord(15, t));
      }
    }

    /** InternalWriteMessage: the cached size frames the content. */
    method WriteAsField(field: nat, stream: OutputStream)
      requires Valid() && Sized() && ValueSize(view) < TWO_31 && stream !in repr
      modifies stream
      ensures stream.written == old(stream.written) + Write(ChunkRecord(field, EncodeValue(view)))
      decreases repr, 1, 1
    {
      ghost var before := stream.written;
      ValueLength(view);
      stream.WritePrefix(field, cachedSize);
      InternalSerialize(stream);
      PrefixFrames(before, field, EncodeValue(view));
    }

    /** This node and what its oneof holds. */
    ghost function Objects(): (objects: set<object>)
      requires Valid()
      reads this, repr
      ensures this in objects && objects <= repr
      decreases repr, 1, 1
    {
      {this} + Content()
    }

    /** The objects of the message that the oneof holds. */
    ghost function Content(): (objects: set<object>)
      requires Valid()
      reads this, repr
      ensures objects <= repr - {this}
      decreases repr, 1, 0
    {
      match kind
      case EnumSlot(node) => {node}
      case ObjectSlot(node) => {node}
      case MapSlot(node) => node.Objects()
      case ListSlot(node) => node.Objects()
      case _ => {}
    }

    /** The destructor and the release of this node: what it owns is freed
        first, and every object once. */
    method Delete(memory: Deleter)
      requires Valid() && memory !in repr && repr !! memory.released
      modifies memory
      ensures memory.released == old(memory.released) + Objects()
      decreases repr, 1, 1
    {
      DeleteContent(memory);
      memory.Free(this);
    }

    /** The deletes of clear_kind. */
    method DeleteContent(memory: Deleter)
      requires Valid() && memory !in repr && repr !! memory.released
      modifies memory
      ensures memory.released == old(memory.released) + Content()
      decreases repr, 1, 0
    {
      match kind {
        case EnumSlot(node) => memory.Free(node);
        case ObjectSlot(node) => memory.Free(node);
        case MapSlot(node) => node.Delete(memory);
        case ListSlot(node) => node.Delete(memory);
        case _ =>
      }
    }

    /** clear_kind: what the oneof held is deleted. */
    method ClearKind(memory: Deleter)
      requires Valid() && memory !in repr && repr !! memory.released
      modifies this, memory
      ensures Valid() && kind.NoKind? && view == KindNotSet && repr == {this}
      ensures memory.released == old(memory.released) + old(Content())
    {
      DeleteContent(memory);
      kind := NoKind;
      view, repr := KindNotSet, {this};
    }

    method Clear(memory: Deleter)
      requires Valid() && memory !in repr && repr !! memory.released
      modifies this, memory
      ensures Valid() && kind.NoKind? && view == KindNotSet && repr == {this}
      ensures memory.released == old(memory.released) + old(Content())
    {
      ClearKind(memory);
    }

    /** The content of `from`, in objects of its own. */
    static method CopyConstruct(from: ValueNode) returns (copy: ValueNode)
      requires from.Valid()
      ensures copy.Valid() && fresh(copy.repr) && copy.view == from.view
      decreases from.repr, 1
    {
      copy := new ValueNode();
      match from.kind {
        case EnumSlot(node) =>
          var own := EnumNode.CopyConstruct(node);
          copy.kind := EnumSlot(own);
          copy.repr := {copy, own};
        case ObjectSlot(node) =>
          var own := AnyNode.CopyConstruct(node);
          copy.kind := ObjectSlot(own);
          copy.repr := {copy, own};
        case MapSlot(node) =>
          var own := MapNode.CopyConstruct(node);
          copy.kind := MapSlot(own);
          copy.repr := {copy} + own.repr;
        case ListSlot(node) =>
          var own := ListNode.CopyConstruct(node);
          copy.kind := ListSlot(own);
          copy.repr := {copy} + own.repr;
        case _ =>
          copy.kind := from.kind;
      }
      copy.view := from.view;
    }

    /** `from` is only read, and nothing of it is shared: what this message
        comes to own is its own or new. A oneof that changes its case has its
        old content deleted. */
    method MergeFrom(memory: Deleter, from: ValueNode)
      requires Valid() && from.Valid() && repr !! from.repr
      requires memory !in repr + from.repr && repr !! memory.released
      modifies repr, memory
      ensures Valid() && fresh(repr - old(repr)) && repr !! memory.released
      ensures view == MergeValue(old(view), from.view)
      ensures memory.released == old(memory.released) +
                (if from.kind.NoKind? || OneofCase(old(kind)) == OneofCase(from.kind) then {} else old(Content()))
      ensures old(Content()) <= Content() + memory.released
    {
      if from.kind.NoKind? {
        return;
      }
      if OneofCase(kind) != OneofCase(from.kind) && !kind.NoKind? {
        ClearKind(memory);
      }
      MergeSameCase(from);
    }

    /** The switch of MergeImpl, once the oneof is empty or of the same case. */
    method MergeSameCase(from: ValueNode)
      requires Valid() && from.Valid() && repr !! from.repr
      requires from.kind.NoKind? || kind.NoKind? || OneofCase(kind) == OneofCase(from.kind)
      modifies repr
      ensures Valid() && fresh(repr - old(repr))
      ensures old(Content()) <= Content()
      ensures view == MergeValue(old(view), from.view)
    {
      match from.kind {
        case NoKind =>
        case EnumSlot(node) => MergeEnumSlot(node);
        case ObjectSlot(node) => MergeObjectSlot(node);
        case MapSlot(node) => MergeMapSlot(node);
        case ListSlot(node) => MergeListSlot(node);
        case _ => kind, repr, view := from.kind, {this}, from.view;
      }
    }

    method MergeEnumSlot(from: EnumNode)
      requires Valid() && from.Valid() && from !in repr
      requires kind.NoKind? || kind.EnumSlot?
      modifies repr
      ensures Valid() && fresh(repr - old(repr))
      ensures old(Content()) <= Content()
      ensures view == MergeValue(old(view), EnumKind(from.View()))
    {
      if kind.EnumSlot? {
        kind.enumNode.MergeFrom(from);
        view := EnumKind(kind.enumNode.View());
      } else {
        var own := EnumNode.CopyConstruct(from);
        kind, repr, view := EnumSlot(own), {this, own}, EnumKind(own.View());
      }
    }

    method MergeObjectSlot(from: AnyNode)
      requires Valid() && from !in repr
      requires kind.NoKind? || kind.ObjectSlot?
      modifies repr
      ensures Valid() && fresh(repr - old(repr))
      ensures old(Content()) <= Content()
      ensures view == MergeValue(old(view), ObjectKind(from.View()))
    {
      if kind.ObjectSlot? {
        kind.anyNode.MergeFrom(from);
        view := ObjectKind(kind.anyNode.View());
      } else {
        var own := AnyNode.CopyConstruct(from);
        kind, repr, view := ObjectSlot(own), {this, own}, ObjectKind(own.View());
      }
    }

    method MergeMapSlot(from: MapNode)
      requires Valid() && from.Valid() && repr !! from.repr
      requires kind.NoKind? || kind.MapSlot?
      modifies repr
      ensures Valid() && fresh(repr - old(repr))
      ensures old(Content()) <= Content()
      ensures view == MergeValue(old(view), MapKind(from.view))
    {
      if kind.MapSlot? {
        kind.mapNode.MergeFrom(from);
        repr, view := repr + kind.mapNode.repr, MapKind(kind.mapNode.view);
      } else {
        var own := MapNode.CopyConstruct(from);
        kind, repr, view := MapSlot(own), {this} + own.repr, MapKind(own.view);
      }
    }

    method MergeListSlot(from: ListNode)
      requires Valid() && from.Valid() && repr !! from.repr
      requires kind.NoKind? || kind.ListSlot?
      modifies repr
      ensures Valid() && fresh(repr - old(repr))
      ensures old(Content()) <= Content()
      ensures view == MergeValue(old(view), ListKind(from.view))
    {
      if kind.ListSlot? {
        kind.listNode.MergeFrom(from);
        repr, view := repr + kind.listNode.repr, ListKind(kind.listNode.view);
      } else {
        var own := ListNode.CopyConstruct(from);
        kind, repr, view := ListSlot(own), {this} + own.repr, ListKind(own.view);
      }
    }

    /** A deep copy: the two messages share no object afterwards, and the old
        content is deleted once. */
    method CopyFrom(memory: Deleter, from: ValueNode)
      requires Valid() && from.Valid() && (from == this || repr !! from.repr)
      requires memory !in repr + from.repr && repr !! memory.released
      modifies repr, memory
      ensures Valid() && view == old(from.view)
      ensures from.Valid() && from.view == old(from.view)
      ensures if from == this then unchanged(old(repr)) else fresh(repr - {this}) && repr !! from.repr
      ensures repr !! memory.released
      ensures memory.released == old(memory.released) + (if from == this then {} else old(Content()))
    {
      if from == this {
        return;
      }
      Clear(memory);
      MergeFrom(memory, from);
    }
  }

  class ListNode {
    var hasValues: bool
    var values: seq<ValueNode>
    var cachedSize: int
    ghost var repr: set<object>
    ghost var view: seq<Value>

    /** The elements are owned, each with objects of its own. */
    ghost predicate Owns()
      reads this, repr
    {
      && this in repr
      && |view| == |values|
      && (!hasValues ==> values == [])
      && (forall i :: 0 <= i < |values| ==> values[i] in repr && values[i].repr <= repr && this !in values[i].repr)
      && (forall i, j :: 0 <= i < j < |values| ==> values[i].repr !! values[j].repr)
    }

    ghost predicate Valid()
      reads this, repr
      decreases repr, 0
    {
      && Owns()
      && (forall i :: 0 <= i < |values| ==> values[i].Valid() && view[i] == values[i].view)
    }

    ghost predicate Sized()
      requires Valid()
      reads this, repr
      decreases repr, 0
    {
      && cachedSize == ToCachedSize(ValuesSize(view))
      && (forall i :: 0 <= i < |values| ==> values[i].Sized())
    }

    constructor ()
      ensures Valid() && view == [] && fresh(repr)
    {
      hasValues, values, cachedSize := false, [], 0;
      view, repr := [], {this};
    }

    method ByteSizeLong() returns (total: nat)
      requires Valid()
      modifies repr
      ensures Valid() && view == old(view) && repr == old(repr)
      ensures total == ValuesSize(view) && Sized()
      decreases repr, 0, 2
    {
      total := 0;
      if hasValues {
        total := SizeOfValues();
      }
      cachedSize := ToCachedSize(total);
    }

    method SizeOfValues() returns (total: nat)
      requires Valid()
      modifies repr - {this}
      ensures Valid() && unchanged(this) && total == ValuesSize(view)
      ensures forall j :: 0 <= j < |values| ==> values[j].Sized()
      decreases repr, 0, 1
    {
      total := |values|;
      for i := 0 to |values|
        invariant unchanged(this) && Valid()
        invariant forall j :: 0 <= j < i ==> values[j].Sized()
        invariant total == |values| - i + ValuesSize(view[..i])
      {
        var size := SizeOfValue(i);
        total := total + LengthDelimited(size);
        ValuesSizeAppend(view[..i], view[i]);
        assert view[..i + 1] == view[..i] + [view[i]];
      }
      assert view[..|values|] == view;
    }

    method SizeOfValue(i: nat) returns (size: nat)
      requires Valid() && i < |values|
      modifies values[i].repr
      ensures unchanged(this) && Valid() && size == ValueSize(view[i]) && values[i].Sized()
      ensures forall j :: 0 <= j < |values| && j != i && old(values[j].Sized()) ==> values[j].Sized()
      decreases repr, 0, 0
    {
      size := values[i].ByteSizeLong();
      assert forall j :: 0 <= j < |values| && j != i ==> values[i].repr !! values[j].repr && values[j].Valid();
    }

    method InternalSerialize(stream: OutputStream)
      requires Valid() && Sized() && ValuesSize(view) < TWO_31 && stream !in repr
      modifies stream
      ensures stream.written == old(stream.written) + WriteAll(ValuesRecords(view))
      decreases repr, 0, 0
    {
      if hasValues {
        for i := 0 to |values|
          invariant stream.written == old(stream.written) + WriteAll(ValuesRecords(view[..i]))
        {
          ValuesSizeCovers(view, i);
          values[i].WriteAsField(1, stream);
          ValuesBytesAt(old(stream.written), view, i);
        }
        assert view[..|values|] == view;
      }
    }

    /** InternalWriteMessage: the cached size frames the content. */
    method WriteAsField(field: nat, stream: OutputStream)
      requires Valid() && Sized() && ValuesSize(view) < TWO_31 && stream !in repr
      modifies stream
      ensures stream.written == old(stream.written) + Write(ChunkRecord(field, WriteAll(ValuesRecords(view))))
      decreases repr, 0, 1
    {
      ghost var before := stream.written;
      ValuesLength(view);
      stream.WritePrefix(field, cachedSize);
      InternalSerialize(stream);
      PrefixFrames(before, field, WriteAll(ValuesRecords(view)));
    }

    /** This node and the objects of its elements. */
    ghost function Objects(): (objects: set<object>)
      requires Valid()
      reads this, repr
      ensures this in objects && objects <= repr
      decreases repr, 0, 1
    {
      {this} + ObjectsOf(|values|)
    }

    /** The objects of the first elements. */
    ghost function ObjectsOf(n: nat): (objects: set<object>)
      requires Valid() && n <= |values|
      reads this, repr
      ensures objects <= repr - {this}
      decreases repr, 0, 0, n
    {
      if n == 0 then {} else ObjectsOf(n - 1) + values[n - 1].Objects()
    }

    lemma {:induction false} ObjectsApart(n: nat, j: nat)
      requires Valid() && n <= j < |values|
      ensures ObjectsOf(n) !! values[j].repr
    {
      if n > 0 {
        ObjectsApart(n - 1, j);
      }
    }

    /** Adding elements keeps the objects of the ones there were. */
    twostate lemma ObjectsKept(n: nat)
      requires old(Valid()) && Valid() && n <= old(|values|) && old(values) <= values
      requires unchanged(old(repr) - {this})
      ensures ObjectsOf(n) == old(ObjectsOf(n))
    {
      if n > 0 {
        ObjectsKept(n - 1);
        assert values[n - 1] == old(values[n - 1]);
      }
    }

    /** The destructor and the release of this node. */
    method Delete(memory: Deleter)
      requires Valid() && memory !in repr && repr !! memory.released
      modifies memory
      ensures memory.released == old(memory.released) + Objects()
      decreases repr, 0, 1
    {
      DeleteFirst(memory, |values|);
      memory.Free(this);
    }

    method DeleteFirst(memory: Deleter, n: nat)
      requires Valid() && n <= |values| && memory !in repr && repr !! memory.released
      modifies memory
      ensures memory.released == old(memory.released) + ObjectsOf(n)
      decreases repr, 0, 0, n
    {
      if n > 0 {
        DeleteFirst(memory, n - 1);
        ObjectsApart(n - 1, n - 1);
        values[n - 1].Delete(memory);
      }
    }

    method Clear()
      requires Valid()
      modifies this
      ensures Valid() && view == [] && repr == {this}
    {
      if hasValues {
        values := [];
      }
      hasValues := false;
      view, repr := [], {this};
    }

    static method CopyConstruct(from: ListNode) returns (copy: ListNode)
      requires from.Valid()
      ensures copy.Valid() && fresh(copy.repr) && copy.view == from.view
      decreases from.repr, 0, 2
    {
      copy := new ListNode();
      copy.Append(from);
    }

    method AddAllocated(own: ValueNode)
      requires Valid() && own.Valid() && own.repr !! repr
      modifies this
      ensures Valid() && view == old(view) + [own.view] && repr == old(repr) + own.repr
      ensures old(Objects()) <= Objects()
    {
      values, view, repr, hasValues := values + [own], view + [own.view], repr + own.repr, true;
      ObjectsKept(old(|values|));
    }

    /** InternalMergeFromWithArena: a copy of every element is added. */
    method Append(from: ListNode)
      requires Valid() && from.Valid() && repr !! from.repr
      modifies this
      ensures Valid() && fresh(repr - old(repr)) && old(repr) <= repr
      ensures view == old(view) + from.view
      ensures old(Objects()) <= Objects()
      decreases from.repr, 0, 1
    {
      for i := 0 to |from.values|
        invariant Valid() && fresh(repr - old(repr)) && old(repr) <= repr
        invariant view == old(view) + from.view[..i]
        invariant old(Objects()) <= Objects()
      {
        AppendCopy(from.values[i], from.view[i], from.repr);
        assert from.view[..i + 1] == from.view[..i] + [from.view[i]];
      }
      assert from.view[..|from.values|] == from.view;
      MarkPresent(from.hasValues);
    }

    method AppendCopy(from: ValueNode, ghost v: Value, ghost bound: set<object>)
      requires Valid() && from.Valid() && from.view == v && from.repr < bound && repr !! bound
      modifies this
      ensures Valid() && fresh(repr - old(repr)) && old(repr) <= repr
      ensures view == old(view) + [v] && old(Objects()) <= Objects()
      decreases bound, 0, 0
    {
      var own := ValueNode.CopyConstruct(from);
      AddAllocated(own);
    }

    method MarkPresent(present: bool)
      requires Valid()
      modifies this
      ensures Valid() && view == old(view) && repr == old(repr) && Objects() == old(Objects())
    {
      hasValues := hasValues || present;
      ObjectsKept(|values|);
    }

    method MergeFrom(from: ListNode)
      requires Valid() && from.Valid() && repr !! from.repr
      modifies this
      ensures Valid() && fresh(repr - old(repr)) && old(repr) <= repr
      ensures view == old(view) + from.view
      ensures old(Objects()) <= Objects()
    {
      if from.hasValues {
        Append(from);
      }
    }

    method CopyFrom(from: ListNode)
      requires Valid() && from.Valid() && (from == this || repr !! from.repr)
      modifies repr
      ensures Valid() && view == old(from.view)
      ensures if from == this then unchanged(old(repr)) else fresh(repr - {this})
    {
      if from == this {
        return;
      }
      Clear();
      MergeFrom(from);
    }
  }

  class MapNode {
    var hasEntries: bool
    var entries: seq<EntryNode>
    var cachedSize: int
    ghost var repr: set<object>
    ghost var view: seq<Entry>

    /** The elements are owned, each with objects of its own. */
    ghost predicate Owns()
      reads this, repr
    {
      && this in repr
      && |view| == |entries|
      && (!hasEntries ==> entries == [])
      && (forall i :: 0 <= i < |entries| ==> entries[i] in repr && entries[i].repr <= repr && this !in entries[i].repr)
      && (forall i, j :: 0 <= i < j < |entries| ==> entries[i].repr !! entries[j].repr)
    }

    ghost predicate Valid()
      reads this, repr
      decreases repr, 0
    {
      && Owns()
      && (forall i :: 0 <= i < |entries| ==> entries[i].Valid() && view[i] == entries[i].view)
    }

    ghost predicate Sized()
      requires Valid()
      reads this, repr
      decreases repr, 0
    {
      && cachedSize == ToCachedSize(EntriesSize(view))
      && (forall i :: 0 <= i < |entries| ==> entries[i].Sized())
    }

    constructor ()
      ensures Valid() && view == [] && fresh(repr)
    {
      hasEntries, entries, cachedSize := false, [], 0;
      view, repr := [], {this};
    }

    method ByteSizeLong() returns (total: nat)
      requires Valid()
      modifies repr
      ensures Valid() && view == old(view) && repr == old(repr)
      ensures total == EntriesSize(view) && Sized()
      decreases repr, 0, 2
    {
      total := 0;
      if hasEntries {
        total := SizeOfEntries();
      }
      cachedSize := ToCachedSize(total);
    }

    method SizeOfEntries() returns (total: nat)
      requires Valid()
      modifies repr - {this}
      ensures Valid() && unchanged(this) && total == EntriesSize(view)
      ensures forall j :: 0 <= j < |entries| ==> entries[j].Sized()
      decreases repr, 0, 1
    {
      total := |entries|;
      for i := 0 to |entries|
        invariant unchanged(this) && Valid()
        invariant forall j :: 0 <= j < i ==> entries[j].Sized()
        invariant total == |entries| - i + EntriesSize(view[..i])
      {
        var size := SizeOfEntry(i);
        total := total + LengthDelimited(size);
        EntriesSizeAppend(view[..i], view[i]);
        assert view[..i + 1] == view[..i] + [view[i]];
      }
      assert view[..|entries|] == view;
    }

    method SizeOfEntry(i: nat) returns (size: nat)
      requires Valid() && i < |entries|
      modifies entries[i].repr
      ensures unchanged(this) && Valid() && size == EntrySize(view[i]) && entries[i].Sized()
      ensures forall j :: 0 <= j < |entries| && j != i && old(entries[j].Sized()) ==> entries[j].Sized()
      decreases repr, 0, 0
    {
      size := entries[i].ByteSizeLong();
      assert forall j :: 0 <= j < |entries| && j != i ==> entries[i].repr !! entries[j].repr && entries[j].Valid();
    }

    method InternalSerialize(stream: OutputStream)
      requires Valid() && Sized() && EntriesSize(view) < TWO_31 && stream !in repr
      modifies stream
      ensures stream.written == old(stream.written) + WriteAll(EntriesRecords(view))
      decreases repr, 0, 0
    {
      if hasEntries {
        for i := 0 to |entries|
          invariant stream.written == old(stream.written) + WriteAll(EntriesRecords(view[..i]))
        {
          EntriesSizeCovers(view, i);
          entries[i].WriteAsField(1, stream);
          EntriesBytesAt(old(stream.written), view, i);
        }
        assert view[..|entries|] == view;
      }
    }

    /** InternalWriteMessage: the cached size frames the content. */
    method WriteAsField(field: nat, stream: OutputStream)
      requires Valid() && Sized() && EntriesSize(view) < TWO_31 && stream !in repr
      modifies stream
      ensures stream.written == old(stream.written) + Write(ChunkRecord(field, WriteAll(EntriesRecords(view))))
      decreases repr, 0, 1
    {
      ghost var before := stream.written;
      EntriesLength(view);
      stream.WritePrefix(field, cachedSize);
      InternalSerialize(stream);
      PrefixFrames(before, field, WriteAll(EntriesRecords(view)));
    }

    /** This node and the objects of its elements. */
    ghost function Objects(): (objects: set<object>)
      requires Valid()
      reads this, repr
      ensures this in objects && objects <= repr
      decreases repr, 0, 1
    {
      {this} + ObjectsOf(|entries|)
    }

    /** The objects of the first elements. */
    ghost function ObjectsOf(n: nat): (objects: set<object>)
      requires Valid() && n <= |entries|
      reads this, repr
      ensures objects <= repr - {this}
      decreases repr, 0, 0, n
    {
      if n == 0 then {} else ObjectsOf(n - 1) + entries[n - 1].Objects()
    }

    lemma {:induction false} ObjectsApart(n: nat, j: nat)
      requires Valid() && n <= j < |entries|
      ensures ObjectsOf(n) !! entries[j].repr
    {
      if n > 0 {
        ObjectsApart(n - 1, j);
      }
    }

    /** Adding elements keeps the objects of the ones there were. */
    twostate lemma ObjectsKept(n: nat)
      requires old(Valid()) && Valid() && n <= old(|entries|) && old(entries) <= entries
      requires unchanged(old(repr) - {this})
      ensures ObjectsOf(n) == old(ObjectsOf(n))
    {
      if n > 0 {
        ObjectsKept(n - 1);
        assert entries[n - 1] == old(entries[n - 1]);
      }
    }

    /** The destructor and the release of this node. */
    method Delete(memory: Deleter)
      requires Valid() && memory !in repr && repr !! memory.released
      modifies memory
      ensures memory.released == old(memory.released) + Objects()
      decreases repr, 0, 1
    {
      DeleteFirst(memory, |entries|);
      memory.Free(this);
    }

    method DeleteFirst(memory: Deleter, n: nat)
      requires Valid() && n <= |entries| && memory !in repr && repr !! memory.released
      modifies memory
      ensures memory.released == old(memory.released) + ObjectsOf(n)
      decreases repr, 0, 0, n
    {
      if n > 0 {
        DeleteFirst(memory, n - 1);
        ObjectsApart(n - 1, n - 1);
        entries[n - 1].Delete(memory);
      }
    }

    method Clear()
      requires Valid()
      modifies this
      ensures Valid() && view == [] && repr == {this}
    {
      if hasEntries {
        entries := [];
      }
      hasEntries := false;
      view, repr := [], {this};
    }

    static method CopyConstruct(from: MapNode) returns (copy: MapNode)
      requires from.Valid()
      ensures copy.Valid() && fresh(copy.repr) && copy.view == from.view
      decreases from.repr, 0, 2
    {
      copy := new MapNode();
      copy.Append(from);
    }

    method AddAllocated(own: EntryNode)
      requires Valid() && own.Valid() && own.repr !! repr
      modifies this
      ensures Valid() && view == old(view) + [own.view] && repr == old(repr) + own.repr
      ensures old(Objects()) <= Objects()
    {
      entries, view, repr, hasEntries := entries + [own], view + [own.view], repr + own.repr, true;
      ObjectsKept(old(|entries|));
    }

    /** InternalMergeFromWithArena: a copy of every element is added. */
    method Append(from: MapNode)
      requires Valid() && from.Valid() && repr !! from.repr
      modifies this
      ensures Valid() && fresh(repr - old(repr)) && old(repr) <= repr
      ensures view == old(view) + from.view
      ensures old(Objects()) <= Objects()
      decreases from.repr, 0, 1
    {
      for i := 0 to |from.entries|
        invariant Valid() && fresh(repr - old(repr)) && old(repr) <= repr
        invariant view == old(view) + from.view[..i]
        invariant old(Objects()) <= Objects()
      {
        AppendCopy(from.entries[i], from.view[i], from.repr);
        assert from.view[..i + 1] == from.view[..i] + [from.view[i]];
      }
      assert from.view[..|from.entries|] == from.view;
      MarkPresent(from.hasEntries);
    }

    method AppendCopy(from: EntryNode, ghost v: Entry, ghost bound: set<object>)
      requires Valid() && from.Valid() && from.view == v && from.repr < bound && repr !! bound
      modifies this
      ensures Valid() && fresh(repr - old(repr)) && old(repr) <= repr
      ensures view == old(view) + [v] && old(Objects()) <= Objects()
      decreases bound, 0, 0
    {
      var own := EntryNode.CopyConstruct(from);
      AddAllocated(own);
    }

    method MarkPresent(present: bool)
      requires Valid()
      modifies this
      ensures Valid() && view == old(view) && repr == old(repr) && Objects() == old(Objects())
    {
      hasEntries := hasEntries || present;
      ObjectsKept(|entries|);
    }

    method MergeFrom(from: MapNode)
      requires Valid() && from.Valid() && repr !! from.repr
      modifies this
      ensures Valid() && fresh(repr - old(repr)) && old(repr) <= repr
      ensures view == old(view) + from.view
      ensures old(Objects()) <= Objects()
    {
      if from.hasEntries {
        Append(from);
      }
    }

    method CopyFrom(from: MapNode)
      requires Valid() && from.Valid() && (from == this || repr !! from.repr)
      modifies repr
      ensures Valid() && view == old(from.view)
      ensures if from == this then unchanged(old(repr)) else fresh(repr - {this})
    {
      if from == this {
        return;
      }
      Clear();
      MergeFrom(from);
    }
  }

  class EntryNode {
    var hasKey: bool
    var hasValue: bool
    var key: ValueNode?
    var value: ValueNode?
    var cachedSize: int
    ghost var repr: set<object>
    ghost var view: Entry

    ghost predicate Owns()
      reads this, repr
    {
      && this in repr
      && (key != null ==> key in repr && key.repr <= repr && this !in key.repr)
      && (value != null ==> value in repr && value.repr <= repr && this !in value.repr)
      && (key != null && value != null ==> key.repr !! value.repr)
      && (hasKey ==> key != null)
      && (hasValue ==> value != null)
    }

    /** Clear keeps the submessages, emptied, and clears the has-bits. */
    ghost predicate Valid()
      reads this, repr
      decreases repr, 0
    {
      && Owns()
      && (key != null ==> key.Valid() && (!hasKey ==> key.view == KindNotSet))
      && (value != null ==> value.Valid() && (!hasValue ==> value.view == KindNotSet))
      && view == Entry(if hasKey then Some(key.view) else None, if hasValue then Some(value.view) else None)
    }

    ghost predicate Sized()
      requires Valid()
      reads this, repr
      decreases repr, 0
    {
      && cachedSize == ToCachedSize(EntrySize(view))
      && (hasKey ==> key.Sized())
      && (hasValue ==> value.Sized())
    }

    constructor ()
      ensures Valid() && view == Entry(None, None) && fresh(repr)
    {
      hasKey, hasValue, key, value, cachedSize := false, false, null, null, 0;
      view, repr := Entry(None, None), {this};
    }

    constructor Owning(key: ValueNode?, value: ValueNode?)
      requires key != null ==> key.Valid()
      requires value != null ==> value.Valid()
      requires key != null && value != null ==> key.repr !! value.repr
      ensures Valid()
      ensures view == Entry(if key != null then Some(key.view) else None, if value != null then Some(value.view) else None)
      ensures fresh(repr - (if key != null then key.repr else {}) - (if value != null then value.repr else {}))
    {
      hasKey, hasValue, this.key, this.value, cachedSize := key != null, value != null, key, value, 0;
      repr := {this} + (if key != null then key.repr else {}) + (if value != null then value.repr else {});
      view := Entry(if key != null then Some(key.view) else None, if value != null then Some(value.view) else None);
    }

    method ByteSizeLong() returns (total: nat)
      requires Valid()
      modifies repr
      ensures Valid() && view == old(view) && repr == old(repr)
      ensures total == EntrySize(view) && Sized()
      decreases repr, 0, 1
    {
      total := SizeOfFields();
      cachedSize := ToCachedSize(total);
    }

    method SizeOfFields() returns (total: nat)
      requires Valid()
      modifies repr - {this}
      ensures Valid() && unchanged(this) && total == EntrySize(view)
      ensures (hasKey ==> key.Sized()) && (hasValue ==> value.Sized())
      decreases repr, 0, 0
    {
      total := 0;
      if hasKey {
        var size := key.ByteSizeLong();
        total := total + 1 + LengthDelimited(size);
      }
      assert unchanged(this) && (value != null ==> unchanged(value) && value.Valid());
      if hasValue {
        var size := value.ByteSizeLong();
        total := total + 1 + LengthDelimited(size);
      }
      assert key != null ==> key.repr == old(key.repr) && key.view == old(key.view) && key.Valid();
    }

    method InternalSerialize(stream: OutputStream)
      requires Valid() && Sized() && EntrySize(view) < TWO_31 && stream !in repr
      modifies stream
      ensures stream.written == old(stream.written) + EncodeEntry(view)
      decreases repr, 0, 0
    {
      if hasKey {
        key.WriteAsField(1, stream);
      }
      assert stream.written == old(stream.written) + FieldBytes(1, view.key);
      if hasValue {
        value.WriteAsField(2, stream);
      }
      assert stream.written == old(stream.written) + FieldBytes(1, view.key) + FieldBytes(2, view.value);
      EntryBytes(old(stream.written), view);
    }

    /** InternalWriteMessage: the cached size frames the content. */
    method WriteAsField(field: nat, stream: OutputStream)
      requires Valid() && Sized() && EntrySize(view) < TWO_31 && stream !in repr
      modifies stream
      ensures stream.written == old(stream.written) + Write(ChunkRecord(field, EncodeEntry(view)))
      decreases repr, 0, 1
    {
      ghost var before := stream.written;
      EntryLength(view);
      stream.WritePrefix(field, cachedSize);
      InternalSerialize(stream);
      PrefixFrames(before, field, EncodeEntry(view));
    }

    /** This node and its submessages' objects. */
    ghost function Objects(): (objects: set<object>)
      requires Valid()
      reads this, repr
      ensures this in objects && objects <= repr
      decreases repr, 0, 1
    {
      {this} + (if key != null then key.Objects() else {}) + (if value != null then value.Objects() else {})
    }

    /** The destructor and the release of this node. */
    method Delete(memory: Deleter)
      requires Valid() && memory !in repr && repr !! memory.released
      modifies memory
      ensures memory.released == old(memory.released) + Objects()
      decreases repr, 0, 1
    {
      if key != null {
        key.Delete(memory);
      }
      if value != null {
        value.Delete(memory);
      }
      memory.Free(this);
    }

    /** What the submessages' oneofs hold. */
    ghost function Contents(): (objects: set<object>)
      requires Valid()
      reads this, repr
      ensures objects <= repr - {this}
    {
      KeyContent() + ValueContent()
    }

    ghost function KeyContent(): (objects: set<object>)
      requires Valid()
      reads this, repr
      ensures objects <= repr - {this}
    {
      if key != null then key.Content() else {}
    }

    ghost function ValueContent(): (objects: set<object>)
      requires Valid()
      reads this, repr
      ensures objects <= repr - {this}
    {
      if value != null then value.Content() else {}
    }

    method Clear(memory: Deleter)
      requires Valid() && memory !in repr && repr !! memory.released
      modifies repr, memory
      ensures Valid() && view == Entry(None, None) && repr <= old(repr) && repr !! memory.released
      ensures memory.released == old(memory.released) + old(Contents())
    {
      ClearSlots(memory);
      hasKey, hasValue := false, false;
      repr := {this} + (if key != null then key.repr else {}) + (if value != null then value.repr else {});
      view := Entry(None, None);
    }

    method ClearSlots(memory: Deleter)
      requires Valid() && memory !in repr && repr !! memory.released
      modifies repr - {this}, memory
      ensures unchanged(this) && Owns()
      ensures key != null ==> key.Valid() && key.view == KindNotSet && key.repr <= old(key.repr) && key.repr !! memory.released
      ensures value != null ==> value.Valid() && value.view == KindNotSet && value.repr <= old(value.repr) && value.repr !! memory.released
      ensures memory.released == old(memory.released) + old(Contents())
    {
      if hasKey {
        key.Clear(memory);
      }
      assert value != null ==> unchanged(value) && value.Valid() && value.Content() == old(value.Content());
      if hasValue {
        value.Clear(memory);
      }
    }

    static method CopyConstruct(from: EntryNode) returns (copy: EntryNode)
      requires from.Valid()
      ensures copy.Valid() && fresh(copy.repr) && copy.view == from.view
      decreases from.repr, 0
    {
      var ownKey: ValueNode?, ownValue: ValueNode? := null, null;
      if from.hasKey {
        ownKey := ValueNode.CopyConstruct(from.key);
      }
      if from.hasValue {
        ownValue := ValueNode.CopyConstruct(from.value);
      }
      copy := new EntryNode.Owning(ownKey, ownValue);
    }

    /** What merging into a submessage deletes: the content of a oneof that
        changes its case. */
    static ghost function Replaced(slot: ValueNode?, from: ValueNode): set<object>
      requires slot != null ==> slot.Valid()
      reads if slot != null then {slot} + slot.repr else {}, from
    {
      if slot == null || from.kind.NoKind? || OneofCase(slot.kind) == OneofCase(from.kind) then {} else slot.Content()
    }

    /** A missing submessage is copied, an existing one is merged into. */
    static method MergeSlot(memory: Deleter, slot: ValueNode?, from: ValueNode) returns (merged: ValueNode)
      requires from.Valid() && memory !in from.repr
      requires slot != null ==> slot.Valid() && slot.repr !! from.repr && memory !in slot.repr && slot.repr !! memory.released
      modifies if slot != null then slot.repr else {}, memory
      ensures merged.Valid() && fresh(merged.repr - (if slot != null then old(slot.repr) else {}))
      ensures merged.repr !! memory.released
      ensures slot != null ==> merged == slot && old(slot.Content()) <= merged.Content() + memory.released
      ensures merged.view == if slot != null then MergeValue(old(slot.view), from.view) else from.view
      ensures memory.released == old(memory.released) + old(Replaced(slot, from))
    {
      if slot == null {
        merged := ValueNode.CopyConstruct(from);
      } else {
        slot.MergeFrom(memory, from);
        merged := slot;
      }
    }

    /** Only what a changed case held is deleted, and nothing the fields held
        is lost undeleted. */
    method MergeFrom(memory: Deleter, from: EntryNode)
      requires Valid() && from.Valid() && repr !! from.repr
      requires memory !in repr + from.repr && repr !! memory.released
      modifies repr, memory
      ensures Valid() && fresh(repr - old(repr)) && repr !! memory.released
      ensures view == MergeEntry(old(view), from.view)
      ensures memory.released == old(memory.released)
                + (if from.hasKey then old(Replaced(key, from.key)) else {})
                + (if from.hasValue then old(Replaced(value, from.value)) else {})
      ensures old(Contents()) <= Contents() + memory.released
    {
      if from.hasKey {
        MergeKey(memory, from.key);
      }
      if from.hasValue {
        MergeValueField(memory, from.value);
      }
    }

    method MergeKey(memory: Deleter, from: ValueNode)
      requires Valid() && from.Valid() && repr !! from.repr
      requires memory !in repr + from.repr && repr !! memory.released
      modifies repr, memory
      ensures Valid() && fresh(repr - old(repr)) && repr !! memory.released
      ensures view == old(view).(key := MergeField(old(view).key, Some(from.view)))
      ensures value == old(value) && (old(value) != null ==> unchanged(old(value.repr)))
      ensures old(key) != null ==> key == old(key) && old(key.Content()) <= key.Content() + memory.released
      ensures memory.released == old(memory.released) + old(Replaced(key, from))
    {
      var merged := MergeSlot(memory, key, from);
      assert value != null ==> unchanged(value.repr);
      OwnKey(merged);
    }

    /** The entry takes a submessage over, which may be the one it had. */
    method OwnKey(merged: ValueNode)
      requires this in repr && merged.Valid() && this !in merged.repr
      requires value != null ==>
                 && value in repr && value.repr <= repr && this !in value.repr && value.repr !! merged.repr
                 && value.Valid() && (!hasValue ==> value.view == KindNotSet)
      requires hasValue ==> value != null
      requires view.value == if hasValue then Some(value.view) else None
      modifies this
      ensures Valid() && repr == {this} + merged.repr + (if value != null then value.repr else {})
      ensures view == old(view).(key := Some(merged.view)) && key == merged && value == old(value)
    {
      key, hasKey, view := merged, true, view.(key := Some(merged.view));
      repr := {this} + merged.repr + (if value != null then value.repr else {});
    }

    method MergeValueField(memory: Deleter, from: ValueNode)
      requires Valid() && from.Valid() && repr !! from.repr
      requires memory !in repr + from.repr && repr !! memory.released
      modifies repr, memory
      ensures Valid() && fresh(repr - old(repr)) && repr !! memory.released
      ensures view == old(view).(value := MergeField(old(view).value, Some(from.view)))
      ensures key == old(key) && (old(key) != null ==> unchanged(old(key.repr)))
      ensures old(value) != null ==> value == old(value) && old(value.Content()) <= value.Content() + memory.released
      ensures memory.released == old(memory.released) + old(Replaced(value, from))
    {
      var merged := MergeSlot(memory, value, from);
      assert key != null ==> unchanged(key.repr);
      OwnValue(merged);
    }

    /** The entry takes a submessage over, which may be the one it had. */
    method OwnValue(merged: ValueNode)
      requires this in repr && merged.Valid() && this !in merged.repr
      requires key != null ==>
                 && key in repr && key.repr <= repr && this !in key.repr && key.repr !! merged.repr
                 && key.Valid() && (!hasKey ==> key.view == KindNotSet)
      requires hasKey ==> key != null
      requires view.key == if hasKey then Some(key.view) else None
      modifies this
      ensures Valid() && repr == {this} + merged.repr + (if key != null then key.repr else {})
      ensures view == old(view).(value := Some(merged.view)) && value == merged && key == old(key)
    {
      value, hasValue, view := merged, true, view.(value := Some(merged.view));
      repr := {this} + merged.repr + (if key != null then key.repr else {});
    }

    method CopyFrom(memory: Deleter, from: EntryNode)
      requires Valid() && from.Valid() && (from == this || repr !! from.repr)
      requires memory !in repr + from.repr && repr !! memory.released
      modifies repr, memory
      ensures Valid() && view == old(from.view) && repr !! memory.released
      ensures if from == this then unchanged(old(repr)) else fresh(repr - old(repr))
      ensures memory.released == old(memory.released) + (if from == this then {} else old(Contents()))
    {
      if from == this {
        return;
      }
      Clear(memory);
      MergeFrom(memory, from);
    }
  }
}
