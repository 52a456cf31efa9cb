/** Sizing and then serializing, as a caller does. */
module Serialization {
  import opened Memory
  import opened Wire
  import opened Messages
  import opened Decoding
  import opened RoundTrip
  import opened Nodes

  lemma SerializedDecodes(v: Value)
    requires |EncodeValue(v)| < TWO_31
    ensures TextsValid(v) ==> DecodeValue(EncodeValue(v)) == Some(v)
  {
    if TextsValid(v) {
      DecodeUndoesEncode(v);
    }
  }

  method SerializeToBytes(message: ValueNode) returns (size: nat, bytes: Option<Bytes>)
    requires message.Valid()
    modifies message.repr
    ensures message.Valid() && message.view == old(message.view) && message.Sized()
    ensures size == |EncodeValue(message.view)|
    ensures bytes == if size < TWO_31 then Some(EncodeValue(message.view)) else None
    ensures bytes.Some? && TextsValid(message.view) ==> DecodeValue(bytes.value) == Some(message.view)
  {
    size := message.ByteSizeLong();
    ValueLength(message.view);
    if size >= TWO_31 {
      return size, None;
    }
    var stream := new OutputStream();
    message.InternalSerialize(stream);
    assert [] + EncodeValue(message.view) == EncodeValue(message.view);
    SerializedDecodes(message.view);
    return size, Some(stream.written);
  }
}
