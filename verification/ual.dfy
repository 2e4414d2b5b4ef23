/**
 The mode-tagged UAL message of `ual/src/lib.rs`: an action, a transport mode
 and a raw payload, whose setters, encoder and decoder depend on the mode.

 JSON (serde_json) is not modelled: it is an encoder/decoder pair over some
 value type `V`, supplied by the caller. The `unimplemented!` gRPC paths and
 the panic of `with_byte_payload` in the wrong mode are preconditions.
 */
module Ual {
  import opened Results
  import opened Utf8

  /** `Mode`: how the payload is encoded. */
  datatype Mode = Json | Grpc | ByteLevel

  /** `UalMessage`. */
  datatype Message = Message(action: string, mode: Mode, payload: seq<Byte>)

  /** `serde_json::to_vec` and `serde_json::from_slice` for values of type `V`. */
  datatype JsonCodec<!V> = JsonCodec(
    serialize: V -> Result<seq<Byte>, string>,
    deserialize: seq<Byte> -> Result<V, string>)

  /** The decoder gives back every value the encoder accepts. */
  ghost predicate RoundTrips<V(!new)>(codec: JsonCodec<V>) {
    forall v :: codec.serialize(v).Ok? ==> codec.deserialize(codec.serialize(v).value) == Ok(v)
  }

  const NotJsonMode: string := "Mode must be Json for JSON payload"
  const ByteLevelUndecodable: string := "Byte-level decoding requires custom logic"

  /** `UalMessage::new`: no payload yet. */
  function New(action: string, mode: Mode): (m: Message)
    ensures m.action == action && m.mode == mode && |m.payload| == 0
  {
    Message(action, mode, [])
  }

  /**
   `UalMessage::with_json_payload`: refused unless the message is in Json
   mode; otherwise the payload becomes the value's JSON encoding, or the
   encoder's error is returned.
   */
  function WithJsonPayload<V>(m: Message, v: V, codec: JsonCodec<V>): (r: Result<Message, string>)
    ensures m.mode != Json ==> r == Err(NotJsonMode)
    ensures r.Ok? <==> m.mode == Json && codec.serialize(v).Ok?
    ensures r.Ok? ==> r.value == Message(m.action, Json, codec.serialize(v).value)
    ensures m.mode == Json && codec.serialize(v).Err? ==> r == Err(codec.serialize(v).error)
  {
    if m.mode != Json then Err(NotJsonMode)
    else
      match codec.serialize(v)
      case Err(e) => Err(e)
      case Ok(bytes) => Ok(m.(payload := bytes))
  }

  /**
   `UalMessage::with_byte_payload`: only in ByteLevel mode (any other mode
   panics); the payload becomes exactly the given bytes.
   */
  function WithBytePayload(m: Message, bytes: seq<Byte>): (r: Message)
    requires m.mode == ByteLevel
    ensures r.payload == bytes && r.action == m.action && r.mode == ByteLevel
  {
    m.(payload := bytes)
  }

  /**
   `UalMessage::decode`: Json decodes the payload; ByteLevel always fails;
   gRPC is unimplemented (it panics), so it is excluded.
   */
  function Decode<V>(m: Message, codec: JsonCodec<V>): (r: Result<V, string>)
    requires m.mode != Grpc
    ensures m.mode == ByteLevel ==> r == Err(ByteLevelUndecodable)
    ensures m.mode == Json ==> r == codec.deserialize(m.payload)
  {
    match m.mode
    case Json => codec.deserialize(m.payload)
    case ByteLevel => Err(ByteLevelUndecodable)
  }

  /**
   `UalMessage::encode`: the bytes sent are the payload as it stands, in
   both implemented modes; gRPC is unimplemented and excluded.
   */
  function Encode(m: Message): (bytes: seq<Byte>)
    requires m.mode != Grpc
    ensures bytes == m.payload
  {
    match m.mode
    case Json => m.payload
    case ByteLevel => m.payload
  }

  /**
   A value put in a Json message comes back out of `decode`, and `encode`
   sends exactly its JSON encoding.
   */
  lemma JsonRoundTrip<V(!new)>(action: string, v: V, codec: JsonCodec<V>)
    requires RoundTrips(codec)
    requires codec.serialize(v).Ok?
    ensures WithJsonPayload(New(action, Json), v, codec).Ok?
    ensures var m := WithJsonPayload(New(action, Json), v, codec).value;
      Decode(m, codec) == Ok(v) && Encode(m) == codec.serialize(v).value
  {
  }

  /** Only a Json message takes a JSON payload, whatever the value and codec. */
  lemma JsonPayloadNeedsJsonMode<V>(m: Message, v: V, codec: JsonCodec<V>)
    ensures WithJsonPayload(m, v, codec).Ok? ==> m.mode == Json
  {
  }

  /** Bytes put in a ByteLevel message are sent unchanged, and never decoded. */
  lemma BytePayloadRoundTrip<V>(action: string, bytes: seq<Byte>, codec: JsonCodec<V>)
    ensures var m := WithBytePayload(New(action, ByteLevel), bytes);
      m.action == action && Encode(m) == bytes && Decode(m, codec).Err?
  {
  }

  /** Setting a byte payload twice keeps only the second. */
  lemma BytePayloadOverwrites(m: Message, a: seq<Byte>, b: seq<Byte>)
    requires m.mode == ByteLevel
    ensures WithBytePayload(WithBytePayload(m, a), b) == WithBytePayload(m, b)
  {
  }

  /** A fresh message in either implemented mode encodes to nothing. */
  lemma NewEncodesEmpty(action: string, mode: Mode)
    requires mode != Grpc
    ensures Encode(New(action, mode)) == []
  {
  }

  /** The byte test of the crate: the payload `[0x01, 0x0A, 0x14]` is stored as given. */
  lemma ByteMessageExample()
    ensures WithBytePayload(New("move", ByteLevel), [0x01, 0x0A, 0x14]).payload == [0x01, 0x0A, 0x14]
  {
  }
}
