/**
 The message handling of `agents/src/lib.rs`: an agent's configuration and
 the rule by which it turns one UAL message into a response line.

 The channel, the spawned loop (`run`) and `send` are not modelled; the
 JSON value type, its decoder and its `Display` text are parameters.
 */
module Agents {
  import opened Results
  import opened Strings
  import Utf8
  import Ual

  /** `AgentConfig`. */
  datatype AgentConfig = AgentConfig(name: string, role: string)

  /** Why a message could not be handled. */
  datatype ProcessError =
    | JsonError(message: string)   // the payload is not the JSON of a value
    | Utf8Error                    // a ByteLevel payload is not UTF-8
    | GrpcUnimplemented            // the gRPC branch is `unimplemented!`

  /** The response text for a Json message whose payload displays as `shown`. */
  function JsonResponse(name: string, action: string, shown: string): string {
    "Agent " + name + " handled " + action + " with payload: " + shown
  }

  /** The response text for a ByteLevel message whose payload reads `text`. */
  function ByteResponse(name: string, action: string, text: string): string {
    "Agent " + name + " handled byte-level " + action + ": " + text
  }

  /** `JsonResponse` names the agent and the action. */
  lemma JsonResponseMentions(name: string, action: string, shown: string)
    ensures IsInfix(name, JsonResponse(name, action, shown))
    ensures IsInfix(action, JsonResponse(name, action, shown))
  {
    var tail := " with payload: " + shown;
    var s := JsonResponse(name, action, shown);
    assert s == "Agent " + name + (" handled " + action + tail);
    InfixOfConcat("Agent ", name, " handled " + action + tail);
    assert s == "Agent " + name + " handled " + action + tail;
    InfixOfConcat("Agent " + name + " handled ", action, tail);
  }

  /** `ByteResponse` names the agent and the action and carries the text. */
  lemma ByteResponseMentions(name: string, action: string, text: string)
    ensures IsInfix(name, ByteResponse(name, action, text))
    ensures IsInfix(action, ByteResponse(name, action, text))
    ensures IsInfix(text, ByteResponse(name, action, text))
  {
    var tail := ": " + text;
    var s := ByteResponse(name, action, text);
    assert s == "Agent " + name + (" handled byte-level " + action + tail);
    InfixOfConcat("Agent ", name, " handled byte-level " + action + tail);
    assert s == "Agent " + name + " handled byte-level " + action + tail;
    InfixOfConcat("Agent " + name + " handled byte-level ", action, tail);
    var head := "Agent " + name + " handled byte-level " + action + ": ";
    assert s == head + text + [];
    InfixOfConcat(head, text, []);
  }

  /**
   `Agent::process_message`: a Json message succeeds exactly when its payload
   decodes, a ByteLevel message exactly when its payload is UTF-8, and a gRPC
   message never. A response always names the agent and the action, and a
   ByteLevel response carries the decoded text.
   */
  function ProcessMessage<V>(cfg: AgentConfig, msg: Ual.Message,
                             codec: Ual.JsonCodec<V>, show: V -> string): (r: Result<string, ProcessError>)
    ensures msg.mode == Ual.Grpc ==> r == Err(GrpcUnimplemented)
    ensures msg.mode == Ual.Json ==> (r.Ok? <==> codec.deserialize(msg.payload).Ok?)
    ensures msg.mode == Ual.ByteLevel ==> (r.Ok? <==> Utf8.Decode(msg.payload).Some?)
    ensures msg.mode == Ual.ByteLevel && r.Err? ==> r.error == Utf8Error
    ensures r.Ok? ==> IsInfix(cfg.name, r.value) && IsInfix(msg.action, r.value)
    ensures r.Ok? && msg.mode == Ual.ByteLevel ==> IsInfix(Utf8.Decode(msg.payload).value, r.value)
  {
    match msg.mode
    case Json =>
      (match Ual.Decode(msg, codec)
       case Err(e) => Err(JsonError(e))
       case Ok(v) =>
         JsonResponseMentions(cfg.name, msg.action, show(v));
         Ok(JsonResponse(cfg.name, msg.action, show(v))))
    case ByteLevel =>
      (match Utf8.Decode(msg.payload)
       case None => Err(Utf8Error)
       case Some(text) =>
         ByteResponseMentions(cfg.name, msg.action, text);
         Ok(ByteResponse(cfg.name, msg.action, text)))
    case Grpc => Err(GrpcUnimplemented)
  }

  /**
   A ByteLevel message whose payload is the UTF-8 encoding of some text is
   handled, and the response is built from that very text.
   */
  lemma ProcessEncodedText<V>(cfg: AgentConfig, action: string, text: string,
                              codec: Ual.JsonCodec<V>, show: V -> string)
    ensures var msg := Ual.WithBytePayload(Ual.New(action, Ual.ByteLevel), Utf8.Encode(text));
      ProcessMessage(cfg, msg, codec, show) == Ok(ByteResponse(cfg.name, action, text))
  {
    Utf8.DecodeEncode(text);
  }

  /** A ByteLevel payload is handled exactly when it is the encoding of some text. */
  lemma ProcessBytesOkIffEncoded<V>(cfg: AgentConfig, msg: Ual.Message,
                                    codec: Ual.JsonCodec<V>, show: V -> string)
    requires msg.mode == Ual.ByteLevel
    ensures ProcessMessage(cfg, msg, codec, show).Ok? <==> exists text :: msg.payload == Utf8.Encode(text)
  {
    if ProcessMessage(cfg, msg, codec, show).Ok? {
      var text := Utf8.Decode(msg.payload).value;
      Utf8.DecodeIffEncode(msg.payload, text);
    } else if exists text :: msg.payload == Utf8.Encode(text) {
      var text :| msg.payload == Utf8.Encode(text);
      Utf8.DecodeEncode(text);
    }
  }

  /**
   The crate's own scenario: a Json message made with `with_json_payload`
   from a value is handled, and the response shows that value.
   */
  lemma ProcessJsonMessage<V(!new)>(cfg: AgentConfig, action: string, v: V,
                                    codec: Ual.JsonCodec<V>, show: V -> string)
    requires Ual.RoundTrips(codec)
    requires codec.serialize(v).Ok?
    ensures var msg := Ual.WithJsonPayload(Ual.New(action, Ual.Json), v, codec).value;
      ProcessMessage(cfg, msg, codec, show) == Ok(JsonResponse(cfg.name, action, show(v)))
  {
    Ual.JsonRoundTrip(action, v, codec);
  }
}
