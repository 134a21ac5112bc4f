/** The plain `ws_handler`, an alternate that the server does not register:
    it switches the LED on an `action` of "led" and acknowledges every
    complete frame with a fixed text, whether or not the frame parsed. It
    has no state of its own. */
module WsBasic {
  import opened EspTypes
  import opened WsCommon

  const MESSAGE_RECEIVED: string := "Message received"

  /** What one call does: the calls issued, in order, and the return code. */
  datatype Reply = Reply(effects: seq<Effect>, code: EspErr)

  /** `action`, and `state` when the action is "led", are passed to strcmp
      unchecked, so a parsed document must carry them as strings. */
  predicate KeysPresent(r: WsRequest) {
    match Command(r)
    case None => true
    case Some(doc) => doc.action.Some? && (doc.action.value == "led" ==> doc.state.Some?)
  }

  /** The LED write a parsed document asks for. */
  function LedAction(doc: JsonDoc): (e: seq<Effect>)
    requires doc.action.Some? && (doc.action.value == "led" ==> doc.state.Some?)
    ensures e != [] ==> doc.action == Some("led")
  {
    if doc.action.value == "led" then LedEffects(doc.state.value) else []
  }

  /** The acknowledgement goes out exactly for complete frames, parsed or
      not; the code is ESP_OK unless a receive step fails or the frame is a
      fragment; and nothing but the LED and the acknowledgement is touched. */
  function WsHandler(r: WsRequest): (o: Reply)
    requires KeysPresent(r)
    ensures WsSend(Ascii(MESSAGE_RECEIVED)) in o.effects <==> r.WsFrame? && Receive(r).Payload? && r.final
    ensures o.code == ESP_OK <==> r.Open? || !(Receive(r).Abort? || (Receive(r).Payload? && !r.final))
    ensures o.code != ESP_OK ==> o.effects == []
    ensures forall i :: 0 <= i < |o.effects| ==>
              o.effects[i] == WsSend(Ascii(MESSAGE_RECEIVED)) || o.effects[i].DigitalWrite?
    ensures r.WsFrame? && r.lengthRecv != ESP_OK ==> o.code == r.lengthRecv
    ensures r.WsFrame? && r.lengthRecv == ESP_OK && 0 < r.len && !r.allocOk ==> o.code == ESP_ERR_NO_MEM
    ensures r.WsFrame? && r.lengthRecv == ESP_OK && 0 < r.len && r.allocOk && r.payloadRecv != ESP_OK ==>
              o.code == r.payloadRecv
  {
    match r
    case Open => Reply([], ESP_OK)
    case WsFrame(_, _, _, _, _, _) =>
      match Receive(r)
      case Abort(code) => Reply([], code)
      case EmptyMessage => Reply([], ESP_OK)
      case Payload(final, json) =>
        if !final then Reply([], ESP_FAIL)
        else
          var led := if json.Some? then LedAction(json.value) else [];
          Reply(led + [WsSend(Ascii(MESSAGE_RECEIVED))], ESP_OK)
  }

  /** "led" with "on" or "off" writes the pin before the acknowledgement;
      any other state, or any other action, writes nothing. */
  lemma LedSwitches(r: WsRequest, doc: JsonDoc)
    requires KeysPresent(r) && Command(r) == Some(doc)
    ensures doc.action == Some("led") && doc.state == Some("on") ==>
              WsHandler(r).effects == [DigitalWrite(LED_BUILTIN, High), WsSend(Ascii(MESSAGE_RECEIVED))]
    ensures doc.action == Some("led") && doc.state == Some("off") ==>
              WsHandler(r).effects == [DigitalWrite(LED_BUILTIN, Low), WsSend(Ascii(MESSAGE_RECEIVED))]
    ensures doc.action != Some("led") || doc.state.value !in {"on", "off"} ==>
              WsHandler(r).effects == [WsSend(Ascii(MESSAGE_RECEIVED))]
  {
  }

  /** A complete frame that does not parse is still acknowledged, with ESP_OK. */
  lemma ParseErrorAcknowledged(r: WsRequest)
    requires r.WsFrame? && Receive(r).Payload? && r.final && r.json.None?
    ensures WsHandler(r) == Reply([WsSend(Ascii(MESSAGE_RECEIVED))], ESP_OK)
  {
  }
}
