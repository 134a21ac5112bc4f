/** `ws_handler` of the phone client: opening the socket loads the stored
    speed into the angle, `move` steers at the stored speed and `stop` stops.
    It shares the globals with the PC handler but only reads `set_speed`. */
module WsHp {
  import opened EspTypes
  import opened WsCommon
  import WsPc

  /** The command branch, once a complete frame has parsed. Only `cmd` and
      `angle` are read; an absent angle reads as 0. */
  function Dispatch(s: CarState, doc: JsonDoc): (o: Outcome)
    ensures o.code == ESP_OK
  {
    var cmd, angle := doc.cmd.GetOr(""), doc.angle.GetOr(0);
    if cmd == "move" then
      var effects := if s.setSpeed != 0 then var (l, r) := WheelSpeeds(s.setSpeed, angle); [CarForward(l, r)] else [];
      Outcome(s.(carAngle := angle, carSpeed := s.setSpeed), effects, ESP_OK)
    else if cmd == "stop" then
      Outcome(s.(carSpeed := 0), [CarStop], ESP_OK)
    else
      Outcome(s, [], ESP_OK)
  }

  /** `ws_handler` as a transition of the globals. It never writes
      `set_speed`, a call that fails changes nothing, it issues motor
      commands only, and each of them matches the globals it leaves. */
  function WsHandler(s: CarState, r: WsRequest): (o: Outcome)
    ensures o.state.setSpeed == s.setSpeed
    ensures o.code != ESP_OK ==> o.state == s && o.effects == []
    ensures forall i :: 0 <= i < |o.effects| ==> o.effects[i].CarForward? || o.effects[i].CarStop?
    ensures MotorsAgree(o)
    ensures r.Open? ==> o == Outcome(s.(carAngle := s.setSpeed), [], ESP_OK)
    ensures r.WsFrame? && r.lengthRecv != ESP_OK ==> o.code == r.lengthRecv
    ensures r.WsFrame? && r.lengthRecv == ESP_OK && 0 < r.len && !r.allocOk ==> o.code == ESP_ERR_NO_MEM
    ensures r.WsFrame? && r.lengthRecv == ESP_OK && 0 < r.len && r.allocOk && r.payloadRecv != ESP_OK ==>
              o.code == r.payloadRecv
  {
    match r
    case Open => Outcome(s.(carAngle := s.setSpeed), [], ESP_OK)
    case WsFrame(_, _, _, _, _, _) =>
      match Receive(r)
      case Abort(code) => Outcome(s, [], code)
      case EmptyMessage => Outcome(s, [], ESP_OK)
      case Payload(final, json) =>
        if !final then Outcome(s, [], ESP_FAIL)
        else if json.None? then Outcome(s, [], ESP_FAIL)
        else Dispatch(s, json.value)
  }

  /** The handler as the firmware runs it, updating the globals in place. */
  method WsHandle(g: CarGlobals, r: WsRequest) returns (effects: seq<Effect>, code: EspErr)
    modifies g
    ensures WsHandler(old(g.State()), r) == Outcome(g.State(), effects, code)
  {
    effects := [];
    if r.Open? {
      g.carAngle := g.setSpeed;
      return effects, ESP_OK;
    }
    if r.lengthRecv != ESP_OK {
      return effects, r.lengthRecv;
    }
    if r.len > 0 {
      if !r.allocOk {
        return effects, ESP_ERR_NO_MEM;
      }
      if r.payloadRecv != ESP_OK {
        return effects, r.payloadRecv;
      }
      if !r.final {
        return effects, ESP_FAIL;
      }
      if r.json.None? {
        return effects, ESP_FAIL;
      }
      var doc := r.json.value;
      var cmd, angle := doc.cmd.GetOr(""), doc.angle.GetOr(0);
      if cmd == "move" {
        g.carAngle := angle;
        g.carSpeed := g.setSpeed;
        if g.carSpeed != 0 {
          var (lspeed, rspeed) := WheelSpeeds(g.carSpeed, g.carAngle);
          effects := effects + [CarForward(lspeed, rspeed)];
        }
      } else if cmd == "stop" {
        g.carSpeed := 0;
        effects := effects + [CarStop];
      }
    }
    return effects, ESP_OK;
  }

  /** A data frame acts exactly when it delivers a parsed document, and then
      as the command branch says; any other data frame leaves the globals
      and issues nothing. */
  lemma DispatchesCommand(s: CarState, r: WsRequest)
    requires r.WsFrame?
    ensures Command(r).Some? ==> WsHandler(s, r) == Dispatch(s, Command(r).value)
    ensures Command(r).None? ==> WsHandler(s, r).state == s && WsHandler(s, r).effects == []
  {
  }

  /** `move` steers to the angle at the stored speed; with no stored speed it
      records a speed of zero but issues no motor command at all. */
  lemma MoveUsesStoredSpeed(s: CarState, r: WsRequest, doc: JsonDoc)
    requires Command(r) == Some(doc) && doc.cmd == Some("move")
    ensures var o := WsHandler(s, r);
      o.code == ESP_OK &&
      o.state == s.(carAngle := doc.angle.GetOr(0), carSpeed := s.setSpeed) &&
      (s.setSpeed != 0 ==> o.effects == [CarForward(WheelSpeeds(s.setSpeed, o.state.carAngle).0,
                                                    WheelSpeeds(s.setSpeed, o.state.carAngle).1)]) &&
      (s.setSpeed == 0 ==> o.effects == [])
  {
  }

  /** `stop` zeroes the speed, keeps the angle and stops the car. */
  lemma StopStops(s: CarState, r: WsRequest, doc: JsonDoc)
    requires Command(r) == Some(doc) && doc.cmd == Some("stop")
    ensures WsHandler(s, r) == Outcome(s.(carSpeed := 0), [CarStop], ESP_OK)
  {
  }

  /** Any other command, a missing one included, does nothing; so does an
      empty frame. A frame without the FIN bit or that does not parse fails
      with ESP_FAIL and changes nothing. */
  lemma OthersIgnored(s: CarState, r: WsRequest)
    requires r.WsFrame?
    ensures Command(r).Some? && Command(r).value.cmd.GetOr("") !in {"move", "stop"} ==>
              WsHandler(s, r) == Outcome(s, [], ESP_OK)
    ensures Receive(r).EmptyMessage? ==> WsHandler(s, r) == Outcome(s, [], ESP_OK)
    ensures Receive(r).Payload? && (!r.final || r.json.None?) ==> WsHandler(s, r) == Outcome(s, [], ESP_FAIL)
  {
  }

  /** The `speed`, `state` and `action` keys make no difference. */
  lemma IgnoresOtherKeys(s: CarState, r: WsRequest, doc: JsonDoc, speed: Option<int32>, state: Option<string>, action: Option<string>)
    requires r.WsFrame? && r.json == Some(doc)
    ensures WsHandler(s, r) == WsHandler(s, r.(json := Some(doc.(speed := speed, state := state, action := action))))
  {
  }

  /** The phone drives at the speed the PC last stored: after a PC
      `set_speed` of v != 0, a phone `move` to angle a issues
      Car_forward with the wheel speeds for v and a. */
  lemma PhoneMovesAtPcSpeed(s: CarState, setCmd: WsRequest, v: int32, move: WsRequest, a: int32)
    requires v != 0
    requires Command(setCmd) == Some(JsonDoc(Some("set_speed"), None, None, None, Some(v)))
    requires Command(move) == Some(JsonDoc(Some("move"), None, None, Some(a), None))
    ensures var s1 := WsPc.AltWsHandler(s, setCmd).state;
      WsHandler(s1, move).effects == [CarForward(WheelSpeeds(v, a).0, WheelSpeeds(v, a).1)]
  {
    WsPc.SetSpeedPersists(s, setCmd, Command(setCmd).value);
    MoveUsesStoredSpeed(WsPc.AltWsHandler(s, setCmd).state, move, Command(move).value);
  }
}
