/** `alt_ws_handler`, the WebSocket handler the PC client talks to: opening
    the socket resets the speed, and a complete JSON frame carries one of the
    commands `move`, `led`, `set_speed` or `get_speed`. */
module WsPc {
  import opened EspTypes
  import opened Decimal
  import opened WsCommon

  /** The reply to `get_speed` as ArduinoJson serialises the two-member
      object: keys in insertion order, no whitespace. */
  const REPORT_OPEN: string := "{\"car_angle\":"
  const REPORT_MID: string := ",\"car_speed\":"
  const REPORT_CLOSE: string := "}"

  /** Size of the reply buffer, terminating NUL included. */
  const REPORT_BUF_SIZE: nat := 64

  function SpeedReport(angle: int, speed: int): seq<byte> {
    Ascii(REPORT_OPEN) + SignedDigits(angle) + Ascii(REPORT_MID) + SignedDigits(speed) + Ascii(REPORT_CLOSE)
  }

  /** Reads the two numbers back out of a `get_speed` reply. */
  function ParseSpeedReport(s: seq<byte>): Option<(int, int)> {
    match Strip(Ascii(REPORT_OPEN), s)
    case None => None
    case Some(t) =>
      match ParseInt(t)
      case None => None
      case Some((angle, k)) =>
        match Strip(Ascii(REPORT_MID), t[k..])
        case None => None
        case Some(u) =>
          match ParseInt(u)
          case None => None
          case Some((speed, m)) =>
            if Ascii(REPORT_CLOSE) == u[m..] then Some((angle, speed)) else None
  }

  /** The reply carries exactly the angle and speed it was made from. */
  lemma SpeedReportRoundTrip(angle: int, speed: int)
    ensures ParseSpeedReport(SpeedReport(angle, speed)) == Some((angle, speed))
  {
    var open, mid, close := Ascii(REPORT_OPEN), Ascii(REPORT_MID), Ascii(REPORT_CLOSE);
    var a, b := SignedDigits(angle), SignedDigits(speed);
    var u := b + close;
    var t := a + (mid + u);
    assert SpeedReport(angle, speed) == open + t;
    StripConcat(open, t);
    IntRoundTrip(angle, mid + u);
    assert t[|a|..] == mid + u;
    StripConcat(mid, u);
    IntRoundTrip(speed, close);
    assert u[|b|..] == close;
  }

  /** For any two C ints the reply fits the 64-byte buffer with its NUL. */
  lemma SpeedReportFits(angle: int32, speed: int32)
    ensures |SpeedReport(angle, speed)| <= 49 < REPORT_BUF_SIZE
  {
    SignedDigitsOfI32(angle);
    SignedDigitsOfI32(speed);
  }

  /** The command branch, once a complete frame has parsed. Absent keys read
      as "" for strings and 0 for numbers. */
  function Dispatch(s: CarState, doc: JsonDoc): (o: Outcome)
    ensures o.code == ESP_OK
  {
    var cmd, state := doc.cmd.GetOr(""), doc.state.GetOr("");
    var angle, speed := doc.angle.GetOr(0), doc.speed.GetOr(0);
    if cmd == "move" then
      var effect := if speed != 0 then var (l, r) := WheelSpeeds(speed, angle); CarForward(l, r) else CarStop;
      Outcome(s.(carAngle := angle, carSpeed := speed), [effect], ESP_OK)
    else if cmd == "led" then
      Outcome(s, LedEffects(state), ESP_OK)
    else if cmd == "set_speed" then
      Outcome(s.(setSpeed := speed), [EepromWrite(EEPROM_SPEED_ADDR, speed % 0x100), EepromCommit], ESP_OK)
    else if cmd == "get_speed" then
      Outcome(s, [WsSend(SpeedReport(s.carAngle, s.carSpeed))], ESP_OK)
    else
      Outcome(s, [], ESP_OK)
  }

  /** `alt_ws_handler` as a transition of the globals. A call that fails
      changes nothing; `set_speed` changes only together with persisting its
      new low byte; every motor command matches the globals it leaves; and
      any change of the recorded motion comes with a motor command, except
      on the open that zeroes the speed. */
  function AltWsHandler(s: CarState, r: WsRequest): (o: Outcome)
    ensures o.code != ESP_OK ==> o.state == s && o.effects == []
    ensures o.state.setSpeed == s.setSpeed
         || o.effects == [EepromWrite(EEPROM_SPEED_ADDR, o.state.setSpeed % 0x100), EepromCommit]
    ensures EepromCommit in o.effects ==>
              o.effects == [EepromWrite(EEPROM_SPEED_ADDR, o.state.setSpeed % 0x100), EepromCommit]
    ensures MotorsAgree(o)
    ensures (o.state.carAngle, o.state.carSpeed) != (s.carAngle, s.carSpeed) ==>
              r.Open? || (|o.effects| == 1 && (o.effects[0].CarForward? || o.effects[0].CarStop?))
    ensures r.Open? ==> o == Outcome(s.(carSpeed := 0), [], ESP_OK)
    ensures r.WsFrame? && r.lengthRecv != ESP_OK ==> o.code == r.lengthRecv
    ensures r.WsFrame? && r.lengthRecv == ESP_OK && 0 < r.len && !r.allocOk ==> o.code == ESP_ERR_NO_MEM
    ensures r.WsFrame? && r.lengthRecv == ESP_OK && 0 < r.len && r.allocOk && r.payloadRecv != ESP_OK ==>
              o.code == r.payloadRecv
  {
    match r
    case Open => Outcome(s.(carSpeed := 0), [], ESP_OK)
    case WsFrame(_, _, _, _, _, _) =>
      match Receive(r)
      case Abort(code) => Outcome(s, [], code)
      case EmptyMessage => Outcome(s, [], ESP_OK)
      case Payload(final, json) =>
        if !final then Outcome(s, [], ESP_FAIL)
        else if json.None? then Outcome(s, [], ESP_FAIL)
        else Dispatch(s, json.value)
  }

  /** The handler as the firmware runs it, updating the globals in place. */
  method AltWsHandle(g: CarGlobals, r: WsRequest) returns (effects: seq<Effect>, code: EspErr)
    modifies g
    ensures AltWsHandler(old(g.State()), r) == Outcome(g.State(), effects, code)
  {
    effects := [];
    if r.Open? {
      g.carSpeed := 0;
      return effects, ESP_OK;
    }
    if r.lengthRecv != ESP_OK {
      return effects, r.lengthRecv;
    }
    if r.len > 0 {
      if !r.allocOk {
        return effects, ESP_ERR_NO_MEM;
      }
      if r.payloadRecv != ESP_OK {
        return effects, r.payloadRecv;
      }
      if !r.final {
        return effects, ESP_FAIL;
      }
      if r.json.None? {
        return effects, ESP_FAIL;
      }
      var doc := r.json.value;
      var cmd, state := doc.cmd.GetOr(""), doc.state.GetOr("");
      var angle, speed := doc.angle.GetOr(0), doc.speed.GetOr(0);
      if cmd == "move" {
        g.carAngle := angle;
        g.carSpeed := speed;
        if speed != 0 {
          var (lspeed, rspeed) := WheelSpeeds(g.carSpeed, g.carAngle);
          effects := effects + [CarForward(lspeed, rspeed)];
        } else {
          effects := effects + [CarStop];
        }
      } else if cmd == "led" {
        effects := effects + LedEffects(state);
      } else if cmd == "set_speed" {
        g.setSpeed := speed;
        effects := effects + [EepromWrite(EEPROM_SPEED_ADDR, g.setSpeed % 0x100), EepromCommit];
      } else if cmd == "get_speed" {
        effects := effects + [WsSend(SpeedReport(g.carAngle, g.carSpeed))];
      }
    }
    return effects, ESP_OK;
  }

  /** A data frame acts exactly when it delivers a parsed document, and then
      as the command branch says; any other data frame leaves the globals
      and issues nothing. */
  lemma DispatchesCommand(s: CarState, r: WsRequest)
    requires r.WsFrame?
    ensures Command(r).Some? ==> AltWsHandler(s, r) == Dispatch(s, Command(r).value)
    ensures Command(r).None? ==> AltWsHandler(s, r).state == s && AltWsHandler(s, r).effects == []
  {
  }

  /** `move` records the angle and speed and drives the wheels, or stops the
      car when the speed is zero. */
  lemma MoveDrives(s: CarState, r: WsRequest, doc: JsonDoc)
    requires Command(r) == Some(doc) && doc.cmd == Some("move")
    ensures var o := AltWsHandler(s, r);
      o.code == ESP_OK &&
      o.state == s.(carAngle := doc.angle.GetOr(0), carSpeed := doc.speed.GetOr(0)) &&
      (o.state.carSpeed != 0 ==> o.effects == [CarForward(WheelSpeeds(o.state.carSpeed, o.state.carAngle).0,
                                                          WheelSpeeds(o.state.carSpeed, o.state.carAngle).1)]) &&
      (o.state.carSpeed == 0 ==> o.effects == [CarStop])
  {
  }

  /** A `move` without a speed stops the car. */
  lemma MoveWithoutSpeedStops(s: CarState, r: WsRequest, doc: JsonDoc)
    requires Command(r) == Some(doc) && doc.cmd == Some("move") && doc.speed.None?
    ensures AltWsHandler(s, r).effects == [CarStop]
    ensures AltWsHandler(s, r).state.carSpeed == 0
  {
  }

  /** `{"cmd":"move","angle":30,"speed":50}` drives the wheels at 65 and 35. */
  lemma MoveExample(s: CarState, r: WsRequest)
    requires Command(r) == Some(JsonDoc(Some("move"), None, None, Some(30), Some(50)))
    ensures AltWsHandler(s, r).effects == [CarForward(65, 35)]
  {
    WheelSpeedsExample();
  }

  /** `led` writes the pin for "on" and "off", nothing otherwise, and leaves the globals. */
  lemma LedSwitches(s: CarState, r: WsRequest, doc: JsonDoc)
    requires Command(r) == Some(doc) && doc.cmd == Some("led")
    ensures AltWsHandler(s, r) == Outcome(s, LedEffects(doc.state.GetOr("")), ESP_OK)
  {
  }

  /** `set_speed` stores and persists the speed, leaving the motion globals. */
  lemma SetSpeedPersists(s: CarState, r: WsRequest, doc: JsonDoc)
    requires Command(r) == Some(doc) && doc.cmd == Some("set_speed")
    ensures var o := AltWsHandler(s, r);
      o.state == s.(setSpeed := doc.speed.GetOr(0)) &&
      o.effects == [EepromWrite(EEPROM_SPEED_ADDR, doc.speed.GetOr(0) % 0x100), EepromCommit] &&
      o.code == ESP_OK
  {
  }

  /** `get_speed` changes nothing and sends one reply that fits its buffer and
      reads back as the current angle and speed. */
  lemma GetSpeedReports(s: CarState, r: WsRequest, doc: JsonDoc)
    requires Command(r) == Some(doc) && doc.cmd == Some("get_speed")
    ensures var o := AltWsHandler(s, r);
      o.state == s && o.code == ESP_OK && |o.effects| == 1 && o.effects[0].WsSend? &&
      |o.effects[0].payload| < REPORT_BUF_SIZE &&
      ParseSpeedReport(o.effects[0].payload) == Some((s.carAngle, s.carSpeed))
  {
    var report := SpeedReport(s.carAngle, s.carSpeed);
    assert AltWsHandler(s, r) == Outcome(s, [WsSend(report)], ESP_OK);
    SpeedReportRoundTrip(s.carAngle, s.carSpeed);
    SpeedReportFits(s.carAngle, s.carSpeed);
  }

  /** Any other command, a missing one included, does nothing. */
  lemma UnknownIgnored(s: CarState, r: WsRequest, doc: JsonDoc)
    requires Command(r) == Some(doc)
    requires doc.cmd.GetOr("") !in {"move", "led", "set_speed", "get_speed"}
    ensures AltWsHandler(s, r) == Outcome(s, [], ESP_OK)
  {
  }

  /** A frame without the FIN bit, or one that does not parse, fails with
      ESP_FAIL and changes nothing; an empty frame succeeds and does nothing. */
  lemma RejectsAndEmpty(s: CarState, r: WsRequest)
    requires r.WsFrame?
    ensures Receive(r).Payload? && (!r.final || r.json.None?) ==> AltWsHandler(s, r) == Outcome(s, [], ESP_FAIL)
    ensures Receive(r).EmptyMessage? ==> AltWsHandler(s, r) == Outcome(s, [], ESP_OK)
  {
  }

  /** Right after the socket opens, `get_speed` reports a speed of zero. */
  lemma OpenThenReportZero(s: CarState, r: WsRequest, doc: JsonDoc)
    requires Command(r) == Some(doc) && doc.cmd == Some("get_speed")
    ensures var o := AltWsHandler(AltWsHandler(s, Open).state, r);
      ParseSpeedReport(o.effects[0].payload) == Some((s.carAngle, 0))
  {
    GetSpeedReports(AltWsHandler(s, Open).state, r, doc);
  }
}
