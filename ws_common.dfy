/** What the three WebSocket handlers share: the car globals `car_angle`,
    `car_speed` and `set_speed`, the actuator calls and replies a handler
    issues, the decoded JSON command, the receive sequence every handler
    runs before it looks at the command, and the differential wheel-speed
    formula. */
module WsCommon {
  import opened EspTypes

  /** C `int` on the ESP32. */
  type int32 = x: int | -0x8000_0000 <= x < 0x8000_0000

  /** The on-board LED pin. */
  const LED_BUILTIN: nat := 4

  /** Address of the persisted speed byte in the emulated EEPROM. */
  const EEPROM_SPEED_ADDR: nat := 0

  datatype Level = Low | High

  /** One actuator call or reply, in the order the handler issues them. */
  datatype Effect =
    | CarForward(left: int, right: int)      // Car_forward(lspeed, rspeed)
    | CarStop                                // Car_stop()
    | DigitalWrite(pin: nat, level: Level)
    | EepromWrite(address: nat, value: byte)
    | EepromCommit
    | WsSend(payload: seq<byte>)             // httpd_ws_send_frame of a text frame

  /** The keys a handler reads from the decoded document. A key is None when
      it is absent or holds a value of another type; ArduinoJson then yields
      the `| default` value, or NULL where there is no default. */
  datatype JsonDoc = JsonDoc(
    cmd: Option<string>,
    action: Option<string>,
    state: Option<string>,
    angle: Option<int32>,
    speed: Option<int32>)

  /** One call of a handler. `Open` is the HTTP GET that opens the socket.
      `WsFrame` is a data frame: the status of the length probe, the length
      it reports, whether the payload buffer could be allocated, the status
      of the payload read, the FIN bit, and the document deserialisation
      yields (None for a parse error). */
  datatype WsRequest =
    | Open
    | WsFrame(lengthRecv: EspErr, len: nat, allocOk: bool, payloadRecv: EspErr,
              final: bool, json: Option<JsonDoc>)

  /** Where the receive sequence leaves a data frame. */
  datatype Received =
    | Abort(code: EspErr)
    | EmptyMessage
    | Payload(final: bool, json: Option<JsonDoc>)

  /** The length probe, the allocation of len + 1 bytes and the payload read,
      each of which ends the call on failure with its own code. */
  function Receive(r: WsRequest): (rc: Received)
    requires r.WsFrame?
    ensures rc.Abort? ==> rc.code != ESP_OK
    ensures r.lengthRecv != ESP_OK ==> rc == Abort(r.lengthRecv)
    ensures r.lengthRecv == ESP_OK && 0 < r.len && r.allocOk && r.payloadRecv != ESP_OK ==> rc == Abort(r.payloadRecv)
    ensures rc.EmptyMessage? <==> r.lengthRecv == ESP_OK && r.len == 0
    ensures rc.Payload? <==> r.lengthRecv == ESP_OK && 0 < r.len && r.allocOk && r.payloadRecv == ESP_OK
    ensures rc.Payload? ==> rc.final == r.final && rc.json == r.json
    ensures rc == Abort(ESP_ERR_NO_MEM) <== r.lengthRecv == ESP_OK && 0 < r.len && !r.allocOk
  {
    if r.lengthRecv != ESP_OK then Abort(r.lengthRecv)
    else if r.len == 0 then EmptyMessage
    else if !r.allocOk then Abort(ESP_ERR_NO_MEM)
    else if r.payloadRecv != ESP_OK then Abort(r.payloadRecv)
    else Payload(r.final, r.json)
  }

  /** The document a handler dispatches on: present exactly when a complete,
      single-frame payload arrived and parsed. */
  function Command(r: WsRequest): (c: Option<JsonDoc>)
    ensures c.Some? <==> r.WsFrame? && Receive(r).Payload? && r.final && r.json.Some?
    ensures c.Some? ==> c == r.json
  {
    if r.WsFrame? && Receive(r).Payload? && r.final then r.json else None
  }

  /** The LED write for a `state` value: only "on" and "off" touch the pin. */
  function LedEffects(state: string): (e: seq<Effect>)
    ensures e != [] <==> state == "on" || state == "off"
    ensures state == "on" ==> e == [DigitalWrite(LED_BUILTIN, High)]
    ensures state == "off" ==> e == [DigitalWrite(LED_BUILTIN, Low)]
  {
    if state == "on" then [DigitalWrite(LED_BUILTIN, High)]
    else if state == "off" then [DigitalWrite(LED_BUILTIN, Low)]
    else []
  }

  /** A double holding n / 2 converted to int: C truncates toward zero. */
  function Half(n: int): (h: int)
    ensures 2 * h == n || (0 < n && 2 * h == n - 1) || (n < 0 && 2 * h == n + 1)
  {
    if n >= 0 then n / 2 else -((-n) / 2)
  }

  /** `speed ± angle * 0.5`, computed in double and truncated to int: the
      left and right wheel speeds handed to `Car_forward`. */
  function WheelSpeeds(speed: int, angle: int): (int, int) {
    (Half(2 * speed + angle), Half(2 * speed - angle))
  }

  /** For an even angle the wheels turn at exactly speed + angle/2 and
      speed - angle/2: they differ by the angle and average the speed. */
  lemma WheelSpeedsEven(speed: int, angle: int)
    requires angle % 2 == 0
    ensures WheelSpeeds(speed, angle) == (speed + angle / 2, speed - angle / 2)
    ensures WheelSpeeds(speed, angle).0 - WheelSpeeds(speed, angle).1 == angle
  {
  }

  /** Each wheel is within half a unit of the exact value, rounded toward zero. */
  lemma WheelSpeedsNearExact(speed: int, angle: int)
    ensures var (l, r) := WheelSpeeds(speed, angle);
      -1 <= 2 * l - (2 * speed + angle) <= 1 && -1 <= 2 * r - (2 * speed - angle) <= 1
    ensures var (l, r) := WheelSpeeds(speed, angle);
      (0 <= 2 * speed + angle ==> 0 <= l) && (2 * speed + angle <= 0 ==> l <= 0) &&
      (0 <= 2 * speed - angle ==> 0 <= r) && (2 * speed - angle <= 0 ==> r <= 0)
  {
  }

  /** Steering the other way swaps the wheels; straight ahead drives both at the speed. */
  lemma WheelSpeedsMirror(speed: int, angle: int)
    ensures WheelSpeeds(speed, -angle) == (WheelSpeeds(speed, angle).1, WheelSpeeds(speed, angle).0)
    ensures WheelSpeeds(speed, 0) == (speed, speed)
  {
  }

  /** Worked examples: angle 30 at speed 50, and an odd angle to the other side. */
  lemma WheelSpeedsExample()
    ensures WheelSpeeds(50, 30) == (65, 35)
    ensures WheelSpeeds(50, -31) == (34, 65)
  {
  }

  /** The three globals the PC and phone handlers share. */
  datatype CarState = CarState(carAngle: int32, carSpeed: int32, setSpeed: int32)

  /** What one handler call does: the new globals, the calls issued, the return code. */
  datatype Outcome = Outcome(state: CarState, effects: seq<Effect>, code: EspErr)

  /** Every motor command of an outcome agrees with the globals it leaves:
      `Car_forward` drives the wheels at the recorded speed and angle, which
      is not zero, and `Car_stop` leaves the recorded speed at zero. */
  predicate MotorsAgree(o: Outcome) {
    forall i :: 0 <= i < |o.effects| ==>
      (o.effects[i].CarForward? ==>
         o.state.carSpeed != 0 &&
         (o.effects[i].left, o.effects[i].right) == WheelSpeeds(o.state.carSpeed, o.state.carAngle)) &&
      (o.effects[i].CarStop? ==> o.state.carSpeed == 0)
  }

  /** The globals, zero at boot, as the handlers update them in place. */
  class CarGlobals {
    var carAngle: int32
    var carSpeed: int32
    var setSpeed: int32

    function State(): CarState
      reads this
    {
      CarState(carAngle, carSpeed, setSpeed)
    }

    constructor()
      ensures State() == CarState(0, 0, 0)
    {
      carAngle, carSpeed, setSpeed := 0, 0, 0;
    }
  }
}
