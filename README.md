# esp32AiCar firmware core in Dafny

This project models two parts of the ESP32 camera-car firmware and proves properties about them.

The first part is the camera stream engine of `app_server.h`:

- **Attachment counter.** `client_count`, `capture_task_handle` and `capture_task_running` are guarded by `client_count_semaphore`. Each stream handler counts itself in on entry and out on exit. The first viewer starts the capture task and the last one stops it.
- **Frame slot.** `shared_fb` is guarded by `xSemaphore`. The capture task gives the previous frame back to the camera driver and fetches the next one.
- **Sending.** `send_frame` copies the slot out and sends it as one `multipart/x-mixed-replace` part: header, JPEG bytes, boundary.

The second part is the WebSocket command dispatch:

- **`alt_ws_handler`** (`jsonContwsPC.h`) serves the PC client. Its commands are `move`, `led`, `set_speed` and `get_speed`.
- **`ws_handler`** (`jsonContwsHP.h`) serves the phone client. Its commands are `move` and `stop`, and it drives at the speed the PC stored.
- **Plain `ws_handler`** (`jsonContws.h`) is an unregistered alternate. It switches the LED and acknowledges every complete frame.

Modules:

| file | module | contents |
|---|---|---|
| `esp_types.dfy` | `EspTypes` | octets, `esp_err_t` codes, `Option`, ASCII literals, concatenation of sent pieces |
| `decimal.dfy` | `Decimal` | `%u` and signed decimal text, with the parsers that read them back |
| `multipart.dfy` | `Multipart` | stream constants, part header, `snprintf`, chunk layout, a multipart parser as its round-trip partner |
| `stream_server.dfy` | `StreamServer` | lifecycle transitions and their invariant; the `Attachment` and `FrameSlot` classes with the capture task, `send_frame`, the session loop and the stream handler |
| `ws_common.dfy` | `WsCommon` | car globals, actuator effects, decoded JSON command, receive sequence, wheel-speed formula |
| `ws_pc.dfy` | `WsPc` | `alt_ws_handler` |
| `ws_hp.dfy` | `WsHp` | phone `ws_handler` |
| `ws_basic.dfy` | `WsBasic` | plain `ws_handler` |

**Form of the model.**

- Each mutex-guarded critical section is one atomic method.
- Camera frames are followed with two ghost sequences: the frames acquired from the driver and the frames returned to it.
- Each handler's globals are updated in place by a method (`AltWsHandle`, `WsHandle`). That method is proved equal to a transition function (`AltWsHandler`, `WsHandler`), and the properties are proved about the function.
- Outside effects become inputs:
  - what the camera driver returns;
  - whether `malloc` succeeds;
  - what each transport call returns;
  - the document ArduinoJson decodes.
- Actuator calls and replies become a list of `Effect` values.

**Behaviour worth noting, modelled as the code has it:**

- A failed `esp_camera_fb_get` empties the slot (app_server.h:205): the previous frame has already been given back, and the next `send_frame` sends nothing and returns ESP_OK.
- The comment at app_server.h:61 says the task starts because the first client connected. The code tests instead whether `capture_task_handle` is NULL after the increment (app_server.h:59-65). Under the lifecycle invariant the two conditions coincide (`AttachKeepsInv`).
- The capture task's teardown (app_server.h:217-223) runs once the last viewer has lowered the flag. The engine-level steps `Join`, `CaptureWhileRunning` and `Leave` are what sessions are made of, overlapping ones included; `Leave` runs the teardown (`FrameSlot.Drain`) right after a detach that leaves no task running. Each step keeps the engine invariant `EngineInv`: while no task runs, the slot is empty and every frame acquired has been given back. `StreamHandler` is `Join`, the send loop, then `Leave`.

**Conformance of the stream.** The stream never sends an opening dash-boundary before its first part (app_server.h:184-190 send header, bytes, then the delimiter). Under RFC 2046 the text before the first delimiter is preamble, so a strict multipart reader discards the first frame. The parser here reads the layout the writer produces, and the round trips show only that this layout is reversible, not that the stream conforms to RFC 2046.

## Model

| member | source | states |
|---|---|---|
| Decimal.Digits | app_server.h:42 | `%u` text is at least one decimal digit and has no leading zero unless the value is 0 |
| Decimal.NatRoundTrip | app_server.h:42 | `%u` text followed by a non-digit parses back to the same value and its length |
| Decimal.DigitsOfU32 | app_server.h:184 | a 32-bit `size_t` prints in at most 10 digits |
| Decimal.IntRoundTrip | jsonContwsPC.h:121-128 | an int as the JSON writer prints it (optional minus, digits) parses back to the same int |
| Decimal.SignedDigitsOfI32 | jsonContwsPC.h:122-128 | a 32-bit int prints in at most 11 bytes |
| Multipart.BoundaryConforms | app_server.h:39 | the boundary string obeys the boundary grammar of section 5.1.1 of RFC 2046 (1 to 70 allowed characters, no trailing space) |
| Multipart.PartHeaderFits | app_server.h:42 | for every 32-bit length the part header is at most 56 bytes, so `snprintf` into the 64-byte `part_buf` neither truncates it nor returns more than was stored |
| Multipart.ChunkBytes | app_server.h:184-191 | one frame goes out as header, exactly the frame bytes, then the boundary delimiter |
| Multipart.PartRoundTrip | app_server.h:184-191 | a sent part parses back to exactly the frame bytes, whatever follows it |
| Multipart.StreamRoundTrip | app_server.h:71-75 | the bytes of successive parts parse back to the sequence of frames sent |
| StreamServer.AccountedCounts | app_server.h:199-223 | under exact-once accounting every acquired frame is returned once, in order, except the one still in the slot, which is the last acquired |
| StreamServer.AttachKeepsInv | app_server.h:58-68 | attach adds exactly one client, keeps the lifecycle invariant, creates a task only on the 0 to 1 transition and never replaces an existing handle |
| StreamServer.DetachKeepsInv | app_server.h:78-94 | detach removes exactly one client and keeps the invariant; it retires the task only on the 1 to 0 transition; otherwise the flag and handle are unchanged |
| StreamServer.SessionRestores | app_server.h:58-94 | one session with no other arrivals leaves counter, handle and flag as they were |
| StreamServer.ScheduleKeepsInv | app_server.h:103-145 | under any interleaving of sessions, each attaching and detaching once, the counter equals the number of open sessions, a capture task exists and runs exactly while it is positive, and at most one task is live |
| StreamServer.TwoViewers | app_server.h:58-94 | with two overlapping viewers one task is created and it is retired only after the second viewer leaves |
| StreamServer.Attachment.constructor | app_server.h:23-26 | at boot the counter is 0, there is no handle and the flag is down |
| StreamServer.Attachment.Attach | app_server.h:58-68 | the entry critical section performs exactly the attach transition |
| StreamServer.Attachment.Detach | app_server.h:78-94 | the exit critical section performs exactly the detach transition |
| StreamServer.FrameRound | app_server.h:151-197 | `send_frame` returns ESP_OK and sends nothing on an empty slot; it returns ESP_ERR_NO_MEM and sends nothing when the copy cannot be allocated; otherwise it returns ESP_OK exactly when all three sends succeed, every piece it delivered was accepted, and a failure returns the code of the first failing send; what it sends is always a prefix of header, bytes, boundary, complete exactly when it returns ESP_OK |
| StreamServer.RunStops | app_server.h:71-75 | when the call at which the loop resumed fails, the loop ends there with that call's code and pieces |
| StreamServer.RunContinues | app_server.h:71-75 | when that call succeeds, the loop resumes at the next call with the call's pieces delivered, and a later call still fails |
| StreamServer.EmptySlotRetries | app_server.h:169-174 | a call that finds the slot empty sends nothing and the loop goes on as if from an empty slot with the remaining calls: an empty slot is a retry, not an error |
| StreamServer.SessionStream | app_server.h:71-75 | while every call succeeds, the wire carries one complete part per call that found a frame, and the client parses back exactly those frames in order |
| StreamServer.FirstViewerAfterBoot | app_server.h:169-174 | the first viewer after boot meets an empty slot and gets no error; a later call sends the frame captured meanwhile; the session ends at the first failed send |
| StreamServer.FrameSlot.constructor | app_server.h:29 | the slot starts empty with nothing acquired or returned |
| StreamServer.FrameSlot.CaptureStep | app_server.h:201-211 | the held frame is returned before fetching; afterwards the slot holds what the driver gave, NULL on failure; exact-once accounting is kept |
| StreamServer.FrameSlot.Drain | app_server.h:217-223 | teardown returns the held frame once and empties the slot |
| StreamServer.FrameSlot.Capture | app_server.h:200-214 | after some iterations of the capture loop the slot holds the last fetch result, a failed one included, and the frames acquired are exactly the successful fetches |
| StreamServer.FrameSlot.CaptureTask | app_server.h:199-227 | over the task's whole life the frames acquired are exactly the successful fetches, and all of them have been returned when it ends |
| StreamServer.FrameSlot.Snapshot | app_server.h:158-174 | on an empty slot: ESP_OK and no copy; on allocation failure: ESP_ERR_NO_MEM and no copy; otherwise a fresh buffer of the frame's length holding exactly its bytes |
| StreamServer.FrameSlot.SendFrame | app_server.h:151-197 | the copy, the header formatted into `part_buf` and the three sends behave exactly as `FrameRound` |
| StreamServer.FrameSlot.SendLoop | app_server.h:71-75 | with the capture iterations between calls as inputs, starting from any slot content (an empty one included), the loop stops at the first failing `send_frame`; its code, the pieces delivered and the final slot content are those of `Run`; the frames acquired are exactly the successful fetches of the iterations before each call, up to the failing one (`Fetched`) |
| StreamServer.StreamHandler | app_server.h:52-99 | a stream handler always returns ESP_OK, delivers exactly the pieces of its session's `Run`, acquires exactly the session's `Fetched` frames, performs one attach and one detach, and, when the lifecycle invariant held on entry (as `ScheduleKeepsInv` guarantees from boot), leaves counter, handle and flag as it found them; while a task still runs the slot holds what the session's `Run` left, and once none runs the retired task's teardown has emptied it and every frame acquired has been returned; the engine invariant is kept |
| StreamServer.Join | app_server.h:58-68 | the attach step keeps the engine invariant and leaves the capture flag raised |
| StreamServer.CaptureWhileRunning | app_server.h:200-212 | a capture iteration, which runs only while the flag is raised, keeps the engine invariant and the exact-once accounting |
| StreamServer.Leave | app_server.h:78-94 | the detach step; when it leaves no task running, the retired task's teardown has emptied the slot and every frame acquired has been returned; otherwise the slot is untouched; the engine invariant is kept |
| StreamServer.TwoViewersEngine | app_server.h:52-149 | with viewers A and B overlapping (A joins, B joins, A leaves, B leaves) and frames captured in between, the frame stays for B when A leaves and the slot is empty once B has left |
| StreamServer.OnlyViewerLeavesSlotEmpty | app_server.h:52-99 | after the only viewer since boot has left, the slot is empty, whatever frames were captured during its session |
| WsCommon.Receive | jsonContwsPC.h:33-58 | the length probe's error code is returned unchanged; a zero length is an empty message; allocation failure is ESP_ERR_NO_MEM; a payload read error code is returned unchanged; only a fully read payload reaches the FIN check |
| WsCommon.Half | jsonContwsPC.h:94-95 | converting `x * 0.5` to int truncates toward zero |
| WsCommon.WheelSpeedsEven | jsonContwsPC.h:94-95 | for an even angle the wheel speeds are exactly speed + angle/2 and speed - angle/2 |
| WsCommon.WheelSpeedsNearExact | jsonContwsHP.h:91-92 | each wheel speed is within half a unit of its exact value, and each is on the same side of zero as its exact value |
| WsCommon.WheelSpeedsMirror | jsonContwsHP.h:91-92 | negating the angle swaps the wheels; angle 0 drives both wheels at the speed |
| WsCommon.WheelSpeedsExample | jsonContwsPC.h:94-95 | angle 30 at speed 50 gives 65 and 35; angle -31 gives 34 and 65 |
| WsCommon.CarGlobals.constructor | jsonContwsPC.h:15-17 | `car_angle`, `car_speed` and `set_speed` start at 0 |
| WsPc.SpeedReportRoundTrip | jsonContwsPC.h:121-128 | the `get_speed` reply reads back as exactly the angle and speed it was built from |
| WsPc.SpeedReportFits | jsonContwsPC.h:127-128 | for any two C ints the reply is at most 49 bytes and fits the 64-byte buffer with its NUL |
| WsPc.Dispatch | jsonContwsPC.h:86-142 | every command branch returns ESP_OK |
| WsPc.AltWsHandler | jsonContwsPC.h:21-163 | a failing call changes no global and issues nothing; `set_speed` changes only together with writing its low byte to EEPROM address 0 and committing; every motor command matches the globals left behind; the motion globals change only with a motor command, or on open, which zeroes the speed; receive errors return their own codes unchanged, allocation failure ESP_ERR_NO_MEM |
| WsPc.AltWsHandle | jsonContwsPC.h:21-163 | the handler updating the globals in place does exactly what `AltWsHandler` says |
| WsPc.DispatchesCommand | jsonContwsPC.h:62-86 | a data frame acts exactly as the command branch says on the parsed document when one was delivered; any other data frame changes no global and issues nothing |
| WsPc.MoveDrives | jsonContwsPC.h:87-100 | `move` records angle and speed; it drives the wheels at the truncated speeds when the speed is non-zero and stops the car otherwise |
| WsPc.MoveWithoutSpeedStops | jsonContwsPC.h:80-100 | a `move` without a speed key records speed 0 and stops the car |
| WsPc.MoveExample | jsonContwsPC.h:87-97 | `move` at angle 30 and speed 50 issues Car_forward(65, 35) |
| WsPc.LedSwitches | jsonContwsPC.h:101-110 | `led` leaves the globals, writes the LED for "on"/"off" and nothing otherwise, and returns ESP_OK |
| WsPc.SetSpeedPersists | jsonContwsPC.h:111-116 | `set_speed` stores the speed, persists its low byte at address 0 and commits, and leaves angle and speed alone |
| WsPc.GetSpeedReports | jsonContwsPC.h:119-141 | `get_speed` changes nothing and sends one reply that fits its buffer and reads back as the current angle and speed |
| WsPc.UnknownIgnored | jsonContwsPC.h:86-142 | any other or missing `cmd` returns ESP_OK with no effect and no change |
| WsPc.RejectsAndEmpty | jsonContwsPC.h:62-76 | a fragment or a parse error returns ESP_FAIL and changes nothing; an empty message returns ESP_OK and changes nothing |
| WsPc.OpenThenReportZero | jsonContwsPC.h:22-27 | right after the socket opens, `get_speed` reports speed 0 with the angle unchanged |
| WsHp.Dispatch | jsonContwsHP.h:79-100 | every command branch returns ESP_OK |
| WsHp.WsHandler | jsonContwsHP.h:21-121 | `set_speed` is never written; a failing call changes nothing; only Car_forward/Car_stop are issued, each matching the globals left behind; open sets the angle to the stored speed; receive errors return their own codes unchanged, allocation failure ESP_ERR_NO_MEM |
| WsHp.WsHandle | jsonContwsHP.h:21-121 | the handler updating the globals in place does exactly what `WsHandler` says |
| WsHp.DispatchesCommand | jsonContwsHP.h:62-82 | a data frame acts exactly as the command branch says on the parsed document when one was delivered; any other data frame changes no global and issues nothing |
| WsHp.MoveUsesStoredSpeed | jsonContwsHP.h:83-95 | `move` sets the angle and takes the stored speed as the current speed; it drives only if that speed is non-zero, and otherwise issues no motor command at all |
| WsHp.StopStops | jsonContwsHP.h:96-100 | `stop` zeroes the speed, keeps the angle and issues Car_stop |
| WsHp.OthersIgnored | jsonContwsHP.h:62-76 | other commands and empty messages change nothing and return ESP_OK; fragments and parse errors change nothing and return ESP_FAIL |
| WsHp.IgnoresOtherKeys | jsonContwsHP.h:79-80 | the `speed`, `state` and `action` keys make no difference to the outcome |
| WsHp.PhoneMovesAtPcSpeed | jsonContwsHP.h:15-17 | after the PC stores a non-zero speed, a phone `move` drives at that speed and the requested angle |
| WsBasic.LedAction | jsonContws.h:66-78 | the LED is written only for the action "led" |
| WsBasic.WsHandler | jsonContws.h:13-98 | "Message received" is sent exactly for complete final frames, parsed or not; the code is ESP_OK unless a receive step fails or the frame is a fragment; a failing call sends nothing; only the LED and the reply are touched; receive errors return their own codes unchanged, allocation failure ESP_ERR_NO_MEM |
| WsBasic.LedSwitches | jsonContws.h:70-77 | "led" with "on"/"off" writes the pin before the reply; anything else writes nothing |
| WsBasic.ParseErrorAcknowledged | jsonContws.h:61-64 | a complete frame that fails to parse is still acknowledged with ESP_OK |

## Left out

- FreeRTOS scheduling is not modelled. Each mutex-guarded section is one atomic step. `xSemaphoreTake` with `portMAX_DELAY` is taken to succeed, so the ESP_FAIL branch of `send_frame` (app_server.h:177-180) is not modelled.
- The capture task's teardown is taken to finish before the handler that retired the task returns; the FreeRTOS timing that makes this hold in practice (the 100 ms grace delay against the 10 ms loop delay) is not modelled.
- The 100 ms grace delay in detach, and the clearing of `capture_task_handle` after the mutex is released (app_server.h:83-87), are modelled as happening inside the critical section. The race this opens is a known gap: a new viewer can attach during the delay, see the stale handle and start no task.
- StreamServer.Attachment.Attach: assumes `xTaskCreate` succeeds and hands out a fresh handle, and does not follow the task's execution.
- The capture task's interleaving with sending is an input. Each `send_frame` call comes with the capture iterations that completed since the previous call, and `CaptureTask` takes the driver's results as a sequence. Which iterations fall between two calls is decided by the FreeRTOS scheduler, which is not modelled.
- The 10 ms delays and `vTaskDelete` are left out: they change no modelled state.
- StreamServer.FrameSlot.SendLoop: assumes the session ends within the given calls, that is, some `send_frame` call among them fails, because the source loop ends only then. An empty slot is no such failure: it is a retry. An endless stream is not modelled.
- The camera driver, `malloc` and the transport calls (`httpd_resp_send_chunk`, `httpd_ws_recv_frame`, `httpd_ws_send_frame`) are inputs. Their failures are modelled; their inner workings are not.
- `httpd_resp_set_type` and the HTTP server setup in `startCameraServer` (app_server.h:232-313) are wiring and are not modelled.
- ArduinoJson is not modelled. A handler receives the decoded keys, None for a key that is absent or has another type, or None for a parse error. Capacity overflow of the 256-byte document counts as a parse error.
- Serialisation of the `get_speed` reply is modelled as the text ArduinoJson writes for a two-member integer object.
- Motor calls, `digitalWrite`, EEPROM writes and WebSocket replies are effect values. The hardware behind them (SetMotor.h) is not part of this model.
- The EEPROM byte is the new speed modulo 256, as the conversion to `uint8_t` gives.
- The send result of the `get_speed` reply is ignored by the source and by the model.
- `Serial` logging is not modelled.
- WsCommon.WheelSpeeds: computed on unbounded integers. The conversion of an out-of-range double to `int` is undefined in C and is not modelled; it needs |speed| and |angle| near 2^31.
- The globals are `int32` values, set only from decoded `int32` fields, so no overflow arises in them.
- WsBasic.WsHandler: requires `action`, and `state` when the action is "led", to be present strings. The source passes them to `strcmp` without a null check, and a missing key is undefined behaviour there.
