# LoRaWAN balloon tracker: main loop, uplink frames and LoRa event handling

This project models the main module of an ESP32 high-altitude balloon tracker. The tracker
joins a LoRaWAN network (Helium) and sends telemetry uplinks:

- GPS frames on port 2;
- GPSLOST frames on port 6, sent when the fix is unusable;
- STATUS frames on port 5, sent until the first ACK arrives;
- PING frames on port 1, sent on request by a downlink, after which the device restarts.

Each pass of `loop` does the following, in order:

1. Notes whether the GPS produced a new fix.
2. Restarts the device when too many confirmed uplinks went unacknowledged.
3. Re-sends STATUS every 30 s while no ACK has been seen.
4. Sends a requested ping.
5. Otherwise sends the periodic GPS or GPSLOST uplink and records whether it failed.

The model has five modules:

- `Units`: the firmware's fixed-width integers, the wrapping `unsigned long` clock difference,
  and the big-endian byte packing with its round-trip proofs.
- `FixFilter`: the GPS sample and the two fix filters (`gps_uplink` and `ping_uplink`).
- `Payload`: the byte layout of the 24-byte `txBuffer` for each frame kind. This covers the
  lat/lon scaling, the battery byte, the speed clamp and the zero-filled blocks of a dead sensor.
- `Scheduler`: the globals as one `State` value, and every routine as a function from the state
  before to the state after. Each function also gives the `UplinkResult`, or the `Outcome` of a
  pass (continue, or `ESP.restart()` and why). The properties of whole routines and of a loop
  pass are proved here as lemmas. The lemmas about the filters, the byte layouts and the packing
  sit in `FixFilter`, `Payload` and `Units`.
- `Firmware`: the firmware as it runs. Its class `Tracker` has the globals as fields, and its
  `txBuffer` is a 24-byte array that the packers write byte by byte. Each method is proved to
  leave the object exactly in the state given by the matching `Scheduler` or `Payload` function.

The radio is modelled in three parts:

- Its readiness comes from `LMIC_queryTxReady()` and the pending-job bit. It is an input
  refreshed once per pass where `ttn_loop` runs, and an accepted send makes the radio busy.
- Every `ttn_send` the radio accepts, and every `ttn_set_sf`, is appended to a log of radio calls.
- Whether `ttn_send` accepts a frame is an input of a pass (`Tick`), with one value per send
  the pass can make. One value covers the STATUS retry or the periodic uplink, which never both
  run in one pass. The other covers the PING, which can follow a refused STATUS in the same pass.
- `ttn_get_count()`, `millis()`, the GPS parser, the sensor readings and the battery voltage are
  inputs of a pass too.

`lora_msg_callback` runs inside `ttn_loop` (main.cpp line 497), after the fix check of the same
pass. The model applies each event between passes instead. `Scheduler.EventCommutesWithNoteFix`
proves this order does not matter: the handler and the fix check touch different globals.

Two behaviours are kept as the code has them:

- `status_uplink` returns a `bool` made from the result enum, so success (value 0) becomes
  `false`. `Firmware.Tracker.StatusUplink` returns that value as `failed`. The loop ignores it.
- `ack_req` is incremented whenever a confirmed frame passes the `ready()` gate, even when
  `ttn_send` then refuses the frame.

## Model

| member | source | states |
|---|---|---|
| Units.Elapsed | main/main.cpp:529-534 | `now - since` on 32-bit timestamps is the plain difference, or that plus 2^32 when the clock wrapped |
| Units.Be16RoundTrip | main/main.cpp:225-226 | the two bytes `(v >> 8) & 0xFF, v & 0xFF` reassemble to `v` modulo 2^16 |
| Units.Be24RoundTrip | main/main.cpp:144-149 | the three bytes of a 24-bit field reassemble to `v` modulo 2^24 |
| Units.Decode24Inverse | main/main.cpp:144-146 | any three bytes, reassembled and packed again, are the same bytes |
| Units.Decode16Inverse | main/main.cpp:158-159 | any two bytes, reassembled and packed again, are the same bytes |
| FixFilter.FixUsable | main/main.cpp:287-297 | the guard of `gps_uplink`: all six components valid, at least 4 satellites, neither coordinate exactly zero; `Scheduler.BadFixIff` ties it to the result |
| FixFilter.PingFixUsable | main/main.cpp:326-327 | the guard of `ping_uplink`: all six components valid and at least 4 satellites |
| FixFilter.ThreeSatellitesRejected | main/main.cpp:291-293 | three satellites never pass the uplink filter or the ping filter |
| FixFilter.PingFilterWeaker | main/main.cpp:326-327 | the ping filter accepts every fix the uplink filter accepts, and differs from it only on a zero coordinate |
| FixFilter.ZeroLatitudeOnlyPassesPing | main/main.cpp:295-297 | a concrete fix with latitude 0 passes the ping filter and fails the uplink filter |
| Payload.LatitudeBinary | main/main.cpp:141 | the latitude scaled from [-90, 90] onto [0, 2^24 - 1] and truncated; properties in `Payload.LatitudeQuantisation` |
| Payload.LongitudeBinary | main/main.cpp:142 | the longitude scaled from [-180, 180] onto [0, 2^24 - 1] and truncated; properties in `Payload.LongitudeQuantisation` |
| Payload.LatLonBytes | main/main.cpp:137-150 | the six bytes `pack_lat_lon` writes: both scaled values, 24-bit big-endian; decoded by `Payload.LatLonLayout` |
| Payload.LatitudeQuantisation | main/main.cpp:141 | a latitude in [-90, 90] maps into [0, 2^24 - 1], and the decoded cell it lands in contains it |
| Payload.LongitudeQuantisation | main/main.cpp:142 | a longitude in [-180, 180] maps into [0, 2^24 - 1], and the decoded cell it lands in contains it |
| Payload.LatLonMonotone | main/main.cpp:141-142 | the lat/lon encoding preserves order |
| Payload.LatLonLayout | main/main.cpp:137-150 | bytes 0-2 decode to the latitude value and bytes 3-5 to the longitude value, each modulo 2^24 |
| Payload.BatteryByte | main/main.cpp:192-195 | from 2.00 V to 4.55 V the byte is the voltage in 10 mV steps above 2.00 V; outside that range it wraps modulo 256 |
| Payload.BatteryByteEnds | main/main.cpp:194 | 2.00 V gives 0 and 4.55 V gives 255; 1.99 V wraps to 255 and 4.56 V wraps to 0 |
| Payload.BatteryByteMonotone | main/main.cpp:193-194 | within the 2.00-4.55 V range a higher voltage never gives a lower byte |
| Payload.SpeedByte | main/main.cpp:211-213 | the speed byte is the speed in km/h, or 255 when the speed is higher; it never exceeds the speed |
| Payload.UptimeMinutes | main/main.cpp:205 | whole minutes since boot, `millis() / 1000 / 60` |
| Payload.MinutesLost | main/main.cpp:204 | whole minutes since the last fix over the wrapped clock difference, kept to 16 bits as the `uint16_t` does |
| Payload.SensorBlock | main/main.cpp:152-177 | bytes 15-21: temperature, pressure and humidity big-endian, or seven zeros for a dead BME280; decoded by `Payload.SensorBlockLayout` |
| Payload.UvBlock | main/main.cpp:179-190 | bytes 22-23: the UV reading big-endian, or two zeros for a dead LTR390; decoded by `Payload.UvBlockLayout` |
| Payload.TelemetryHead | main/main.cpp:229-236 | bytes 9-14: battery byte, satellite count, uptime and minutes lost |
| Payload.TelemetryTail | main/main.cpp:229-239 | bytes 9-23 shared by the GPS and GPSLOST frames; decoded by `Payload.TelemetryTailLayout` |
| Payload.GpsFrame | main/main.cpp:198-240 | the 24 bytes `build_full_packet` leaves in the buffer; laid out by `Payload.GpsFrameLayout` |
| Payload.GpslostFrame | main/main.cpp:261-275 | the 24 bytes `gpslost_uplink` leaves in the buffer; laid out by `Payload.GpslostFrameLayout` |
| Payload.StatusFrame | main/main.cpp:243-247 | the 8 bytes `status_uplink` writes; laid out by `Payload.StatusFrameLayout` |
| Payload.PingFrame | main/main.cpp:326-341 | the 8 bytes `ping_uplink` writes in either branch; laid out by `Payload.PingFrameLayout` |
| Payload.SensorBlockLayout | main/main.cpp:152-165 | for a live BME280, bytes 15-21 decode to temperature (16 bits), pressure (24 bits) and humidity (16 bits) |
| Payload.UvBlockLayout | main/main.cpp:179-184 | for a live LTR390, bytes 22-23 decode to the UV reading modulo 2^16 |
| Payload.DeadSensorsZeroed | main/main.cpp:166-189 | a dead sensor's block is all zeros in both GPS and GPSLOST frames |
| Payload.TelemetryTailLayout | main/main.cpp:229-239 | bytes 9-23 hold the battery byte, the satellite count, uptime minutes, minutes since the last fix, and the two sensor blocks |
| Payload.GpsFrameLayout | main/main.cpp:198-240 | a GPS frame holds the current position, the altitude, the clamped speed, then the telemetry tail |
| Payload.GpslostFrameLayout | main/main.cpp:261-275 | a GPSLOST frame holds the last sent position, three zero placeholder bytes, then the telemetry tail |
| Payload.StatusFrameLayout | main/main.cpp:243-247 | a STATUS frame holds the last sent position, the battery byte and uptime minutes modulo 256 |
| Payload.PingFrameLayout | main/main.cpp:326-341 | a PING frame holds the current position and altitude when the ping filter passes, and otherwise the last sent position and two zero bytes |
| Scheduler.Ready | main/main.cpp:97-111 | `ready()`: joined, and the radio free for a new frame |
| Scheduler.Confirmed | main/main.cpp:259 | whether an uplink asks for an ACK: N positive and the frame count a multiple of N; cadence in `Scheduler.ConfirmedPeriodic` |
| Scheduler.SendUplink | main/main.cpp:113-134 | the state and result of `send_uplink`; stated by `Scheduler.SendUplinkEffect` |
| Scheduler.StatusUplink | main/main.cpp:242-252 | the STATUS bytes written, the status uplink counted and stamped, then the confirmed send on port 5 |
| Scheduler.GpslostUplink | main/main.cpp:254-278 | the GPSLOST frame written, then the send of all 24 bytes on port 6, confirmed by cadence |
| Scheduler.GpsUplink | main/main.cpp:281-311 | BADFIX with no change for a rejected fix; otherwise the GPS frame, the new last position and the send on port 2; stated by `Scheduler.BadFixIff` and `Scheduler.AcceptedFixRecorded` |
| Scheduler.Uplink | main/main.cpp:313-320 | GPS, falling back to GPSLOST on BADFIX; stated by `Scheduler.UplinkFallback` and `Scheduler.UplinkEffect` |
| Scheduler.PingUplink | main/main.cpp:322-343 | the PING bytes written, then the unconfirmed send on port 1 that does not stamp the send time |
| Scheduler.OnEvent | main/main.cpp:384-416 | `lora_msg_callback` without its logging; stated by `Scheduler.OnEventEffect` |
| Scheduler.NoteFix | main/main.cpp:488-497 | the fix check at the head of `loop`, and the radio readiness `ttn_loop` refreshes; stated by `Scheduler.NoteFixEffect` |
| Scheduler.StatusStep | main/main.cpp:528-531 | the STATUS retry when due; stated by `Scheduler.StatusStepEffect` |
| Scheduler.PingStep | main/main.cpp:535-539 | clear the request, mark the ping, set the ping data rate, send the ping; stated by `Scheduler.PingStepEffect` |
| Scheduler.PeriodicStep | main/main.cpp:546-553 | the uplink and the bookkeeping of its result; stated by `Scheduler.PeriodicStepEffect` |
| Scheduler.AckDeficitReached | main/main.cpp:523 | the watchdog guard: requested minus received ACKs at or above the threshold; stated by `Scheduler.WatchdogRestart` |
| Scheduler.StatusDue | main/main.cpp:529 | the STATUS retry guard: more than 30 s since the last STATUS, no ACK seen, and `ready()`; stated by `Scheduler.StatusStepEffect` and `Scheduler.StatusRetry` |
| Scheduler.PingDue | main/main.cpp:534 | the ping guard: no ping in flight, `ready()`, more than 10 s since the last uplink, and a ping requested; stated by `Scheduler.PingThenRestart` and `Scheduler.RestartAfterPingOnlyIfDue` |
| Scheduler.IntervalMs | main/main.cpp:545 | the uplink interval in milliseconds, `TX_INTERVAL * 1000` taken modulo 2^32 as the 32-bit product is; stated by `Scheduler.PeriodicUplink` |
| Scheduler.PeriodicDue | main/main.cpp:543-545 | the periodic guard: an ACK seen, no ping in flight, `ready()`, and the interval elapsed, nothing sent yet or the last attempt failed; stated by `Scheduler.PeriodicUplink`, `Scheduler.PeriodicOnlyIfDue` and `Scheduler.NotReadyPassQuiet` |
| Scheduler.LoopStep | main/main.cpp:485-555 | one pass of `loop` and its outcome; stated by the lemmas from `Scheduler.WatchdogRestart` to `Scheduler.LastSendOnlyOnSuccess` |
| Scheduler.SendUplinkEffect | main/main.cpp:113-134 | success exactly when ready and the radio accepts; only NOLORA otherwise; a confirmed frame counts an ACK request whenever the gate is open; only an accepted non-ping frame stamps `last_send_ms`; the frame logged is the first `length` buffer bytes; nothing else changes |
| Scheduler.SendGateClosed | main/main.cpp:97-118 | when not joined or the radio is busy, `send_uplink` changes nothing and returns NOLORA |
| Scheduler.ConfirmedPeriodic | main/main.cpp:259 | whether an ACK is requested depends only on the frame count modulo N |
| Scheduler.ConfirmedOncePerN | main/main.cpp:303 | after a confirmed frame count, the next N - 1 counts are unconfirmed |
| Scheduler.BadFixIff | main/main.cpp:286-297 | `gps_uplink` returns BADFIX exactly when some component is invalid, fewer than 4 satellites are seen, or a coordinate is exactly zero |
| Scheduler.BadFixChangesNothing | main/main.cpp:286-297 | a rejected fix returns BADFIX and leaves every global and the buffer as they were |
| Scheduler.AcceptedFixRecorded | main/main.cpp:299-310 | a usable fix always rewrites the buffer to the GPS frame and records the position; the result is SUCCESS exactly when ready and accepted, and a success logs exactly that frame on port 2 |
| Scheduler.UplinkIsOneSend | main/main.cpp:313-320 | `uplink` is exactly one `send_uplink`, of the GPS frame when the fix is usable and of the GPSLOST frame otherwise |
| Scheduler.UplinkFallback | main/main.cpp:313-320 | `uplink` never returns BADFIX; it falls back to GPSLOST exactly when the fix is unusable, which keeps the last sent position |
| Scheduler.UplinkEffect | main/main.cpp:281-320 | `uplink` logs at most one frame, succeeds exactly when ready and accepted, stamps the send time only then, and leaves the flags, status book, join and fix state alone |
| Scheduler.OnEventEffect | main/main.cpp:384-416 | each event sets its own seen flag; joining is one-way and sets the preferred data rate exactly once; ACK increments the received count and sets `ack_rec`; a downlink whose first byte is 0x01 requests a ping; nothing else changes |
| Scheduler.UnsolicitedAckCounted | main/main.cpp:394-398 | an ACK is counted whatever was requested: from boot, one ACK gives one received and none requested |
| Scheduler.EventCommutesWithNoteFix | main/main.cpp:488-497 | handling an event after the fix check of a pass gives the same state as handling it before |
| Scheduler.JoinNeedsBoth | main/main.cpp:384-392 | after any event sequence, the device is joined exactly when both JOINED and JOINING have been seen, in any order |
| Scheduler.JoinFromBoot | main/main.cpp:350-392 | from boot, joined exactly when both JOINED and JOINING occur in the event sequence |
| Scheduler.JoinConsistencyPreserved | main/main.cpp:384-392 | `isJoined` implies both seen flags, before and after every loop pass and every event |
| Scheduler.NoteFixEffect | main/main.cpp:488-497 | a changed fix count is stored and stamps the fix time; otherwise the fix time stays; the radio readiness is refreshed; nothing else changes |
| Scheduler.StatusStepEffect | main/main.cpp:528-531 | STATUS is re-sent exactly when 30 s have passed, no ACK has been seen and the radio is ready; it counts the status uplink and an ACK request, and logs the confirmed STATUS frame if accepted |
| Scheduler.PingStepEffect | main/main.cpp:533-540 | a ping clears the request, marks a ping in flight, sets the ping data rate, then logs the unconfirmed PING frame if ready and accepted; `last_send_ms` is not touched |
| Scheduler.PeriodicStepEffect | main/main.cpp:545-554 | a periodic attempt logs at most the uplink frame; success sets `transmitted` and clears `uplink_failed`; failure sets `uplink_failed` |
| Scheduler.WatchdogRestart | main/main.cpp:521-526 | the pass restarts for the ACK deficit exactly when requested minus received ACKs reaches the threshold, and then sends nothing |
| Scheduler.StatusRetry | main/main.cpp:528-531 | with no ACK yet, 30 s elapsed and the radio ready, the pass sends a confirmed STATUS and carries on |
| Scheduler.PingThenRestart | main/main.cpp:533-540 | given no ACK deficit, joined, the radio ready, no ping in flight, a ping requested and more than 10 s since the last uplink: unless a STATUS due in the same pass was accepted, the pass sets the ping data rate, logs the PING when it is accepted, leaves `last_send_ms` alone and ends in a restart, with or without an ACK seen |
| Scheduler.PeriodicUplink | main/main.cpp:542-555 | given no ACK deficit, an ACK seen, joined, the radio ready, no ping in flight and no ping due (a request still inside its 10 s hold-off does not count): the pass sends the uplink frame exactly when the interval elapsed, nothing was sent yet, or the last attempt failed, and then sets the flags from the result; otherwise it only notes the fix |
| Scheduler.AtMostOneFramePerTick | main/main.cpp:521-555 | one pass only appends radio calls, and at most one of them is a frame |
| Scheduler.AckGatesFrameKinds | main/main.cpp:528-555 | once an ACK has been seen, the status book is left alone and no STATUS frame is sent; before it, only STATUS or PING frames are sent |
| Scheduler.RestartAfterPingOnlyIfDue | main/main.cpp:521-540 | a pass restarts after a ping only when there is no ACK deficit, a ping was requested and none is in flight, the device is joined, the radio is ready and more than 10 s have passed since the last uplink |
| Scheduler.NotReadyPassQuiet | main/main.cpp:485-555 | when not joined or the radio is busy, the pass only notes the fix and never restarts after a ping |
| Scheduler.PeriodicOnlyIfDue | main/main.cpp:542-555 | without an ACK seen, with a ping in flight, or when not ready, the pass makes no periodic attempt: `transmitted`, `uplink_failed` and the last position stay, and only STATUS or PING frames go out |
| Scheduler.LastSendOnlyOnSuccess | main/main.cpp:521-555 | `last_send_ms` changes only to the current time, and only when exactly one frame was logged and it was not a ping |
| Firmware.Tracker.constructor | main/main.cpp:62-95 | the globals start at their initial values, with a zeroed 24-byte buffer |
| Firmware.Tracker.IsReady | main/main.cpp:97-111 | returns `ready()`: joined and the radio free |
| Firmware.Tracker.SendUplink | main/main.cpp:113-134 | updates the object as `send_uplink` does and returns its result |
| Firmware.Tracker.PackLatLon | main/main.cpp:137-150 | overwrites bytes 0-5 with the encoded position and leaves the rest of the buffer unchanged |
| Firmware.Tracker.PackBme280 | main/main.cpp:152-177 | overwrites bytes 15-21 with the BME280 block, zeros when the sensor is dead, and leaves the rest unchanged |
| Firmware.Tracker.PackLtr390 | main/main.cpp:179-190 | overwrites bytes 22-23 with the UV block, zeros when the sensor is dead, and leaves the rest unchanged |
| Firmware.Tracker.PackTelemetry | main/main.cpp:229-236 | overwrites bytes 9-14 with battery, satellites, uptime and minutes since the last fix |
| Firmware.Tracker.BuildFullPacket | main/main.cpp:198-240 | leaves the whole buffer equal to the GPS frame |
| Firmware.Tracker.StatusUplink | main/main.cpp:242-252 | writes the STATUS bytes, counts and stamps the status uplink, sends it, and returns true exactly when the send did not succeed |
| Firmware.Tracker.GpslostUplink | main/main.cpp:254-278 | writes the GPSLOST frame and sends all 24 bytes on port 6, confirmed by cadence |
| Firmware.Tracker.GpsUplink | main/main.cpp:281-311 | rejects a bad fix without any change; otherwise builds the GPS frame, records the position and sends it |
| Firmware.Tracker.Uplink | main/main.cpp:313-320 | GPS uplink, with GPSLOST on BADFIX |
| Firmware.Tracker.PingUplink | main/main.cpp:322-343 | writes the 8 PING bytes and sends them unconfirmed as a ping |
| Firmware.Tracker.LoraMsgCallback | main/main.cpp:349-417 | updates the join flags, ACK counters and ping request as the event handler does |
| Firmware.Tracker.RetryStatus | main/main.cpp:528-531 | the STATUS retry step of the loop |
| Firmware.Tracker.SendPing | main/main.cpp:533-540 | the ping step of the loop |
| Firmware.Tracker.PeriodicUplink | main/main.cpp:545-554 | the periodic uplink and its success bookkeeping |
| Firmware.Tracker.Loop | main/main.cpp:485-555 | one pass of `loop`: the new state and the outcome (continue or restart with its reason) are those of `LoopStep` |

## Left out

- Floating point: latitude, longitude and the sensor readings are exact reals, or integers as
  the firmware's casts give them. The lat/lon scaling is computed exactly and truncated. A double
  rounding step before the cast, and out-of-range coordinates (whose cast is undefined in C),
  are not modelled.
- Payload.BatteryByte: it takes the battery voltage already rounded to 10 mV units. The
  `float_t` division and the `+ .5` rounding of `axp.getBattVoltage()` are not modelled.
- Hardware and the radio stack are inputs of each pass (`Tick`), not code:
  - GPS parsing (`gps_loop`);
  - sensor reads, and the I2C presence checks and re-initialisation in `loop`;
  - `LMIC` readiness;
  - `ttn_send` acceptance;
  - `ttn_get_count`;
  - `millis()`.
- `setup()` is not part of this model: the I2C scan, power management, `ttn_setup`/`ttn_join`
  and the wait for the join. The state begins at the globals' initial values.
- Logging is left out: `Serial` output, `msgBuffer` and the `DEBUG_LORA_MESSAGES` block.
- One clock value per pass: the model uses it wherever the firmware calls `millis()` again
  within the pass.
- `configuration.h` is not part of this model. `TX_INTERVAL`, `LORAWAN_CONFIRMED_EVERY` and
  `ACK_FAIL_THRESHOLD` are a `Config` parameter. `LORAWAN_SF` and `LORAWAN_SF_PING` are symbolic.
- `ESP.restart()` is a `Restart` outcome of the pass. Nothing after it in the pass is modelled,
  and neither is the reboot itself.
- Firmware.Tracker.PingUplink: ends at the send. The restart that follows in `ping_uplink` is
  the `Restart(AfterPing)` outcome of `Firmware.Tracker.Loop`.
- `MAPPER_UPLINK_NOTYET` is declared but no routine produces it.
- The `signed long` counters (`ack_req`, `ack_rx`, `status_uplinks`) are unbounded integers.
  Their overflow is not modelled.
- Scheduler.OnEvent and Firmware.Tracker.LoraMsgCallback: a downlink with an empty payload is
  excluded by a precondition. The firmware then reads `data[0]` of a zero-length array, which
  has no defined value.
- ACK events are not tied to earlier confirmed frames. main.cpp lines 394-398 count every ACK, so
  `ack_rx` can exceed `ack_req` (`Scheduler.UnsolicitedAckCounted`). Neither the firmware nor
  the model keeps `ack_req >= ack_rx` as an invariant.
- The downlink port and the bytes after the first are read by the handler but only logged, so
  they do not affect the state.
