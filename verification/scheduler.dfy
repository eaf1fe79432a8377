/**
 * The tracker's globals as one value, and each routine of the main loop as a function from the
 * state before to the state after: the send gate, the four frame builders with their sends, the
 * LoRa event handler and one pass of `loop`. The class in module Firmware runs the same steps in
 * place and is proved equal to these functions; the properties are proved here.
 */
module Scheduler {
  import opened Units
  import opened FixFilter
  import opened Payload

  const FPORT_PING: Byte := 1
  const FPORT_GPS: Byte := 2
  const FPORT_STATUS: Byte := 5
  const FPORT_GPSLOST: Byte := 6

  /** Milliseconds between STATUS retries while no ACK has arrived. */
  const STATUS_RETRY_MS: int := 30 * 1000
  /** Milliseconds since the last uplink before a requested ping may go out. */
  const PING_HOLDOFF_MS: int := 10 * 1000
  /** First downlink byte that requests a ping. */
  const PING_COMMAND: Byte := 0x01

  /** `mapper_uplink_result`; NOTYET is declared by the firmware and produced by no routine. */
  datatype UplinkResult = Success | BadFix | NoLora | NotYet

  /** The two data rates the loop asks the radio for: `LORAWAN_SF` after joining, `LORAWAN_SF_PING` before a ping. */
  datatype SpreadingFactor = PreferredSf | PingSf

  /** A frame handed to the radio: the payload bytes, the port and whether an ACK is requested. */
  datatype Frame = Frame(bytes: seq<Byte>, port: Byte, confirmed: bool)

  /** A call the core makes into the radio stack: an accepted `ttn_send`, or `ttn_set_sf`. */
  datatype RadioCall = Send(frame: Frame) | SetSpreadingFactor(sf: SpreadingFactor)

  /** Why `ESP.restart()` is called from the loop. */
  datatype RestartReason = AckDeficit | AfterPing

  /** What one pass of `loop` ends in: the next pass, or a restart of the device. */
  datatype Outcome = Continue | Restart(reason: RestartReason)

  /** Build-time settings: `TX_INTERVAL` (seconds), `LORAWAN_CONFIRMED_EVERY`, `ACK_FAIL_THRESHOLD`. */
  datatype Config = Config(txIntervalS: U32, confirmedEvery: int, ackFailThreshold: int)

  /** The events `lora_msg_callback` reacts to; a received downlink carries its port and payload. */
  datatype LoraEvent =
    | EvJoining
    | EvJoined
    | EvAck
    | EvRxComplete(port: Byte, data: seq<Byte>)
    | EvResponse(port: Byte, data: seq<Byte>)
    | EvOther

  /** What the hardware and the radio stack report during one pass of `loop`. */
  datatype Tick = Tick(
    now: U32,               // millis()
    gps: Gps,               // the GPS parser after gps_loop
    sensors: Sensors,       // sensor readings and liveness
    batteryTenMv: U16,      // battery voltage in 10 mV units, rounded
    radioIdle: bool,        // LMIC_queryTxReady() and no TX/RX job pending, after ttn_loop
    sendAccepted: bool,     // whether ttn_send accepts the STATUS or periodic frame of this pass
    pingAccepted: bool,     // whether ttn_send accepts the PING frame, the second send a pass can make
    frameCount: U32)        // ttn_get_count()

  /** The 24-byte `txBuffer`. */
  type Buffer = b: seq<Byte> | |b| == BUFFER_LEN witness seq(24, _ => 0)

  /** `isJoined`, and the two flags `lora_msg_callback` keeps between calls. */
  datatype Join = Join(isJoined: bool, seenJoined: bool, seenJoining: bool)

  /** `ack_rec`, `ack_req` and `ack_rx`. */
  datatype Acks = Acks(ackRec: bool, ackReq: int, ackRx: int)

  /** `last_fix_count`, kept between passes of `loop`, and `last_fix_time`. */
  datatype FixClock = FixClock(lastFixCount: U32, lastFixTime: U32)

  /** `last_send_lat` and `last_send_lon`. */
  datatype Position = Position(lat: real, lon: real)

  /** `transmitted`, `uplink_failed`, `ping` and `ping_requested`. */
  datatype Flags = Flags(transmitted: bool, uplinkFailed: bool, ping: bool, pingRequested: bool)

  /** `last_status_ms` and `status_uplinks`. */
  datatype StatusBook = StatusBook(lastStatusMs: U32, statusUplinks: int)

  /** Whether the radio can take a frame now, and every call made to it so far. */
  datatype Radio = Radio(idle: bool, calls: seq<RadioCall>)

  /** The globals of the main module, grouped by the routines that change them, and `txBuffer`. */
  datatype State = State(
    join: Join,
    acks: Acks,
    fix: FixClock,
    lastSend: Position,
    lastSendMs: U32,
    flags: Flags,
    status: StatusBook,
    radio: Radio,
    tx: Buffer)

  /** The state at boot: every global zero or false, the buffer zeroed, nothing sent. */
  function Initial(): State
  {
    State(Join(false, false, false), Acks(false, 0, 0), FixClock(0, 0), Position(0.0, 0.0), 0,
          Flags(false, false, false, false), StatusBook(0, 0), Radio(false, []), seq(24, _ => 0))
  }

  /** `ready()`: joined, and the radio is free for a new frame. */
  predicate Ready(g: State)
  {
    g.join.isJoined && g.radio.idle
  }

  /** Whether a GPS or GPSLOST frame asks for an ACK: every N-th frame count, never when N is not positive. */
  predicate Confirmed(every: int, count: int)
  {
    every > 0 && count % every == 0
  }

  /** `send_uplink`: the first `length` bytes of the buffer on `port`, gated by `ready()`. */
  function SendUplink(g: State, length: nat, port: Byte, confirmed: bool, isPing: bool, now: U32, accepted: bool)
    : (State, UplinkResult)
    requires length <= BUFFER_LEN
  {
    if !Ready(g) then (g, NoLora)
    else
      var g1 := if confirmed then g.(acks := g.acks.(ackReq := g.acks.ackReq + 1)) else g;
      if !accepted then (g1, NoLora)
      else
        var g2 := g1.(radio := Radio(false, g.radio.calls + [Send(Frame(g.tx[..length], port, confirmed))]));
        (if isPing then g2 else g2.(lastSendMs := now), Success)
  }

  /** The state `status_uplink` hands to `send_uplink`: STATUS bytes 0-7 written, the uplink counted and stamped. */
  function StatusPrepared(g: State, t: Tick): State
  {
    g.(tx := Overwrite(g.tx, 0, StatusFrame(g.lastSend.lat, g.lastSend.lon, t.batteryTenMv, t.now)),
       status := StatusBook(t.now, g.status.statusUplinks + 1))
  }

  /** `status_uplink`: STATUS frame over bytes 0-7, confirmed, on port 5; counts it and stamps the time first. */
  function StatusUplink(g: State, t: Tick): (State, UplinkResult)
  {
    SendUplink(StatusPrepared(g, t), 8, FPORT_STATUS, true, false, t.now, t.sendAccepted)
  }

  /** The state `gpslost_uplink` hands to `send_uplink`: the GPSLOST frame over the whole buffer. */
  function GpslostPrepared(g: State, t: Tick): State
  {
    g.(tx := GpslostFrame(g.lastSend.lat, g.lastSend.lon, t.gps.satellites, t.batteryTenMv, t.now,
                          g.fix.lastFixTime, t.sensors))
  }

  /** `gpslost_uplink`: GPSLOST frame over the whole buffer, on port 6, confirmed by cadence. */
  function GpslostUplink(g: State, cfg: Config, t: Tick): (State, UplinkResult)
  {
    SendUplink(GpslostPrepared(g, t), 24, FPORT_GPSLOST, Confirmed(cfg.confirmedEvery, t.frameCount), false, t.now,
               t.sendAccepted)
  }

  /** The state `gps_uplink` hands to `send_uplink` for a usable fix: the GPS frame, and the fix as last position. */
  function GpsPrepared(g: State, t: Tick): State
  {
    g.(tx := GpsFrame(t.gps, t.batteryTenMv, t.now, g.fix.lastFixTime, t.sensors),
       lastSend := Position(t.gps.lat, t.gps.lon))
  }

  /** `gps_uplink`: BADFIX untouched unless the fix is usable; else GPS frame, last position updated, then the send. */
  function GpsUplink(g: State, cfg: Config, t: Tick): (State, UplinkResult)
  {
    if !FixUsable(t.gps) then (g, BadFix)
    else SendUplink(GpsPrepared(g, t), 24, FPORT_GPS, Confirmed(cfg.confirmedEvery, t.frameCount), false, t.now,
                    t.sendAccepted)
  }

  /** `uplink`: GPS, falling back to GPSLOST only on BADFIX. */
  function Uplink(g: State, cfg: Config, t: Tick): (State, UplinkResult)
  {
    var (g1, r) := GpsUplink(g, cfg, t);
    if r == BadFix then GpslostUplink(g1, cfg, t) else (g1, r)
  }

  /** The state `ping_uplink` hands to `send_uplink`: the PING bytes 0-7 written. */
  function PingPrepared(g: State, t: Tick): State
  {
    g.(tx := Overwrite(g.tx, 0, PingFrame(t.gps, g.lastSend.lat, g.lastSend.lon)))
  }

  /** `ping_uplink` up to its restart: PING frame over bytes 0-7, unconfirmed, on port 1. */
  function PingUplink(g: State, t: Tick): (State, UplinkResult)
  {
    SendUplink(PingPrepared(g, t), 8, FPORT_PING, false, true, t.now, t.pingAccepted)
  }

  /** A received downlink has at least the command byte the handler reads. */
  predicate WellFormed(ev: LoraEvent)
  {
    (ev.EvRxComplete? || ev.EvResponse?) ==> |ev.data| > 0
  }

  /** `lora_msg_callback`, without its logging. */
  function OnEvent(g: State, ev: LoraEvent): State
    requires WellFormed(ev)
  {
    var seenJoined := g.join.seenJoined || ev.EvJoined?;
    var seenJoining := g.join.seenJoining || ev.EvJoining?;
    var joinNow := !g.join.isJoined && seenJoined && seenJoining;
    var g1 := g.(join := Join(g.join.isJoined || joinNow, seenJoined, seenJoining),
                 radio := if joinNow then g.radio.(calls := g.radio.calls + [SetSpreadingFactor(PreferredSf)]) else g.radio);
    var g2 := if ev.EvAck? then g1.(acks := g1.acks.(ackRx := g1.acks.ackRx + 1, ackRec := true)) else g1;
    if (ev.EvRxComplete? || ev.EvResponse?) && ev.data[0] == PING_COMMAND
    then g2.(flags := g2.flags.(pingRequested := true))
    else g2
  }

  /** The head of `loop`: a changed fix count stamps the fix time; `ttn_loop` refreshes the radio's readiness. */
  function NoteFix(g: State, t: Tick): State
  {
    var fix := if t.gps.sentencesWithFix != g.fix.lastFixCount then FixClock(t.gps.sentencesWithFix, t.now) else g.fix;
    g.(fix := fix, radio := g.radio.(idle := t.radioIdle))
  }

  /** The ACK watchdog: too many confirmed uplinks without an ACK. */
  predicate AckDeficitReached(g: State, cfg: Config)
  {
    g.acks.ackReq - g.acks.ackRx >= cfg.ackFailThreshold
  }

  /** When the loop re-sends STATUS: more than 30 s since the last one, no ACK yet, radio ready. */
  predicate StatusDue(g: State, t: Tick)
  {
    Elapsed(t.now, g.status.lastStatusMs) > STATUS_RETRY_MS && !g.acks.ackRec && Ready(g)
  }

  function StatusStep(g: State, t: Tick): State
  {
    if StatusDue(g, t) then StatusUplink(g, t).0 else g
  }

  /** When the loop sends a requested ping: none in flight, radio ready, 10 s since the last uplink, a request pending. */
  predicate PingDue(g: State, t: Tick)
  {
    !g.flags.ping && Ready(g) && Elapsed(t.now, g.lastSendMs) > PING_HOLDOFF_MS && g.flags.pingRequested
  }

  /** The loop's preparation for a ping: clear the request, mark the ping in flight, switch data rate. */
  function PingArmed(g: State): State
  {
    g.(flags := g.flags.(pingRequested := false, ping := true),
       radio := g.radio.(calls := g.radio.calls + [SetSpreadingFactor(PingSf)]))
  }

  /** Arm the ping, then send it. */
  function PingStep(g: State, t: Tick): State
  {
    PingUplink(PingArmed(g), t).0
  }

  /** `tx_interval_s * 1000` in `unsigned int` arithmetic. */
  function IntervalMs(cfg: Config): U32
  {
    (cfg.txIntervalS * 1000) % 0x1_0000_0000
  }

  /** When the loop attempts a periodic uplink: no ping, ACK seen, ready, and interval elapsed or never sent or last failed. */
  predicate PeriodicDue(g: State, cfg: Config, t: Tick)
  {
    !g.flags.ping && g.acks.ackRec && Ready(g) &&
    (Elapsed(t.now, g.lastSendMs) > IntervalMs(cfg) || (!g.flags.transmitted && Ready(g)) || (g.flags.uplinkFailed && Ready(g)))
  }

  function PeriodicStep(g: State, cfg: Config, t: Tick): State
  {
    var (g1, r) := Uplink(g, cfg, t);
    if r == Success then g1.(flags := g1.flags.(transmitted := true, uplinkFailed := false))
    else g1.(flags := g1.flags.(uplinkFailed := true))
  }

  /** One pass of `loop` from the fix-count check on, without the sensor polling. */
  function LoopStep(g: State, cfg: Config, t: Tick): (State, Outcome)
  {
    var g1 := NoteFix(g, t);
    if AckDeficitReached(g1, cfg) then (g1, Restart(AckDeficit))
    else
      var g2 := StatusStep(g1, t);
      if PingDue(g2, t) then (PingStep(g2, t), Restart(AfterPing))
      else if PeriodicDue(g2, cfg, t) then (PeriodicStep(g2, cfg, t), Continue)
      else (g2, Continue)
  }

  // ---------------------------------------------------------------------------------------------
  // Frames handed to the radio

  /** The frames among a sequence of radio calls, in order. */
  function Sends(calls: seq<RadioCall>): (fs: seq<Frame>)
    ensures |fs| <= |calls|
  {
    if calls == [] then [] else (if calls[0].Send? then [calls[0].frame] else []) + Sends(calls[1..])
  }

  /** Collecting the frames distributes over concatenation of call logs. */
  lemma {:induction false} SendsAppend(a: seq<RadioCall>, b: seq<RadioCall>)
    ensures Sends(a + b) == Sends(a) + Sends(b)
  {
    if a == [] {
      assert a + b == b;
    } else {
      assert (a + b)[0] == a[0];
      assert (a + b)[1..] == a[1..] + b;
      SendsAppend(a[1..], b);
    }
  }

  /** The frames the radio accepted between two states, the second extending the first's call log. */
  function NewFrames(before: State, after: State): seq<Frame>
    requires before.radio.calls <= after.radio.calls
  {
    Sends(after.radio.calls[|before.radio.calls|..])
  }

  // ---------------------------------------------------------------------------------------------
  // Send gate and counters

  /**
   * `send_uplink` sends only when ready and accepted; a confirmed frame is counted whenever the gate
   * is open, even if the radio then refuses it; only an accepted non-ping frame stamps `last_send_ms`;
   * every other global and the buffer are untouched.
   */
  lemma SendUplinkEffect(g: State, length: nat, port: Byte, confirmed: bool, isPing: bool, now: U32, accepted: bool)
    requires length <= BUFFER_LEN
    ensures SendUplink(g, length, port, confirmed, isPing, now, accepted).1 == Success <==> Ready(g) && accepted
    ensures SendUplink(g, length, port, confirmed, isPing, now, accepted).1 != Success ==>
              SendUplink(g, length, port, confirmed, isPing, now, accepted).1 == NoLora
    ensures SendUplink(g, length, port, confirmed, isPing, now, accepted).0.acks
              == g.acks.(ackReq := g.acks.ackReq + (if Ready(g) && confirmed then 1 else 0))
    ensures SendUplink(g, length, port, confirmed, isPing, now, accepted).0.lastSendMs
              == (if Ready(g) && accepted && !isPing then now else g.lastSendMs)
    ensures SendUplink(g, length, port, confirmed, isPing, now, accepted).0.radio.calls
              == g.radio.calls + (if Ready(g) && accepted then [Send(Frame(g.tx[..length], port, confirmed))] else [])
    ensures SendUplink(g, length, port, confirmed, isPing, now, accepted).0.radio.idle == (g.radio.idle && !(Ready(g) && accepted))
    ensures SendUplink(g, length, port, confirmed, isPing, now, accepted).0.join == g.join
    ensures SendUplink(g, length, port, confirmed, isPing, now, accepted).0.fix == g.fix
    ensures SendUplink(g, length, port, confirmed, isPing, now, accepted).0.lastSend == g.lastSend
    ensures SendUplink(g, length, port, confirmed, isPing, now, accepted).0.flags == g.flags
    ensures SendUplink(g, length, port, confirmed, isPing, now, accepted).0.status == g.status
    ensures SendUplink(g, length, port, confirmed, isPing, now, accepted).0.tx == g.tx
  {
  }

  /** With the gate closed nothing at all changes, and the result is NOLORA. */
  lemma SendGateClosed(g: State, length: nat, port: Byte, confirmed: bool, isPing: bool, now: U32, accepted: bool)
    requires length <= BUFFER_LEN
    requires !g.join.isJoined || !g.radio.idle
    ensures SendUplink(g, length, port, confirmed, isPing, now, accepted) == (g, NoLora)
  {
  }

  /** The ACK cadence repeats every N frame counts. */
  lemma ConfirmedPeriodic(every: int, count: nat)
    requires every > 0
    ensures Confirmed(every, count + every) == Confirmed(every, count)
  {
    var q := count / every;
    assert count == q * every + count % every;
    assert count + every == (q + 1) * every + count % every;
    ModuloUnique(count + every, every, q + 1, count % every);
  }

  /** After a frame count that asks for an ACK, the next N - 1 counts do not. */
  lemma ConfirmedOncePerN(every: int, count: nat, k: int)
    requires every > 0 && 0 < k < every
    requires Confirmed(every, count)
    ensures !Confirmed(every, count + k)
  {
    var q := count / every;
    assert count == q * every;
    assert count + k == q * every + k;
    ModuloUnique(count + k, every, q, k);
  }

  // ---------------------------------------------------------------------------------------------
  // Fix filter, GPS and GPSLOST

  /** A rejected fix yields BADFIX and leaves every global, the buffer included, as it was. */
  lemma BadFixChangesNothing(g: State, cfg: Config, t: Tick)
    requires !FixUsable(t.gps)
    ensures GpsUplink(g, cfg, t) == (g, BadFix)
  {
  }

  /**
   * `gps_uplink` returns BADFIX exactly when one of its three guards fires: some component invalid,
   * fewer than four satellites, or a coordinate exactly zero. A usable fix always reaches the send.
   */
  lemma BadFixIff(g: State, cfg: Config, t: Tick)
    ensures GpsUplink(g, cfg, t).1 == BadFix <==>
      !t.gps.locationValid || !t.gps.timeValid || !t.gps.satellitesValid || !t.gps.hdopValid ||
      !t.gps.altitudeValid || !t.gps.speedValid || t.gps.satellites < 4 || t.gps.lat == 0.0 || t.gps.lon == 0.0
  {
    if FixUsable(t.gps) {
      SendUplinkEffect(GpsPrepared(g, t), 24, FPORT_GPS, Confirmed(cfg.confirmedEvery, t.frameCount), false, t.now,
                       t.sendAccepted);
    }
  }

  /** `uplink` is one call of `send_uplink` over all 24 bytes: on port 2 after a usable fix, else on port 6. */
  lemma UplinkIsOneSend(g: State, cfg: Config, t: Tick)
    ensures FixUsable(t.gps) ==>
      Uplink(g, cfg, t)
        == SendUplink(GpsPrepared(g, t), 24, FPORT_GPS, Confirmed(cfg.confirmedEvery, t.frameCount), false, t.now, t.sendAccepted)
    ensures !FixUsable(t.gps) ==>
      Uplink(g, cfg, t)
        == SendUplink(GpslostPrepared(g, t), 24, FPORT_GPSLOST, Confirmed(cfg.confirmedEvery, t.frameCount), false, t.now,
                      t.sendAccepted)
  {
  }

  /**
   * An accepted fix becomes the last known position before the send, whatever the send's result;
   * the buffer holds the GPS frame and an accepted send hands all 24 bytes to port 2.
   */
  lemma AcceptedFixRecorded(g: State, cfg: Config, t: Tick)
    requires FixUsable(t.gps)
    ensures GpsUplink(g, cfg, t).1 == Success || GpsUplink(g, cfg, t).1 == NoLora
    ensures GpsUplink(g, cfg, t).1 == Success <==> Ready(g) && t.sendAccepted
    ensures GpsUplink(g, cfg, t).0.lastSend == Position(t.gps.lat, t.gps.lon)
    ensures GpsUplink(g, cfg, t).0.tx == GpsFrame(t.gps, t.batteryTenMv, t.now, g.fix.lastFixTime, t.sensors)
    ensures GpsUplink(g, cfg, t).1 == Success ==>
      GpsUplink(g, cfg, t).0.radio.calls
        == g.radio.calls + [Send(Frame(GpsFrame(t.gps, t.batteryTenMv, t.now, g.fix.lastFixTime, t.sensors), FPORT_GPS,
                                       Confirmed(cfg.confirmedEvery, t.frameCount)))]
  {
    var g1 := GpsPrepared(g, t);
    assert g1.tx[..24] == g1.tx;
    SendUplinkEffect(g1, 24, FPORT_GPS, Confirmed(cfg.confirmedEvery, t.frameCount), false, t.now, t.sendAccepted);
  }

  /** The frame a periodic uplink hands over: GPS with the current fix if it is usable, else GPSLOST with the last one. */
  function UplinkFrame(g: State, cfg: Config, t: Tick): Frame
  {
    var confirmed := Confirmed(cfg.confirmedEvery, t.frameCount);
    if FixUsable(t.gps) then Frame(GpsFrame(t.gps, t.batteryTenMv, t.now, g.fix.lastFixTime, t.sensors), FPORT_GPS, confirmed)
    else Frame(GpslostFrame(g.lastSend.lat, g.lastSend.lon, t.gps.satellites, t.batteryTenMv, t.now, g.fix.lastFixTime,
                            t.sensors),
               FPORT_GPSLOST, confirmed)
  }

  /**
   * `uplink` never reports BADFIX: a rejected fix becomes a GPSLOST frame carrying the last known
   * position (not the current one) on port 6 with the last position kept; a usable fix is passed
   * through as the GPS result, NOLORA included.
   */
  lemma UplinkFallback(g: State, cfg: Config, t: Tick)
    ensures Uplink(g, cfg, t).1 != BadFix
    ensures FixUsable(t.gps) ==> Uplink(g, cfg, t) == GpsUplink(g, cfg, t)
    ensures !FixUsable(t.gps) ==> Uplink(g, cfg, t) == GpslostUplink(g, cfg, t)
    ensures !FixUsable(t.gps) ==>
      Uplink(g, cfg, t).0.tx
        == GpslostFrame(g.lastSend.lat, g.lastSend.lon, t.gps.satellites, t.batteryTenMv, t.now, g.fix.lastFixTime, t.sensors)
    ensures !FixUsable(t.gps) ==> Uplink(g, cfg, t).0.lastSend == g.lastSend
  {
    var c := Confirmed(cfg.confirmedEvery, t.frameCount);
    if FixUsable(t.gps) {
      SendUplinkEffect(GpsPrepared(g, t), 24, FPORT_GPS, c, false, t.now, t.sendAccepted);
    } else {
      SendUplinkEffect(GpslostPrepared(g, t), 24, FPORT_GPSLOST, c, false, t.now, t.sendAccepted);
    }
  }

  /**
   * What an attempted uplink changes: it succeeds exactly when the radio is ready and accepts the
   * frame, then hands over `UplinkFrame` and stamps `last_send_ms`; otherwise it reports NOLORA; the
   * loop's flags, the join state, the fix clock and the STATUS bookkeeping are untouched.
   */
  lemma UplinkEffect(g: State, cfg: Config, t: Tick)
    ensures Uplink(g, cfg, t).1 == Success || Uplink(g, cfg, t).1 == NoLora
    ensures Uplink(g, cfg, t).1 == Success <==> Ready(g) && t.sendAccepted
    ensures Uplink(g, cfg, t).0.radio.calls
              == g.radio.calls + (if Ready(g) && t.sendAccepted then [Send(UplinkFrame(g, cfg, t))] else [])
    ensures Uplink(g, cfg, t).0.radio.idle == (g.radio.idle && !(Ready(g) && t.sendAccepted))
    ensures Uplink(g, cfg, t).0.lastSendMs == (if Ready(g) && t.sendAccepted then t.now else g.lastSendMs)
    ensures Uplink(g, cfg, t).0.join == g.join
    ensures Uplink(g, cfg, t).0.fix == g.fix
    ensures Uplink(g, cfg, t).0.flags == g.flags
    ensures Uplink(g, cfg, t).0.status == g.status
    ensures Uplink(g, cfg, t).0.acks.ackRx == g.acks.ackRx
    ensures Uplink(g, cfg, t).0.acks.ackRec == g.acks.ackRec
  {
    var c := Confirmed(cfg.confirmedEvery, t.frameCount);
    UplinkIsOneSend(g, cfg, t);
    if FixUsable(t.gps) {
      var g1 := GpsPrepared(g, t);
      assert g1.tx[..24] == g1.tx;
      SendUplinkEffect(g1, 24, FPORT_GPS, c, false, t.now, t.sendAccepted);
    } else {
      var g1 := GpslostPrepared(g, t);
      assert g1.tx[..24] == g1.tx;
      SendUplinkEffect(g1, 24, FPORT_GPSLOST, c, false, t.now, t.sendAccepted);
    }
  }

  // ---------------------------------------------------------------------------------------------
  // Event handler

  /** The join flags agree: joined exactly when both JOINED and JOINING have been seen. */
  predicate JoinConsistent(g: State)
  {
    g.join.isJoined == (g.join.seenJoined && g.join.seenJoining)
  }

  /**
   * One event: the JOINED and JOINING sightings latch; joining latches and switches the data rate
   * exactly once; an ACK is counted and remembered; a downlink whose first byte is 0x01 requests a
   * ping; the requested-ACK count, the other flags, the timers and the buffer are untouched.
   */
  lemma OnEventEffect(g: State, ev: LoraEvent)
    requires WellFormed(ev)
    ensures OnEvent(g, ev).join.seenJoined == (g.join.seenJoined || ev == EvJoined)
    ensures OnEvent(g, ev).join.seenJoining == (g.join.seenJoining || ev == EvJoining)
    ensures g.join.isJoined ==> OnEvent(g, ev).join.isJoined
    ensures JoinConsistent(g) ==> JoinConsistent(OnEvent(g, ev))
    ensures OnEvent(g, ev).radio.calls
              == g.radio.calls + (if !g.join.isJoined && OnEvent(g, ev).join.isJoined then [SetSpreadingFactor(PreferredSf)] else [])
    ensures OnEvent(g, ev).radio.idle == g.radio.idle
    ensures OnEvent(g, ev).acks.ackRx == g.acks.ackRx + (if ev.EvAck? then 1 else 0)
    ensures OnEvent(g, ev).acks.ackRec == (g.acks.ackRec || ev.EvAck?)
    ensures OnEvent(g, ev).acks.ackReq == g.acks.ackReq
    ensures OnEvent(g, ev).flags
              == g.flags.(pingRequested := g.flags.pingRequested
                                          || ((ev.EvRxComplete? || ev.EvResponse?) && ev.data[0] == PING_COMMAND))
    ensures OnEvent(g, ev).tx == g.tx
    ensures OnEvent(g, ev).lastSendMs == g.lastSendMs
    ensures OnEvent(g, ev).status == g.status
    ensures OnEvent(g, ev).fix == g.fix
    ensures OnEvent(g, ev).lastSend == g.lastSend
  {
  }

  /**
   * The handler counts every ACK event, whether or not a confirmed frame is outstanding: from boot,
   * one ACK already leaves more ACKs received than requested.
   */
  lemma UnsolicitedAckCounted()
    ensures OnEvent(Initial(), EvAck).acks.ackRx == 1
    ensures OnEvent(Initial(), EvAck).acks.ackReq == 0
    ensures OnEvent(Initial(), EvAck).acks.ackRec
  {
  }

  /** Events delivered one after another. */
  function Replay(g: State, evs: seq<LoraEvent>): State
    requires forall i :: 0 <= i < |evs| ==> WellFormed(evs[i])
    decreases |evs|
  {
    if evs == [] then g else Replay(OnEvent(g, evs[0]), evs[1..])
  }

  /** After any run of events the device is joined exactly when JOINED and JOINING have both been seen, in either order. */
  lemma {:induction false} JoinNeedsBoth(g: State, evs: seq<LoraEvent>)
    requires forall i :: 0 <= i < |evs| ==> WellFormed(evs[i])
    requires JoinConsistent(g)
    ensures Replay(g, evs).join.isJoined <==>
              (g.join.seenJoined || EvJoined in evs) && (g.join.seenJoining || EvJoining in evs)
    decreases |evs|
  {
    if evs != [] {
      var g1 := OnEvent(g, evs[0]);
      OnEventEffect(g, evs[0]);
      JoinNeedsBoth(g1, evs[1..]);
      assert evs == [evs[0]] + evs[1..];
      assert EvJoined in evs <==> evs[0] == EvJoined || EvJoined in evs[1..];
      assert EvJoining in evs <==> evs[0] == EvJoining || EvJoining in evs[1..];
    }
  }

  /** From boot, the device counts as joined only once both events have arrived. */
  lemma JoinFromBoot(evs: seq<LoraEvent>)
    requires forall i :: 0 <= i < |evs| ==> WellFormed(evs[i])
    ensures Replay(Initial(), evs).join.isJoined <==> EvJoined in evs && EvJoining in evs
  {
    JoinNeedsBoth(Initial(), evs);
  }

  // ---------------------------------------------------------------------------------------------
  // One pass of the loop

  /** The head of the pass touches only the fix clock and the radio's readiness. */
  lemma NoteFixEffect(g: State, t: Tick)
    ensures NoteFix(g, t).radio == g.radio.(idle := t.radioIdle)
    ensures NoteFix(g, t).fix.lastFixCount == t.gps.sentencesWithFix
    ensures NoteFix(g, t).fix.lastFixTime == (if t.gps.sentencesWithFix != g.fix.lastFixCount then t.now else g.fix.lastFixTime)
    ensures NoteFix(g, t).join == g.join
    ensures NoteFix(g, t).acks == g.acks
    ensures NoteFix(g, t).lastSend == g.lastSend
    ensures NoteFix(g, t).lastSendMs == g.lastSendMs
    ensures NoteFix(g, t).flags == g.flags
    ensures NoteFix(g, t).status == g.status
    ensures NoteFix(g, t).tx == g.tx
  {
  }

  /**
   * `lora_msg_callback` runs inside `ttn_loop`, after the fix check of the same pass; the two touch
   * different globals, so an event handled there has the effect it has when applied before the pass.
   */
  lemma EventCommutesWithNoteFix(g: State, t: Tick, ev: LoraEvent)
    requires WellFormed(ev)
    ensures OnEvent(NoteFix(g, t), ev) == NoteFix(OnEvent(g, ev), t)
  {
  }

  /** The STATUS step: a due STATUS is built, counted, stamped and confirmed; it is handed over only if accepted. */
  lemma StatusStepEffect(g: State, t: Tick)
    ensures StatusStep(g, t).radio.calls
              == g.radio.calls + (if StatusDue(g, t) && t.sendAccepted
                                  then [Send(Frame(StatusFrame(g.lastSend.lat, g.lastSend.lon, t.batteryTenMv, t.now),
                                                   FPORT_STATUS, true))]
                                  else [])
    ensures StatusStep(g, t).radio.idle == (g.radio.idle && !(StatusDue(g, t) && t.sendAccepted))
    ensures StatusStep(g, t).lastSendMs == (if StatusDue(g, t) && t.sendAccepted then t.now else g.lastSendMs)
    ensures StatusStep(g, t).status
              == (if StatusDue(g, t) then StatusBook(t.now, g.status.statusUplinks + 1) else g.status)
    ensures StatusStep(g, t).acks == g.acks.(ackReq := g.acks.ackReq + (if StatusDue(g, t) then 1 else 0))
    ensures StatusStep(g, t).join == g.join
    ensures StatusStep(g, t).fix == g.fix
    ensures StatusStep(g, t).flags == g.flags
    ensures StatusStep(g, t).lastSend == g.lastSend
  {
    if StatusDue(g, t) {
      var g1 := StatusPrepared(g, t);
      assert StatusStep(g, t) == SendUplink(g1, 8, FPORT_STATUS, true, false, t.now, t.sendAccepted).0;
      assert g1.tx[..8] == StatusFrame(g.lastSend.lat, g.lastSend.lon, t.batteryTenMv, t.now);
      SendUplinkEffect(g1, 8, FPORT_STATUS, true, false, t.now, t.sendAccepted);
    }
  }

  /** The PING step: the data-rate switch always, then the PING frame if the radio is ready and accepts it. */
  lemma PingStepEffect(g: State, t: Tick)
    ensures PingStep(g, t).radio.calls
              == g.radio.calls + [SetSpreadingFactor(PingSf)]
                 + (if Ready(g) && t.pingAccepted
                    then [Send(Frame(PingFrame(t.gps, g.lastSend.lat, g.lastSend.lon), FPORT_PING, false))] else [])
    ensures PingStep(g, t).radio.idle == (g.radio.idle && !(Ready(g) && t.pingAccepted))
    ensures PingStep(g, t).flags == g.flags.(pingRequested := false, ping := true)
    ensures PingStep(g, t).lastSendMs == g.lastSendMs
    ensures PingStep(g, t).acks == g.acks
    ensures PingStep(g, t).join == g.join
    ensures PingStep(g, t).fix == g.fix
    ensures PingStep(g, t).status == g.status
    ensures PingStep(g, t).lastSend == g.lastSend
  {
    var g1 := PingPrepared(PingArmed(g), t);
    assert PingStep(g, t) == SendUplink(g1, 8, FPORT_PING, false, true, t.now, t.pingAccepted).0;
    assert g1.tx[..8] == PingFrame(t.gps, g.lastSend.lat, g.lastSend.lon);
    SendUplinkEffect(g1, 8, FPORT_PING, false, true, t.now, t.pingAccepted);
  }

  /** The periodic step: the uplink's effect, with `transmitted` set and `uplink_failed` cleared exactly on success. */
  lemma PeriodicStepEffect(g: State, cfg: Config, t: Tick)
    ensures PeriodicStep(g, cfg, t).radio.calls
              == g.radio.calls + (if Ready(g) && t.sendAccepted then [Send(UplinkFrame(g, cfg, t))] else [])
    ensures PeriodicStep(g, cfg, t).radio.idle == (g.radio.idle && !(Ready(g) && t.sendAccepted))
    ensures PeriodicStep(g, cfg, t).lastSendMs == (if Ready(g) && t.sendAccepted then t.now else g.lastSendMs)
    ensures PeriodicStep(g, cfg, t).flags
              == g.flags.(transmitted := g.flags.transmitted || (Ready(g) && t.sendAccepted),
                          uplinkFailed := !(Ready(g) && t.sendAccepted))
    ensures PeriodicStep(g, cfg, t).join == g.join
    ensures PeriodicStep(g, cfg, t).fix == g.fix
    ensures PeriodicStep(g, cfg, t).status == g.status
    ensures PeriodicStep(g, cfg, t).acks.ackRx == g.acks.ackRx
    ensures PeriodicStep(g, cfg, t).acks.ackRec == g.acks.ackRec
  {
    UplinkEffect(g, cfg, t);
  }

  /** The watchdog restarts exactly when the ACK deficit reaches the threshold, before anything is sent. */
  lemma WatchdogRestart(g: State, cfg: Config, t: Tick)
    ensures LoopStep(g, cfg, t).1 == Restart(AckDeficit) <==> g.acks.ackReq - g.acks.ackRx >= cfg.ackFailThreshold
    ensures LoopStep(g, cfg, t).1 == Restart(AckDeficit) ==> LoopStep(g, cfg, t).0 == NoteFix(g, t)
  {
    NoteFixEffect(g, t);
  }

  /**
   * While no ACK has been received, every 30 s with the radio ready the loop builds a STATUS frame,
   * counts it and stamps `last_status_ms` whether or not the radio takes it; an accepted STATUS is a
   * confirmed 8-byte frame on port 5, the only frame of the pass.
   */
  lemma StatusRetry(g: State, cfg: Config, t: Tick)
    requires !AckDeficitReached(g, cfg)
    requires Elapsed(t.now, g.status.lastStatusMs) > STATUS_RETRY_MS && !g.acks.ackRec && g.join.isJoined && t.radioIdle
    ensures LoopStep(g, cfg, t).0.status == StatusBook(t.now, g.status.statusUplinks + 1)
    ensures LoopStep(g, cfg, t).0.acks.ackReq == g.acks.ackReq + 1
    ensures t.sendAccepted ==> LoopStep(g, cfg, t).1 == Continue
    ensures t.sendAccepted ==>
      LoopStep(g, cfg, t).0.radio.calls
        == g.radio.calls + [Send(Frame(StatusFrame(g.lastSend.lat, g.lastSend.lon, t.batteryTenMv, t.now), FPORT_STATUS, true))]
  {
    var g1 := NoteFix(g, t);
    NoteFixEffect(g, t);
    assert StatusDue(g1, t);
    var g2 := StatusStep(g1, t);
    StatusStepEffect(g1, t);
    if PingDue(g2, t) {
      PingStepEffect(g2, t);
    } else if PeriodicDue(g2, cfg, t) {
      assert false;
    }
  }

  /**
   * A pending ping request, with no ping in flight, the radio ready and 10 s since the last uplink,
   * clears the request, switches to the ping data rate, sends the unconfirmed 8-byte PING frame on
   * port 1 without stamping `last_send_ms`, and ends the pass with a restart. The ping goes out
   * whether or not an ACK has been seen, unless a STATUS due in the same pass was accepted and so
   * left the radio busy.
   */
  lemma PingThenRestart(g: State, cfg: Config, t: Tick)
    requires !AckDeficitReached(g, cfg)
    requires g.flags.pingRequested && !g.flags.ping && g.join.isJoined && t.radioIdle
    requires Elapsed(t.now, g.lastSendMs) > PING_HOLDOFF_MS
    requires g.acks.ackRec || Elapsed(t.now, g.status.lastStatusMs) <= STATUS_RETRY_MS || !t.sendAccepted
    ensures LoopStep(g, cfg, t).1 == Restart(AfterPing)
    ensures !LoopStep(g, cfg, t).0.flags.pingRequested
    ensures LoopStep(g, cfg, t).0.flags.ping
    ensures LoopStep(g, cfg, t).0.lastSendMs == g.lastSendMs
    ensures LoopStep(g, cfg, t).0.radio.calls
              == g.radio.calls + [SetSpreadingFactor(PingSf)]
                 + (if t.pingAccepted then [Send(Frame(PingFrame(t.gps, g.lastSend.lat, g.lastSend.lon), FPORT_PING, false))]
                    else [])
  {
    var g1 := NoteFix(g, t);
    NoteFixEffect(g, t);
    var g2 := StatusStep(g1, t);
    StatusStepEffect(g1, t);
    assert g2.radio == g1.radio && g2.lastSendMs == g.lastSendMs && g2.lastSend == g.lastSend;
    assert PingDue(g2, t);
    PingStepEffect(g2, t);
  }

  /**
   * The periodic uplink: with an ACK seen, no ping due and the radio ready, an uplink is attempted
   * when the interval has elapsed, nothing was ever sent, or the last attempt failed; success marks the
   * device as having transmitted and clears the failure flag, any other result sets it. When none of
   * the three holds nothing is sent.
   */
  lemma PeriodicUplink(g: State, cfg: Config, t: Tick)
    requires !AckDeficitReached(g, cfg) && g.acks.ackRec && !g.flags.ping
    requires !(g.flags.pingRequested && Elapsed(t.now, g.lastSendMs) > PING_HOLDOFF_MS)
    requires g.join.isJoined && t.radioIdle
    ensures LoopStep(g, cfg, t).1 == Continue
    ensures Elapsed(t.now, g.lastSendMs) > IntervalMs(cfg) || !g.flags.transmitted || g.flags.uplinkFailed ==>
      LoopStep(g, cfg, t).0.radio.calls
        == g.radio.calls + (if t.sendAccepted then [Send(UplinkFrame(NoteFix(g, t), cfg, t))] else [])
    ensures Elapsed(t.now, g.lastSendMs) > IntervalMs(cfg) || !g.flags.transmitted || g.flags.uplinkFailed ==>
      LoopStep(g, cfg, t).0.flags == g.flags.(transmitted := g.flags.transmitted || t.sendAccepted, uplinkFailed := !t.sendAccepted)
    ensures !(Elapsed(t.now, g.lastSendMs) > IntervalMs(cfg) || !g.flags.transmitted || g.flags.uplinkFailed) ==>
      LoopStep(g, cfg, t).0 == NoteFix(g, t)
  {
    var g1 := NoteFix(g, t);
    NoteFixEffect(g, t);
    assert StatusStep(g1, t) == g1;
    assert !PingDue(g1, t);
    PeriodicStepEffect(g1, cfg, t);
  }

  /** The radio calls of one pass: the log only grows, by at most one frame. */
  lemma AtMostOneFramePerTick(g: State, cfg: Config, t: Tick)
    ensures g.radio.calls <= LoopStep(g, cfg, t).0.radio.calls
    ensures |NewFrames(g, LoopStep(g, cfg, t).0)| <= 1
  {
    var g1 := NoteFix(g, t);
    NoteFixEffect(g, t);
    var gL := LoopStep(g, cfg, t).0;
    if AckDeficitReached(g1, cfg) {
      assert gL.radio.calls[|g.radio.calls|..] == [];
    } else {
      var g2 := StatusStep(g1, t);
      StatusStepEffect(g1, t);
      var n := |g.radio.calls|;
      if PingDue(g2, t) {
        PingStepEffect(g2, t);
        assert g2.radio.calls == g.radio.calls;
        var e := gL.radio.calls[n + 1..];
        assert |e| <= 1;
        assert gL.radio.calls[n..] == [SetSpreadingFactor(PingSf)] + e;
        SendsAppend([SetSpreadingFactor(PingSf)], e);
      } else if PeriodicDue(g2, cfg, t) {
        PeriodicStepEffect(g2, cfg, t);
        assert g2.radio.calls == g.radio.calls;
        assert |gL.radio.calls[n..]| <= 1;
      } else {
        assert |gL.radio.calls[n..]| <= 1;
      }
    }
  }

  /** A STATUS is never sent once an ACK has been seen, and no GPS or GPSLOST frame is sent before one. */
  lemma AckGatesFrameKinds(g: State, cfg: Config, t: Tick)
    ensures g.radio.calls <= LoopStep(g, cfg, t).0.radio.calls
    ensures g.acks.ackRec ==> LoopStep(g, cfg, t).0.status == g.status
    ensures g.acks.ackRec ==> forall f :: f in NewFrames(g, LoopStep(g, cfg, t).0) ==> f.port != FPORT_STATUS
    ensures !g.acks.ackRec ==>
      forall f :: f in NewFrames(g, LoopStep(g, cfg, t).0) ==> f.port == FPORT_STATUS || f.port == FPORT_PING
  {
    var g1 := NoteFix(g, t);
    NoteFixEffect(g, t);
    var gL := LoopStep(g, cfg, t).0;
    var n := |g.radio.calls|;
    if AckDeficitReached(g1, cfg) {
      assert gL.radio.calls[n..] == [];
    } else {
      var g2 := StatusStep(g1, t);
      StatusStepEffect(g1, t);
      if PingDue(g2, t) {
        PingStepEffect(g2, t);
        assert g2.radio.calls == g.radio.calls;
        var e := gL.radio.calls[n + 1..];
        assert e == [] || e == [Send(Frame(PingFrame(t.gps, g.lastSend.lat, g.lastSend.lon), FPORT_PING, false))];
        assert gL.radio.calls[n..] == [SetSpreadingFactor(PingSf)] + e;
        SendsAppend([SetSpreadingFactor(PingSf)], e);
      } else if PeriodicDue(g2, cfg, t) {
        PeriodicStepEffect(g2, cfg, t);
      } else {
        assert gL.radio.calls[n..] == [] ||
               gL.radio.calls[n..] == [Send(Frame(StatusFrame(g.lastSend.lat, g.lastSend.lon, t.batteryTenMv, t.now), FPORT_STATUS, true))];
      }
    }
  }

  /**
   * The converse of `PingThenRestart`: a pass ends in the post-ping restart only when there is no ACK
   * deficit, a ping was requested and none is in flight, the device is joined, the radio is ready
   * and more than 10 s have passed since the last uplink.
   */
  lemma RestartAfterPingOnlyIfDue(g: State, cfg: Config, t: Tick)
    ensures LoopStep(g, cfg, t).1 == Restart(AfterPing) ==>
      !AckDeficitReached(g, cfg) && g.flags.pingRequested && !g.flags.ping && g.join.isJoined && t.radioIdle &&
      Elapsed(t.now, g.lastSendMs) > PING_HOLDOFF_MS
  {
    NoteFixEffect(g, t);
    if !AckDeficitReached(NoteFix(g, t), cfg) {
      StatusStepEffect(NoteFix(g, t), t);
    }
  }

  /** When `ready()` is false for the whole pass, the pass only notes the fix: nothing is sent, nothing is set. */
  lemma NotReadyPassQuiet(g: State, cfg: Config, t: Tick)
    requires !(g.join.isJoined && t.radioIdle)
    ensures LoopStep(g, cfg, t).0 == NoteFix(g, t)
    ensures LoopStep(g, cfg, t).1 != Restart(AfterPing)
  {
  }

  /**
   * The converse of `PeriodicUplink`: without an ACK seen, with a ping in flight, or with `ready()`
   * false, the pass makes no periodic attempt. `transmitted`, `uplink_failed` and the last position
   * stay as they were, and only STATUS or PING frames can go out.
   */
  lemma PeriodicOnlyIfDue(g: State, cfg: Config, t: Tick)
    requires !(g.acks.ackRec && !g.flags.ping && g.join.isJoined && t.radioIdle)
    ensures g.radio.calls <= LoopStep(g, cfg, t).0.radio.calls
    ensures LoopStep(g, cfg, t).0.flags.transmitted == g.flags.transmitted
    ensures LoopStep(g, cfg, t).0.flags.uplinkFailed == g.flags.uplinkFailed
    ensures LoopStep(g, cfg, t).0.lastSend == g.lastSend
    ensures forall f :: f in NewFrames(g, LoopStep(g, cfg, t).0) ==> f.port == FPORT_STATUS || f.port == FPORT_PING
  {
    AckGatesFrameKinds(g, cfg, t);
    var g1 := NoteFix(g, t);
    NoteFixEffect(g, t);
    if !AckDeficitReached(g1, cfg) {
      var g2 := StatusStep(g1, t);
      StatusStepEffect(g1, t);
      if PingDue(g2, t) {
        PingStepEffect(g2, t);
      } else if PeriodicDue(g2, cfg, t) {
        assert false;
      } else {
        var n := |g.radio.calls|;
        var gL := LoopStep(g, cfg, t).0;
        assert gL.radio.calls[n..] == [] ||
               gL.radio.calls[n..] == [Send(Frame(StatusFrame(g.lastSend.lat, g.lastSend.lon, t.batteryTenMv, t.now), FPORT_STATUS, true))];
      }
    }
  }

  /** `last_send_ms` moves only to the current time, and only when a frame other than a ping was accepted. */
  lemma LastSendOnlyOnSuccess(g: State, cfg: Config, t: Tick)
    ensures g.radio.calls <= LoopStep(g, cfg, t).0.radio.calls
    ensures LoopStep(g, cfg, t).0.lastSendMs != g.lastSendMs ==> LoopStep(g, cfg, t).0.lastSendMs == t.now
    ensures LoopStep(g, cfg, t).0.lastSendMs != g.lastSendMs ==> |NewFrames(g, LoopStep(g, cfg, t).0)| == 1
    ensures LoopStep(g, cfg, t).0.lastSendMs != g.lastSendMs ==> NewFrames(g, LoopStep(g, cfg, t).0)[0].port != FPORT_PING
  {
    var g1 := NoteFix(g, t);
    NoteFixEffect(g, t);
    if !AckDeficitReached(g1, cfg) {
      var g2 := StatusStep(g1, t);
      StatusStepEffect(g1, t);
      if PingDue(g2, t) {
        PingStepEffect(g2, t);
      } else if PeriodicDue(g2, cfg, t) {
        var g3 := PeriodicStep(g2, cfg, t);
        PeriodicStepEffect(g2, cfg, t);
        if g3.lastSendMs != g.lastSendMs {
          assert g3.radio.calls[|g.radio.calls|..] == [Send(UplinkFrame(g2, cfg, t))];
        }
      } else if g2.lastSendMs != g.lastSendMs {
        assert g2.radio.calls[|g.radio.calls|..]
            == [Send(Frame(StatusFrame(g.lastSend.lat, g.lastSend.lon, t.batteryTenMv, t.now), FPORT_STATUS, true))];
      }
    }
  }

  /** The loop never touches the join state, so the join flags stay consistent across passes and events alike. */
  lemma JoinConsistencyPreserved(g: State, cfg: Config, t: Tick, ev: LoraEvent)
    requires JoinConsistent(g) && WellFormed(ev)
    ensures LoopStep(g, cfg, t).0.join == g.join
    ensures JoinConsistent(LoopStep(g, cfg, t).0)
    ensures JoinConsistent(OnEvent(g, ev))
  {
    var g1 := NoteFix(g, t);
    NoteFixEffect(g, t);
    OnEventEffect(g, ev);
    if !AckDeficitReached(g1, cfg) {
      var g2 := StatusStep(g1, t);
      StatusStepEffect(g1, t);
      if PingDue(g2, t) {
        PingStepEffect(g2, t);
      } else if PeriodicDue(g2, cfg, t) {
        PeriodicStepEffect(g2, cfg, t);
      }
    }
  }
}
