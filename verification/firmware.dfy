/**
 * The main module of the firmware as it runs: its globals are the fields of one object, grouped
 * as in module Scheduler, `txBuffer` is a 24-byte array the packers write byte by byte, and each
 * routine is a method proved to leave the object in the state the matching Scheduler function
 * describes.
 */
module Firmware {
  import opened Units
  import opened FixFilter
  import opened Payload
  import opened Scheduler

  class Tracker {
    /** `TX_INTERVAL`, `LORAWAN_CONFIRMED_EVERY` and `ACK_FAIL_THRESHOLD`. */
    const cfg: Config
    /** `static uint8_t txBuffer[24]` */
    const txBuffer: array<Byte>

    /** `isJoined`, and `seen_joined` / `seen_joining`, static in `lora_msg_callback`. */
    var join: Join
    /** `ack_rec`, `ack_req`, `ack_rx` */
    var acks: Acks
    /** `last_fix_count`, static in `loop`, and `last_fix_time` */
    var fix: FixClock
    /** `last_send_lat`, `last_send_lon` */
    var lastSend: Position
    /** `last_send_ms` */
    var lastSendMs: U32
    /** `transmitted`, `uplink_failed`, `ping`, `ping_requested` */
    var flags: Flags
    /** `last_status_ms`, `status_uplinks` */
    var status: StatusBook
    /** The radio stack: whether it can take a frame, and every call made into it. */
    var radio: Radio

    predicate Valid()
    {
      txBuffer.Length == BUFFER_LEN
    }

    /** The globals as a Scheduler state. */
    function Model(): State
      requires Valid()
      reads this, txBuffer
    {
      State(join, acks, fix, lastSend, lastSendMs, flags, status, radio, txBuffer[..])
    }

    /** Boot: every global zero or false, the buffer zeroed, nothing sent yet. */
    constructor (cfg: Config)
      ensures Valid() && fresh(txBuffer)
      ensures this.cfg == cfg
      ensures Model() == Initial()
    {
      this.cfg := cfg;
      txBuffer := new Byte[BUFFER_LEN](_ => 0);
      join, acks, fix, lastSend, lastSendMs := Join(false, false, false), Acks(false, 0, 0), FixClock(0, 0), Position(0.0, 0.0), 0;
      flags, status, radio := Flags(false, false, false, false), StatusBook(0, 0), Radio(false, []);
      new;
      assert txBuffer[..] == seq(24, _ => 0);
    }

    /** `ready()` */
    method IsReady() returns (r: bool)
      requires Valid()
      ensures r == Scheduler.Ready(Model())
    {
      if !join.isJoined {
        return false;
      }
      if !radio.idle {
        return false;
      }
      return true;
    }

    /** `send_uplink`: gated by `ready()`, counts a requested ACK, hands the first `length` bytes to the radio. */
    method SendUplink(length: nat, port: Byte, confirmed: bool, isPing: bool, now: U32, accepted: bool)
      returns (r: UplinkResult)
      requires Valid() && length <= BUFFER_LEN
      modifies this
      ensures Model() == Scheduler.SendUplink(old(Model()), length, port, confirmed, isPing, now, accepted).0
      ensures r == Scheduler.SendUplink(old(Model()), length, port, confirmed, isPing, now, accepted).1
    {
      var ready := IsReady();
      if !ready {
        return NoLora;
      }
      if confirmed {
        acks := acks.(ackReq := acks.ackReq + 1);
      }
      if !accepted {
        return NoLora;
      }
      radio := Radio(false, radio.calls + [Send(Frame(txBuffer[..length], port, confirmed))]);
      if !isPing {
        lastSendMs := now;
      }
      return Success;
    }

    /** `pack_lat_lon`: the two scaled coordinates into bytes 0-5, big-endian. */
    method PackLatLon(lat: real, lon: real)
      requires Valid()
      modifies txBuffer
      ensures txBuffer[..] == Overwrite(old(txBuffer[..]), 0, LatLonBytes(lat, lon))
    {
      var latitudeBinary := LatitudeBinary(lat);
      var longitudeBinary := LongitudeBinary(lon);
      txBuffer[0] := (latitudeBinary / 0x1_0000) % 0x100;
      txBuffer[1] := (latitudeBinary / 0x100) % 0x100;
      txBuffer[2] := latitudeBinary % 0x100;
      txBuffer[3] := (longitudeBinary / 0x1_0000) % 0x100;
      txBuffer[4] := (longitudeBinary / 0x100) % 0x100;
      txBuffer[5] := longitudeBinary % 0x100;
      assert txBuffer[..] == Overwrite(old(txBuffer[..]), 0, LatLonBytes(lat, lon));
    }

    /** `pack_bme280`: temperature, pressure and humidity into bytes 15-21, or zeros when the sensor is dead. */
    method PackBme280(s: Sensors)
      requires Valid()
      modifies txBuffer
      ensures txBuffer[..] == Overwrite(old(txBuffer[..]), 15, SensorBlock(s))
    {
      if s.bmeAlive {
        txBuffer[15] := (s.temperatureCenti / 0x100) % 0x100;
        txBuffer[16] := s.temperatureCenti % 0x100;
        txBuffer[17] := (s.pressurePa / 0x1_0000) % 0x100;
        txBuffer[18] := (s.pressurePa / 0x100) % 0x100;
        txBuffer[19] := s.pressurePa % 0x100;
        txBuffer[20] := (s.humidityCenti / 0x100) % 0x100;
        txBuffer[21] := s.humidityCenti % 0x100;
      } else {
        txBuffer[15] := 0;
        txBuffer[16] := 0;
        txBuffer[17] := 0;
        txBuffer[18] := 0;
        txBuffer[19] := 0;
        txBuffer[20] := 0;
        txBuffer[21] := 0;
      }
      assert txBuffer[..] == Overwrite(old(txBuffer[..]), 15, SensorBlock(s));
    }

    /** `pack_ltr390`: the UV reading into bytes 22-23, or zeros when the sensor is dead. */
    method PackLtr390(s: Sensors)
      requires Valid()
      modifies txBuffer
      ensures txBuffer[..] == Overwrite(old(txBuffer[..]), 22, UvBlock(s))
    {
      if s.ltrAlive {
        txBuffer[22] := (s.uvs / 0x100) % 0x100;
        txBuffer[23] := s.uvs % 0x100;
      } else {
        txBuffer[22] := 0;
        txBuffer[23] := 0;
      }
      assert txBuffer[..] == Overwrite(old(txBuffer[..]), 22, UvBlock(s));
    }

    /** Bytes 9-14, the part `build_full_packet` and `gpslost_uplink` write alike: battery, satellites, uptime, minutes lost. */
    method PackTelemetry(tenMillivolts: U16, satellites: U32, now: U32)
      requires Valid()
      modifies txBuffer
      ensures txBuffer[..] == Overwrite(old(txBuffer[..]), 9, TelemetryHead(tenMillivolts, satellites, now, fix.lastFixTime))
    {
      var uptime := UptimeMinutes(now);
      var minutesLost := MinutesLost(now, fix.lastFixTime);
      txBuffer[9] := BatteryByte(tenMillivolts);
      txBuffer[10] := satellites % 0x100;
      txBuffer[11] := (uptime / 0x100) % 0x100;
      txBuffer[12] := uptime % 0x100;
      txBuffer[13] := (minutesLost / 0x100) % 0x100;
      txBuffer[14] := minutesLost % 0x100;
      assert txBuffer[..] == Overwrite(old(txBuffer[..]), 9, TelemetryHead(tenMillivolts, satellites, now, fix.lastFixTime));
    }

    /** `build_full_packet`: the GPS frame over all 24 bytes, with uptime and minutes lost from the same clock. */
    method BuildFullPacket(gps: Gps, tenMillivolts: U16, now: U32, s: Sensors)
      requires Valid()
      modifies txBuffer
      ensures txBuffer[..] == GpsFrame(gps, tenMillivolts, now, fix.lastFixTime, s)
    {
      PackLatLon(gps.lat, gps.lon);
      var altitude := gps.altitudeM;
      var speed := gps.speedKmph;
      if speed > 255 {
        speed := 255;
      }
      txBuffer[6] := (altitude / 0x100) % 0x100;
      txBuffer[7] := altitude % 0x100;
      txBuffer[8] := speed;
      ghost var b := txBuffer[..];
      assert b[..9] == LatLonBytes(gps.lat, gps.lon) + Be16(gps.altitudeM) + [SpeedByte(gps.speedKmph)];
      PackTelemetry(tenMillivolts, gps.satellites, now);
      PackBme280(s);
      PackLtr390(s);
      TailAssembly(b, TelemetryHead(tenMillivolts, gps.satellites, now, fix.lastFixTime), SensorBlock(s), UvBlock(s));
    }

    /** `status_uplink`; like the firmware it returns the send result converted to `bool`, true on any failure. */
    method StatusUplink(t: Tick) returns (failed: bool)
      requires Valid()
      modifies this, txBuffer
      ensures Model() == Scheduler.StatusUplink(old(Model()), t).0
      ensures failed == (Scheduler.StatusUplink(old(Model()), t).1 != Success)
    {
      ghost var g := Model();
      PackLatLon(lastSend.lat, lastSend.lon);
      var uptime := UptimeMinutes(t.now);
      txBuffer[6] := BatteryByte(t.batteryTenMv);
      txBuffer[7] := uptime % 0x100;
      assert txBuffer[..] == Overwrite(g.tx, 0, StatusFrame(g.lastSend.lat, g.lastSend.lon, t.batteryTenMv, t.now));
      status := StatusBook(t.now, status.statusUplinks + 1);
      assert Model() == StatusPrepared(g, t);
      var r := SendUplink(8, FPORT_STATUS, true, false, t.now, t.sendAccepted);
      failed := r != Success;
    }

    /** `gpslost_uplink`: the last accepted position, zeros for altitude and speed, then the telemetry, on port 6. */
    method GpslostUplink(t: Tick) returns (r: UplinkResult)
      requires Valid()
      modifies this, txBuffer
      ensures Model() == Scheduler.GpslostUplink(old(Model()), cfg, t).0
      ensures r == Scheduler.GpslostUplink(old(Model()), cfg, t).1
    {
      ghost var g := Model();
      var confirmed := cfg.confirmedEvery > 0 && t.frameCount % cfg.confirmedEvery == 0;
      PackLatLon(lastSend.lat, lastSend.lon);
      txBuffer[6] := 0;
      txBuffer[7] := 0;
      txBuffer[8] := 0;
      ghost var b := txBuffer[..];
      assert b[..9] == LatLonBytes(g.lastSend.lat, g.lastSend.lon) + [0, 0, 0];
      PackTelemetry(t.batteryTenMv, t.gps.satellites, t.now);
      PackBme280(t.sensors);
      PackLtr390(t.sensors);
      TailAssembly(b, TelemetryHead(t.batteryTenMv, t.gps.satellites, t.now, fix.lastFixTime), SensorBlock(t.sensors),
                   UvBlock(t.sensors));
      assert Model() == GpslostPrepared(g, t);
      r := SendUplink(24, FPORT_GPSLOST, confirmed, false, t.now, t.sendAccepted);
    }

    /** `gps_uplink`: the three filters, then the GPS frame, the last position, and the send on port 2. */
    method GpsUplink(t: Tick) returns (r: UplinkResult)
      requires Valid()
      modifies this, txBuffer
      ensures Model() == Scheduler.GpsUplink(old(Model()), cfg, t).0
      ensures r == Scheduler.GpsUplink(old(Model()), cfg, t).1
    {
      ghost var g := Model();
      var gps := t.gps;
      if !(gps.locationValid && gps.timeValid && gps.satellitesValid && gps.hdopValid && gps.altitudeValid && gps.speedValid) {
        return BadFix;
      }
      if gps.satellites < 4 {
        return BadFix;
      }
      if gps.lat == 0.0 || gps.lon == 0.0 {
        return BadFix;
      }
      BuildFullPacket(gps, t.batteryTenMv, t.now, t.sensors);
      var confirmed := cfg.confirmedEvery > 0 && t.frameCount % cfg.confirmedEvery == 0;
      lastSend := Position(gps.lat, gps.lon);
      assert Model() == GpsPrepared(g, t);
      r := SendUplink(24, FPORT_GPS, confirmed, false, t.now, t.sendAccepted);
    }

    /** `uplink`: GPS, and GPSLOST only when the fix was rejected. */
    method Uplink(t: Tick) returns (r: UplinkResult)
      requires Valid()
      modifies this, txBuffer
      ensures Model() == Scheduler.Uplink(old(Model()), cfg, t).0
      ensures r == Scheduler.Uplink(old(Model()), cfg, t).1
    {
      r := GpsUplink(t);
      if r == BadFix {
        r := GpslostUplink(t);
      }
    }

    /** `ping_uplink` up to `ESP.restart()`: current position and altitude if the ping guard passes, else the last position. */
    method PingUplink(t: Tick)
      requires Valid()
      modifies this, txBuffer
      ensures Model() == Scheduler.PingUplink(old(Model()), t).0
    {
      ghost var g := Model();
      var gps := t.gps;
      if gps.locationValid && gps.timeValid && gps.satellitesValid && gps.hdopValid && gps.altitudeValid && gps.speedValid
         && gps.satellites >= 4 {
        PackLatLon(gps.lat, gps.lon);
        var altitude := gps.altitudeM;
        txBuffer[6] := (altitude / 0x100) % 0x100;
        txBuffer[7] := altitude % 0x100;
      } else {
        PackLatLon(lastSend.lat, lastSend.lon);
        txBuffer[6] := 0;
        txBuffer[7] := 0;
      }
      assert txBuffer[..] == Overwrite(g.tx, 0, PingFrame(gps, g.lastSend.lat, g.lastSend.lon));
      var r := SendUplink(8, FPORT_PING, false, true, t.now, t.pingAccepted);
    }

    /** `lora_msg_callback`: join bookkeeping, ACK counting, and the ping request from a downlink. */
    method LoraMsgCallback(ev: LoraEvent)
      requires Valid() && WellFormed(ev)
      modifies this
      ensures Model() == OnEvent(old(Model()), ev)
    {
      if ev.EvJoined? {
        join := join.(seenJoined := true);
      }
      if ev.EvJoining? {
        join := join.(seenJoining := true);
      }
      if !join.isJoined && join.seenJoined && join.seenJoining {
        join := join.(isJoined := true);
        radio := radio.(calls := radio.calls + [SetSpreadingFactor(PreferredSf)]);
      }
      if ev.EvAck? {
        acks := acks.(ackRx := acks.ackRx + 1, ackRec := true);
      }
      if ev.EvRxComplete? || ev.EvResponse? {
        if ev.data[0] == PING_COMMAND {
          flags := flags.(pingRequested := true);
        }
      }
    }

    /** The STATUS re-send at the head of `loop`: due after 30 s without an ACK while the radio is ready. */
    method RetryStatus(t: Tick)
      requires Valid()
      modifies this, txBuffer
      ensures Model() == StatusStep(old(Model()), t)
    {
      var ready := IsReady();
      if Elapsed(t.now, status.lastStatusMs) > STATUS_RETRY_MS && !acks.ackRec && ready {
        var failed := StatusUplink(t);
      }
    }

    /** A requested ping: clear the request, mark it in flight, switch data rate and send it. */
    method SendPing(t: Tick)
      requires Valid()
      modifies this, txBuffer
      ensures Model() == PingStep(old(Model()), t)
    {
      flags := flags.(pingRequested := false, ping := true);
      radio := radio.(calls := radio.calls + [SetSpreadingFactor(PingSf)]);
      PingUplink(t);
    }

    /** The periodic uplink and the bookkeeping of its outcome. */
    method PeriodicUplink(t: Tick)
      requires Valid()
      modifies this, txBuffer
      ensures Model() == PeriodicStep(old(Model()), cfg, t)
    {
      var r := Uplink(t);
      if r == Success {
        flags := flags.(transmitted := true, uplinkFailed := false);
      } else {
        flags := flags.(uplinkFailed := true);
      }
    }

    /** One pass of `loop` from the fix-count check on; a restart ends the pass. */
    method Loop(t: Tick) returns (outcome: Outcome)
      requires Valid()
      modifies this, txBuffer
      ensures Model() == LoopStep(old(Model()), cfg, t).0
      ensures outcome == LoopStep(old(Model()), cfg, t).1
    {
      ghost var g := Model();
      if t.gps.sentencesWithFix != fix.lastFixCount {
        fix := FixClock(t.gps.sentencesWithFix, t.now);
      }
      radio := radio.(idle := t.radioIdle);
      assert Model() == NoteFix(g, t);
      if acks.ackReq - acks.ackRx >= cfg.ackFailThreshold {
        return Restart(AckDeficit);
      }
      RetryStatus(t);
      var ready := IsReady();
      if !flags.ping && ready && Elapsed(t.now, lastSendMs) > PING_HOLDOFF_MS && flags.pingRequested {
        SendPing(t);
        return Restart(AfterPing);
      }
      if !flags.ping && acks.ackRec && ready {
        if Elapsed(t.now, lastSendMs) > IntervalMs(cfg) || (!flags.transmitted && ready) || (flags.uplinkFailed && ready) {
          PeriodicUplink(t);
        }
      }
      return Continue;
    }
  }
}
