/**
 * The payload encoder: the fixed byte layouts of the four uplink frames (GPS on port 2,
 * GPSLOST on port 6, STATUS on port 5, PING on port 1), with the lat/lon packing, the
 * battery byte, the speed clamp and the zero-filled sensor blocks.
 */
module Payload {
  import opened Units
  import opened FixFilter

  /** Width of the shared transmit buffer `txBuffer`. */
  const BUFFER_LEN: nat := 24
  /** Largest value of a 24-bit field, the scale of the lat/lon encoding. */
  const LATLON_SCALE: int := 0xFF_FFFF

  /** The readings of the two environmental sensors, as the integer casts of the firmware give them. */
  datatype Sensors = Sensors(
    bmeAlive: bool,
    temperatureCenti: U32,   // `bme.readTemperature() * 100`
    pressurePa: U32,         // `bme.readPressure()`
    humidityCenti: U32,      // `bme.readHumidity() * 100`
    ltrAlive: bool,
    uvs: U32)                // `ltr.readUVS()`

  /** Latitude from [-90, 90] scaled onto [0, 2^24 - 1] and truncated, in exact arithmetic. */
  function LatitudeBinary(lat: real): int
  {
    ((lat + 90.0) / 180.0 * 16777215.0).Floor
  }

  /** Longitude from [-180, 180] scaled onto [0, 2^24 - 1] and truncated, in exact arithmetic. */
  function LongitudeBinary(lon: real): int
  {
    ((lon + 180.0) / 360.0 * 16777215.0).Floor
  }

  /** The inverse affine map a receiver applies to a latitude field. */
  function DecodeLatitude(b: int): real
  {
    b as real * 180.0 / 16777215.0 - 90.0
  }

  /** The inverse affine map a receiver applies to a longitude field. */
  function DecodeLongitude(b: int): real
  {
    b as real * 360.0 / 16777215.0 - 180.0
  }

  /** An in-range latitude fits the 24-bit field, and decoding brackets it within one quantisation step. */
  lemma LatitudeQuantisation(lat: real)
    requires -90.0 <= lat <= 90.0
    ensures 0 <= LatitudeBinary(lat) <= LATLON_SCALE
    ensures DecodeLatitude(LatitudeBinary(lat)) <= lat < DecodeLatitude(LatitudeBinary(lat) + 1)
  {
    var x := (lat + 90.0) / 180.0 * 16777215.0;
    assert 0.0 <= x <= 16777215.0;
    assert 0.0.Floor <= x.Floor <= 16777215.0.Floor;
    assert x.Floor as real <= x < x.Floor as real + 1.0;
  }

  /** An in-range longitude fits the 24-bit field, and decoding brackets it within one quantisation step. */
  lemma LongitudeQuantisation(lon: real)
    requires -180.0 <= lon <= 180.0
    ensures 0 <= LongitudeBinary(lon) <= LATLON_SCALE
    ensures DecodeLongitude(LongitudeBinary(lon)) <= lon < DecodeLongitude(LongitudeBinary(lon) + 1)
  {
    var x := (lon + 180.0) / 360.0 * 16777215.0;
    assert 0.0 <= x <= 16777215.0;
    assert 0.0.Floor <= x.Floor <= 16777215.0.Floor;
    assert x.Floor as real <= x < x.Floor as real + 1.0;
  }

  /** The encoding never reverses the order of two latitudes or of two longitudes. */
  lemma LatLonMonotone(a: real, b: real)
    requires a <= b
    ensures LatitudeBinary(a) <= LatitudeBinary(b)
    ensures LongitudeBinary(a) <= LongitudeBinary(b)
  {
    var xa, xb := (a + 90.0) / 180.0 * 16777215.0, (b + 90.0) / 180.0 * 16777215.0;
    assert xa <= xb;
    var ya, yb := (a + 180.0) / 360.0 * 16777215.0, (b + 180.0) / 360.0 * 16777215.0;
    assert ya <= yb;
  }

  /** The six bytes `pack_lat_lon` produces: latitude, then longitude, each 24-bit big-endian. */
  function LatLonBytes(lat: real, lon: real): (b: seq<Byte>)
    ensures |b| == 6
  {
    Be24(LatitudeBinary(lat)) + Be24(LongitudeBinary(lon))
  }

  /** `battery_byte`: the battery voltage in 10 mV units, offset by 2.00 V, kept to its low 8 bits. */
  function BatteryByte(tenMillivolts: U16): (b: Byte)
    ensures 200 <= tenMillivolts <= 455 ==> b == tenMillivolts - 200
    ensures (b - (tenMillivolts - 200)) % 0x100 == 0
  {
    (tenMillivolts - 200) % 0x100
  }

  /** 2.00 V encodes as 0 and 4.55 V as 255; one step either side wraps around. */
  lemma BatteryByteEnds()
    ensures BatteryByte(200) == 0 && BatteryByte(455) == 255
    ensures BatteryByte(199) == 255 && BatteryByte(456) == 0
  {
  }

  /** Over the representable range the battery byte never decreases as the voltage rises. */
  lemma BatteryByteMonotone(v: U16, w: U16)
    requires 200 <= v <= w <= 455
    ensures BatteryByte(v) <= BatteryByte(w)
  {
  }

  /** The speed byte: km/h clamped to 255 rather than wrapped. */
  function SpeedByte(speedKmph: U16): (b: Byte)
    ensures b <= speedKmph
    ensures b == speedKmph || b == 255
  {
    if speedKmph > 255 then 255 else speedKmph
  }

  /** Whole minutes since boot: `millis() / 1000 / 60`. */
  function UptimeMinutes(now: U32): nat
  {
    now / 1000 / 60
  }

  /** Whole minutes since the last fix, in a `uint16_t`: the wrapped elapsed time, truncated to 16 bits. */
  function MinutesLost(now: U32, lastFixTime: U32): U16
  {
    (Elapsed(now, lastFixTime) / 1000 / 60) % 0x1_0000
  }

  /** Bytes 15-21: temperature, pressure and humidity, or seven zeros when the BME280 is dead. */
  function SensorBlock(s: Sensors): (b: seq<Byte>)
    ensures |b| == 7
  {
    if s.bmeAlive then Be16(s.temperatureCenti) + Be24(s.pressurePa) + Be16(s.humidityCenti)
    else [0, 0, 0, 0, 0, 0, 0]
  }

  /** Bytes 22-23: the UV reading, or two zeros when the LTR390 is dead. */
  function UvBlock(s: Sensors): (b: seq<Byte>)
    ensures |b| == 2
  {
    if s.ltrAlive then Be16(s.uvs) else [0, 0]
  }

  /** Bytes 9-14: battery byte, satellite count, uptime minutes and minutes since the last fix. */
  function TelemetryHead(tenMillivolts: U16, satellites: U32, now: U32, lastFixTime: U32): (b: seq<Byte>)
    ensures |b| == 6
  {
    [BatteryByte(tenMillivolts), satellites % 0x100] + Be16(UptimeMinutes(now)) + Be16(MinutesLost(now, lastFixTime))
  }

  /** Bytes 9-23, shared by the GPS and GPSLOST frames. */
  function TelemetryTail(tenMillivolts: U16, satellites: U32, now: U32, lastFixTime: U32, s: Sensors): (b: seq<Byte>)
    ensures |b| == 15
  {
    TelemetryHead(tenMillivolts, satellites, now, lastFixTime) + SensorBlock(s) + UvBlock(s)
  }

  /** The 24-byte GPS frame `build_full_packet` leaves in the buffer. */
  function GpsFrame(gps: Gps, tenMillivolts: U16, now: U32, lastFixTime: U32, s: Sensors): (f: seq<Byte>)
    ensures |f| == BUFFER_LEN
  {
    LatLonBytes(gps.lat, gps.lon) + Be16(gps.altitudeM) + [SpeedByte(gps.speedKmph)]
    + TelemetryTail(tenMillivolts, gps.satellites, now, lastFixTime, s)
  }

  /** The 24-byte GPSLOST frame: the last accepted position, bytes 6-8 zero, the rest as in a GPS frame. */
  function GpslostFrame(lastLat: real, lastLon: real, satellites: U32, tenMillivolts: U16, now: U32, lastFixTime: U32, s: Sensors)
    : (f: seq<Byte>)
    ensures |f| == BUFFER_LEN
  {
    LatLonBytes(lastLat, lastLon) + [0, 0, 0] + TelemetryTail(tenMillivolts, satellites, now, lastFixTime, s)
  }

  /** The 8-byte STATUS frame: last accepted position, battery byte, uptime minutes truncated to a byte. */
  function StatusFrame(lastLat: real, lastLon: real, tenMillivolts: U16, now: U32): (f: seq<Byte>)
    ensures |f| == 8
  {
    LatLonBytes(lastLat, lastLon) + [BatteryByte(tenMillivolts), UptimeMinutes(now) % 0x100]
  }

  /** The 8-byte PING frame: the current position and altitude when the ping guard passes, else the last position and zero. */
  function PingFrame(gps: Gps, lastLat: real, lastLon: real): (f: seq<Byte>)
    ensures |f| == 8
  {
    if PingFixUsable(gps) then LatLonBytes(gps.lat, gps.lon) + Be16(gps.altitudeM)
    else LatLonBytes(lastLat, lastLon) + [0, 0]
  }

  /** `buf` with `bytes` written from offset `off` on and every other byte kept. */
  function Overwrite(buf: seq<Byte>, off: nat, bytes: seq<Byte>): (r: seq<Byte>)
    requires off + |bytes| <= |buf|
    ensures |r| == |buf|
    ensures forall i :: 0 <= i < |buf| ==> r[i] == if off <= i < off + |bytes| then bytes[i - off] else buf[i]
  {
    buf[..off] + bytes + buf[off + |bytes|..]
  }

  /** The lat/lon bytes reassemble to the two scaled coordinates modulo 2^24, latitude first. */
  lemma LatLonLayout(lat: real, lon: real)
    ensures Decode24(LatLonBytes(lat, lon)[0..3]) == LatitudeBinary(lat) % 0x100_0000
    ensures Decode24(LatLonBytes(lat, lon)[3..6]) == LongitudeBinary(lon) % 0x100_0000
  {
    var b := LatLonBytes(lat, lon);
    assert b[0..3] == Be24(LatitudeBinary(lat));
    assert b[3..6] == Be24(LongitudeBinary(lon));
    Be24RoundTrip(LatitudeBinary(lat));
    Be24RoundTrip(LongitudeBinary(lon));
  }

  /** A live BME280 block decodes to temperature, pressure and humidity modulo their field widths. */
  lemma SensorBlockLayout(s: Sensors)
    requires s.bmeAlive
    ensures Decode16(SensorBlock(s)[0..2]) == s.temperatureCenti % 0x1_0000
    ensures Decode24(SensorBlock(s)[2..5]) == s.pressurePa % 0x100_0000
    ensures Decode16(SensorBlock(s)[5..7]) == s.humidityCenti % 0x1_0000
  {
    var b := SensorBlock(s);
    assert b[0..2] == Be16(s.temperatureCenti);
    assert b[2..5] == Be24(s.pressurePa);
    assert b[5..7] == Be16(s.humidityCenti);
    Be16RoundTrip(s.temperatureCenti);
    Be24RoundTrip(s.pressurePa);
    Be16RoundTrip(s.humidityCenti);
  }

  /** A live LTR390 block decodes to the UV reading modulo 2^16. */
  lemma UvBlockLayout(s: Sensors)
    requires s.ltrAlive
    ensures Decode16(UvBlock(s)) == s.uvs % 0x1_0000
  {
    Be16RoundTrip(s.uvs);
  }

  /** Bytes 9-23 as a receiver decodes them: battery, satellites, uptime, minutes lost, then the two sensor blocks. */
  lemma TelemetryTailLayout(tenMillivolts: U16, satellites: U32, now: U32, lastFixTime: U32, s: Sensors)
    ensures TelemetryTail(tenMillivolts, satellites, now, lastFixTime, s)[0] == BatteryByte(tenMillivolts)
    ensures TelemetryTail(tenMillivolts, satellites, now, lastFixTime, s)[1] == satellites % 0x100
    ensures Decode16(TelemetryTail(tenMillivolts, satellites, now, lastFixTime, s)[2..4]) == UptimeMinutes(now) % 0x1_0000
    ensures Decode16(TelemetryTail(tenMillivolts, satellites, now, lastFixTime, s)[4..6]) == MinutesLost(now, lastFixTime)
    ensures TelemetryTail(tenMillivolts, satellites, now, lastFixTime, s)[6..13] == SensorBlock(s)
    ensures TelemetryTail(tenMillivolts, satellites, now, lastFixTime, s)[13..15] == UvBlock(s)
  {
    var t := TelemetryTail(tenMillivolts, satellites, now, lastFixTime, s);
    assert t[2..4] == Be16(UptimeMinutes(now));
    assert t[4..6] == Be16(MinutesLost(now, lastFixTime));
    Be16RoundTrip(UptimeMinutes(now));
    Be16RoundTrip(MinutesLost(now, lastFixTime));
    var u := UvBlock(s);
    assert t[13] == u[0] && t[14] == u[1];
  }

  /** The GPS frame: current position in bytes 0-5, altitude in 6-7, the clamped speed in 8, then the shared tail. */
  lemma GpsFrameLayout(gps: Gps, tenMillivolts: U16, now: U32, lastFixTime: U32, s: Sensors)
    ensures GpsFrame(gps, tenMillivolts, now, lastFixTime, s)[0..6] == LatLonBytes(gps.lat, gps.lon)
    ensures Decode16(GpsFrame(gps, tenMillivolts, now, lastFixTime, s)[6..8]) == gps.altitudeM
    ensures GpsFrame(gps, tenMillivolts, now, lastFixTime, s)[8] == (if gps.speedKmph > 255 then 255 else gps.speedKmph)
    ensures GpsFrame(gps, tenMillivolts, now, lastFixTime, s)[9..]
              == TelemetryTail(tenMillivolts, gps.satellites, now, lastFixTime, s)
  {
    var f := GpsFrame(gps, tenMillivolts, now, lastFixTime, s);
    assert f[6..8] == Be16(gps.altitudeM);
    Be16RoundTrip(gps.altitudeM);
  }

  /** The GPSLOST frame: the given (last accepted) position in bytes 0-5, bytes 6-8 zero, then the shared tail. */
  lemma GpslostFrameLayout(lastLat: real, lastLon: real, satellites: U32, tenMillivolts: U16, now: U32, lastFixTime: U32,
                           s: Sensors)
    ensures GpslostFrame(lastLat, lastLon, satellites, tenMillivolts, now, lastFixTime, s)[0..6] == LatLonBytes(lastLat, lastLon)
    ensures GpslostFrame(lastLat, lastLon, satellites, tenMillivolts, now, lastFixTime, s)[6..9] == [0, 0, 0]
    ensures GpslostFrame(lastLat, lastLon, satellites, tenMillivolts, now, lastFixTime, s)[9..]
              == TelemetryTail(tenMillivolts, satellites, now, lastFixTime, s)
  {
  }

  /** A dead sensor shows as zeros in bytes 15-21 (BME280) or 22-23 (LTR390) of both 24-byte frames. */
  lemma DeadSensorsZeroed(gps: Gps, lastLat: real, lastLon: real, tenMillivolts: U16, now: U32, lastFixTime: U32, s: Sensors)
    ensures !s.bmeAlive ==> GpsFrame(gps, tenMillivolts, now, lastFixTime, s)[15..22] == [0, 0, 0, 0, 0, 0, 0]
    ensures !s.ltrAlive ==> GpsFrame(gps, tenMillivolts, now, lastFixTime, s)[22..24] == [0, 0]
    ensures !s.bmeAlive ==>
      GpslostFrame(lastLat, lastLon, gps.satellites, tenMillivolts, now, lastFixTime, s)[15..22] == [0, 0, 0, 0, 0, 0, 0]
    ensures !s.ltrAlive ==> GpslostFrame(lastLat, lastLon, gps.satellites, tenMillivolts, now, lastFixTime, s)[22..24] == [0, 0]
  {
    var t := TelemetryTail(tenMillivolts, gps.satellites, now, lastFixTime, s);
    TelemetryTailLayout(tenMillivolts, gps.satellites, now, lastFixTime, s);
    GpsFrameLayout(gps, tenMillivolts, now, lastFixTime, s);
    GpslostFrameLayout(lastLat, lastLon, gps.satellites, tenMillivolts, now, lastFixTime, s);
    var f := GpsFrame(gps, tenMillivolts, now, lastFixTime, s);
    var h := GpslostFrame(lastLat, lastLon, gps.satellites, tenMillivolts, now, lastFixTime, s);
    assert f[15..22] == t[6..13] && f[22..24] == t[13..15];
    assert h[15..22] == t[6..13] && h[22..24] == t[13..15];
  }

  /** The STATUS frame: position, battery byte, and uptime minutes modulo 256. */
  lemma StatusFrameLayout(lastLat: real, lastLon: real, tenMillivolts: U16, now: U32)
    ensures StatusFrame(lastLat, lastLon, tenMillivolts, now)[0..6] == LatLonBytes(lastLat, lastLon)
    ensures StatusFrame(lastLat, lastLon, tenMillivolts, now)[6] == BatteryByte(tenMillivolts)
    ensures StatusFrame(lastLat, lastLon, tenMillivolts, now)[7] == UptimeMinutes(now) % 0x100
  {
  }

  /** The PING frame: current position and altitude only when the ping guard passes, else last position and zero altitude. */
  lemma PingFrameLayout(gps: Gps, lastLat: real, lastLon: real)
    ensures PingFixUsable(gps) ==> PingFrame(gps, lastLat, lastLon)[0..6] == LatLonBytes(gps.lat, gps.lon)
    ensures PingFixUsable(gps) ==> Decode16(PingFrame(gps, lastLat, lastLon)[6..8]) == gps.altitudeM
    ensures !PingFixUsable(gps) ==> PingFrame(gps, lastLat, lastLon) == LatLonBytes(lastLat, lastLon) + [0, 0]
  {
    if PingFixUsable(gps) {
      assert PingFrame(gps, lastLat, lastLon)[6..8] == Be16(gps.altitudeM);
      Be16RoundTrip(gps.altitudeM);
    }
  }

  /** Bytes 9-23 written as three pieces in turn end up as the telemetry tail after the first nine bytes. */
  lemma TailAssembly(b: seq<Byte>, head: seq<Byte>, sensors: seq<Byte>, uv: seq<Byte>)
    requires |b| == BUFFER_LEN && |head| == 6 && |sensors| == 7 && |uv| == 2
    ensures Overwrite(Overwrite(Overwrite(b, 9, head), 15, sensors), 22, uv) == b[..9] + (head + sensors + uv)
  {
    var r := Overwrite(Overwrite(Overwrite(b, 9, head), 15, sensors), 22, uv);
    assert forall i :: 0 <= i < BUFFER_LEN ==> r[i] == (b[..9] + (head + sensors + uv))[i];
  }
}
