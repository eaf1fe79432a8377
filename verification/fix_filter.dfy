/** The GPS sample the main loop reads each tick, and the two guards that decide whether it is a usable fix. */
module FixFilter {
  import opened Units

  /**
   * One reading of the GPS parser: the six per-field validity flags, the satellite count,
   * the coordinates in degrees, altitude and speed as the firmware's `uint16_t` casts give
   * them, and the parser's count of sentences that carried a fix.
   */
  datatype Gps = Gps(
    locationValid: bool,
    timeValid: bool,
    satellitesValid: bool,
    hdopValid: bool,
    altitudeValid: bool,
    speedValid: bool,
    satellites: U32,
    lat: real,
    lon: real,
    altitudeM: U16,
    speedKmph: U16,
    sentencesWithFix: U32)

  /** Every one of the six components reports itself valid. */
  predicate AllValid(g: Gps)
  {
    g.locationValid && g.timeValid && g.satellitesValid && g.hdopValid && g.altitudeValid && g.speedValid
  }

  /** The guard at the head of `gps_uplink`: all components valid, at least four satellites, no coordinate exactly zero. */
  predicate FixUsable(g: Gps)
  {
    AllValid(g) && g.satellites >= 4 && g.lat != 0.0 && g.lon != 0.0
  }

  /** The guard `ping_uplink` applies: the same, without the zero-coordinate sentinel. */
  predicate PingFixUsable(g: Gps)
  {
    AllValid(g) && g.satellites >= 4
  }

  /** Three satellites are never enough, whatever the other fields say. */
  lemma ThreeSatellitesRejected(g: Gps)
    requires g.satellites == 3
    ensures !FixUsable(g) && !PingFixUsable(g)
  {
  }

  /** The ping guard is strictly weaker: it accepts every usable fix, and differs only on a zero coordinate. */
  lemma PingFilterWeaker(g: Gps)
    ensures FixUsable(g) ==> PingFixUsable(g)
    ensures PingFixUsable(g) && !FixUsable(g) <==> PingFixUsable(g) && (g.lat == 0.0 || g.lon == 0.0)
  {
  }

  /** A sample with latitude exactly 0 passes the ping guard but not the uplink guard. */
  lemma ZeroLatitudeOnlyPassesPing()
    ensures var g := Gps(true, true, true, true, true, true, 5, 0.0, 12.3, 100, 10, 1);
            PingFixUsable(g) && !FixUsable(g)
  {
  }
}
