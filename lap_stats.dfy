/**
 * The lap and sector timing session (src/lap_stats/lap_stats.c).
 *
 * The file-static globals of the firmware become the fields of class `Session`;
 * `SessionState` is the same record as a value, and every method of the class is
 * proved to follow one of the pure step functions below. Everything the firmware
 * asks of other modules in the middle of an update (launch control, the
 * millisecond clock, the GPS quality and cold-data tests, track auto-detection,
 * the logger configuration) arrives as a field of `Tick`; every call it makes to
 * them (launch-control setup and samples, the GPS distance, the predictive timer,
 * the start/finish notification) leaves as an `Effect`.
 */
module LapStats {
  import opened Wrappers
  import opened GeoCircle

  /** Minimum time between two start/finish detections, in milliseconds. */
  const START_FINISH_TIME_THRESHOLD: int := 10000

  /** Meters per degree of latitude at the equator, used for every latitude. */
  const METERS_PER_DEGREE: real := 110574.27

  const TWO_POW_32: int := 0x1_0000_0000

  /** tiny_millis_t, taken as a 32-bit signed count of milliseconds. */
  type Millis = x: int | -0x8000_0000 <= x < 0x8000_0000

  /** Two's-complement 32-bit wrap-around: the one value in range congruent to `x`. */
  function Wrap32(x: int): (r: Millis)
    ensures (r - x) % TWO_POW_32 == 0
    ensures -0x8000_0000 <= x < 0x8000_0000 ==> r == x
  {
    var m := x % TWO_POW_32;
    if m >= 0x8000_0000 then m - TWO_POW_32 else m
  }

  /** The subtraction of two tiny_millis_t values, wrapping as the 32-bit type does. */
  function Elapsed(now: Millis, since: Millis): (r: Millis)
    ensures (r - (now - since)) % TWO_POW_32 == 0
    ensures -0x8000_0000 <= now - since < 0x8000_0000 ==> r == now - since
  {
    Wrap32(now - since)
  }

  /** Two in-range values congruent modulo 2^32 are equal. */
  lemma CongruentInRangeEqual(a: int, b: int)
    requires -0x8000_0000 <= a < 0x8000_0000 && -0x8000_0000 <= b < 0x8000_0000
    requires (a - b) % TWO_POW_32 == 0
    ensures a == b
  {
    var k := (a - b) / TWO_POW_32;
    assert a - b == k * TWO_POW_32;
  }

  /**
   * The elapsed time survives a wrap of the clock: if `d` milliseconds (fewer than
   * 2^31) pass after `since`, the clock reads Wrap32(since + d) and Elapsed gives d.
   */
  lemma ElapsedSurvivesWrap(since: Millis, d: nat)
    requires d < 0x8000_0000
    ensures Elapsed(Wrap32(since + d), since) == d
  {
    var now := Wrap32(since + d);
    var e := Elapsed(now, since);
    assert (now - (since + d)) % TWO_POW_32 == 0;
    assert (e - (now - since)) % TWO_POW_32 == 0;
    assert (e - d) % TWO_POW_32 == 0 by {
      var k1 := (now - (since + d)) / TWO_POW_32;
      var k2 := (e - (now - since)) / TWO_POW_32;
      assert e - d == (k1 + k2) * TWO_POW_32;
    }
    CongruentInRangeEqual(e, d);
  }

  /** degreesToMeters: the equatorial factor, not corrected for latitude. */
  function DegreesToMeters(degrees: real): real
  {
    degrees * METERS_PER_DEGREE
  }

  /** The parts of a track the session reads: start, finish and the sector lookup (getSectorGeoPointAtIndex). */
  datatype Track = Track(start: Point, finish: Point, sectorAt: int -> Point)

  /** The parts of the logger configuration the session reads. */
  datatype LoggerConfig = LoggerConfig(
    track: Track,              // TrackConfigs.track, the default track
    radiusDegrees: real,       // TrackConfigs.radius
    autoDetect: bool,          // TrackConfigs.auto_detect
    sectorSampling: bool)      // sectorTimeCfg.sampleRate != SAMPLE_DISABLED

  /** Everything one GPS update reads from outside the session. */
  datatype Tick = Tick(
    point: Point,              // gpsSample->point, also what getGeoPoint() returns
    signalUsable: bool,        // isGpsSignalUsable(gpsSample->quality)
    dataCold: bool,            // isGpsDataCold()
    now: Millis,               // getMillisSinceFirstFix()
    launched: bool,            // lc_hasLaunched() once this sample has been supplied
    launchTime: Millis,        // lc_getLaunchTime()
    autoTrack: Track,          // what auto_configure_track returns for this point
    config: LoggerConfig)      // getWorkingLoggerConfig()

  /** The calls an update makes to the session's collaborators, in order. */
  datatype Effect =
    | LaunchSetup(radiusMeters: real)             // lc_setup
    | LaunchSample(point: Point, time: Millis)    // lc_supplyGpsSample
    | ResetDistance                               // resetGpsDistance
    | SetDistanceKms(kms: real)                   // setGpsDistanceKms
    | StartFinishCrossed(at: Point, time: Millis) // startFinishCrossed
    | PredictiveSample(at: Point, time: Millis)   // addGpsSample

  /** The file-static state of lap_stats.c as a value. The two "enabled" flags are the function-static locals of onLocationUpdated. */
  datatype SessionState = SessionState(
    configured: bool,
    activeTrack: Option<Track>,
    startFinishEnabled: bool,
    sectorEnabled: bool,
    atStartFinish: bool,
    prevAtStartFinish: bool,
    lastStartFinishTimestamp: Millis,
    atTarget: bool,
    prevAtTarget: bool,
    lastSectorTimestamp: Millis,
    sector: int,
    lastSector: int,
    lastLapTime: Millis,
    lastSectorTime: Millis,
    lapCount: int)

  /** A configured session has resolved its track. */
  predicate Consistent(s: SessionState)
  {
    s.configured ==> s.activeTrack.Some?
  }

  /** isStartCrossedYet: the launch timestamp doubles as the "started" flag. */
  predicate StartCrossed(s: SessionState)
  {
    s.lastStartFinishTimestamp != 0
  }

  /** isStartFinishEnabled (isStartPointValid and isFinishPointValid test the points with isValidPoint). */
  predicate StartFinishEnabled(g: Geometry, track: Track): (r: bool)
    ensures !g.isValidPoint(track.start) ==> !r
    ensures !g.isValidPoint(track.finish) ==> !r
  {
    g.isValidPoint(track.finish) && g.isValidPoint(track.start)
  }

  /** isSectorTrackingEnabled. */
  predicate SectorTrackingEnabled(g: Geometry, track: Track, config: LoggerConfig): (r: bool)
    ensures r ==> StartFinishEnabled(g, track)
    ensures !config.sectorSampling ==> !r
  {
    config.sectorSampling && g.isValidPoint(track.sectorAt(0)) && StartFinishEnabled(g, track)
  }

  /** Sector tracking is only ever enabled together with start/finish tracking. */
  lemma SectorTrackingNeedsStartFinish(g: Geometry, track: Track, config: LoggerConfig)
    ensures SectorTrackingEnabled(g, track, config) ==> StartFinishEnabled(g, track)
    ensures !g.isValidPoint(track.sectorAt(0)) ==> !SectorTrackingEnabled(g, track, config)
  {
  }

  /** lapStats_init applied to `s`: everything zeroed, both sector indices -1, the function-static flags kept. */
  function Initial(s: SessionState): (r: SessionState)
    ensures Consistent(r) && !StartCrossed(r)
    ensures r.lapCount == 0 && r.lastLapTime == 0 && r.lastSectorTime == 0
    ensures r.sector == -1 && r.lastSector == -1
    ensures !r.configured && r.activeTrack == None
    ensures r.lastSectorTimestamp == 0
    ensures !r.atStartFinish && !r.prevAtStartFinish && !r.atTarget && !r.prevAtTarget
    ensures r.startFinishEnabled == s.startFinishEnabled && r.sectorEnabled == s.sectorEnabled
  {
    SessionState(false, None, s.startFinishEnabled, s.sectorEnabled,
                 false, false, 0, false, false, 0, -1, -1, 0, 0, 0)
  }

  /** processStartFinish: the new state and whether a start or a lap was detected. */
  function StartFinish(g: Geometry, s: SessionState, track: Track, radius: real, t: Tick): (r: (SessionState, bool))
    ensures r.0.lapCount == (if r.1 && StartCrossed(s) then s.lapCount + 1 else s.lapCount)
    ensures r.0.sector == s.sector || (r.1 && r.0.sector == 0)
    ensures r.0.configured == s.configured && r.0.activeTrack == s.activeTrack
    ensures r.0.startFinishEnabled == s.startFinishEnabled && r.0.sectorEnabled == s.sectorEnabled
    ensures r.0.atTarget == s.atTarget && r.0.prevAtTarget == s.prevAtTarget && r.0.lastSector == s.lastSector
    ensures r.1 ==> r.0.prevAtStartFinish
  {
    if !StartCrossed(s) then
      if t.launched then
        (s.(lastStartFinishTimestamp := t.launchTime, lastSectorTimestamp := t.launchTime,
            prevAtStartFinish := true, sector := 0), true)
      else
        (s, false)
    else
      var elapsed := Elapsed(t.now, s.lastStartFinishTimestamp);
      var at := IsPointInCircle(g, t.point, CreateCircle(track.finish, radius));
      if !at || s.prevAtStartFinish || elapsed <= START_FINISH_TIME_THRESHOLD then
        (s.(atStartFinish := at, prevAtStartFinish := false), false)
      else
        (s.(atStartFinish := at, lapCount := s.lapCount + 1, lastLapTime := elapsed,
            lastStartFinishTimestamp := t.now, prevAtStartFinish := true), true)
  }

  /** Before the first crossing, launch control alone decides; the lap count never moves. */
  lemma StartFinishBeforeStart(g: Geometry, s: SessionState, track: Track, radius: real, t: Tick)
    requires !StartCrossed(s)
    ensures StartFinish(g, s, track, radius, t).0.lapCount == s.lapCount
    ensures StartFinish(g, s, track, radius, t).1 == t.launched
    ensures !t.launched ==> StartFinish(g, s, track, radius, t).0 == s
    ensures t.launched ==>
              StartFinish(g, s, track, radius, t).0 ==
              s.(lastStartFinishTimestamp := t.launchTime, lastSectorTimestamp := t.launchTime,
                 prevAtStartFinish := true, sector := 0)
  {
  }

  /** After the first crossing, a lap is detected exactly when all three guards pass. */
  lemma LapDetectedIff(g: Geometry, s: SessionState, track: Track, radius: real, t: Tick)
    requires StartCrossed(s)
    ensures StartFinish(g, s, track, radius, t).1 <==>
      IsPointInCircle(g, t.point, CreateCircle(track.finish, radius)) &&
      !s.prevAtStartFinish &&
      Elapsed(t.now, s.lastStartFinishTimestamp) > START_FINISH_TIME_THRESHOLD
  {
  }

  /** A tick without a lap clears prevAtStartFinish and keeps the lap count, lap time and timestamp. */
  lemma NoLapKeepsCounters(g: Geometry, s: SessionState, track: Track, radius: real, t: Tick)
    requires StartCrossed(s) && !StartFinish(g, s, track, radius, t).1
    ensures StartFinish(g, s, track, radius, t).0 ==
      s.(atStartFinish := IsPointInCircle(g, t.point, CreateCircle(track.finish, radius)),
         prevAtStartFinish := false)
  {
  }

  /** A detected lap: one more lap, its time is the elapsed time, and the clock restarts now. */
  lemma LapUpdatesCounters(g: Geometry, s: SessionState, track: Track, radius: real, t: Tick)
    requires StartCrossed(s) && StartFinish(g, s, track, radius, t).1
    ensures StartFinish(g, s, track, radius, t).0 ==
      s.(atStartFinish := true, lapCount := s.lapCount + 1,
         lastLapTime := Elapsed(t.now, s.lastStartFinishTimestamp),
         lastStartFinishTimestamp := t.now, prevAtStartFinish := true)
  {
  }

  /** Two consecutive calls after the start cannot both detect a lap. */
  lemma NoTwoLapsInARow(g: Geometry, s: SessionState, track: Track, radius: real, t1: Tick, t2: Tick)
    requires StartCrossed(s) && StartFinish(g, s, track, radius, t1).1
    requires StartCrossed(StartFinish(g, s, track, radius, t1).0)
    ensures !StartFinish(g, StartFinish(g, s, track, radius, t1).0, track, radius, t2).1
  {
  }

  /**
   * The flag that debounces the line is cleared on every tick without a lap, not
   * set from the geofence test: a vehicle that stays inside the finish circle for
   * two ticks after a lap gets a new lap on the second one once 10 s have passed.
   */
  lemma DwellInsideRefires(g: Geometry, s: SessionState, track: Track, radius: real, t1: Tick, t2: Tick)
    requires StartCrossed(s) && s.prevAtStartFinish
    requires IsPointInCircle(g, t1.point, CreateCircle(track.finish, radius))
    requires IsPointInCircle(g, t2.point, CreateCircle(track.finish, radius))
    requires Elapsed(t2.now, s.lastStartFinishTimestamp) > START_FINISH_TIME_THRESHOLD
    ensures !StartFinish(g, s, track, radius, t1).1
    ensures StartFinish(g, StartFinish(g, s, track, radius, t1).0, track, radius, t2).1
  {
  }

  /**
   * The launch time doubles as the "started" flag, so a launch reported at time 0
   * leaves the session unstarted: the next tick goes through launch control again
   * and reports a new start.
   */
  lemma LaunchAtTimeZeroRepeats(g: Geometry, s: SessionState, track: Track, radius: real, t1: Tick, t2: Tick)
    requires !StartCrossed(s) && t1.launched && t1.launchTime == 0 && t2.launched
    ensures StartFinish(g, s, track, radius, t1).1
    ensures !StartCrossed(StartFinish(g, s, track, radius, t1).0)
    ensures StartFinish(g, StartFinish(g, s, track, radius, t1).0, track, radius, t2).1
  {
  }

  /** processSector. */
  function Sector(g: Geometry, s: SessionState, track: Track, radius: real, t: Tick): (r: SessionState)
    ensures r.lapCount == s.lapCount && r.lastLapTime == s.lastLapTime
    ensures r.lastStartFinishTimestamp == s.lastStartFinishTimestamp
    ensures r.atStartFinish == s.atStartFinish && r.prevAtStartFinish == s.prevAtStartFinish
    ensures r.configured == s.configured && r.activeTrack == s.activeTrack
    ensures r.startFinishEnabled == s.startFinishEnabled && r.sectorEnabled == s.sectorEnabled
    ensures r.sector == s.sector || r.sector == s.sector + 1 || r.sector == 0
  {
    if !StartCrossed(s) then s
    else
      var point := track.sectorAt(s.sector);
      var at := IsPointInCircle(g, t.point, CreateCircle(point, radius));
      if !at then
        s.(atTarget := false, prevAtTarget := false)
      else
        var next := track.sectorAt(s.sector + 1);
        s.(prevAtTarget := true, atTarget := true,
           lastSectorTime := Elapsed(t.now, s.lastSectorTimestamp),
           lastSectorTimestamp := t.now, lastSector := s.sector,
           sector := if next == point then 0 else s.sector + 1)
  }

  /** Before the start, sectors are not processed; outside the sector circle only the two flags change. */
  lemma SectorOutsideTarget(g: Geometry, s: SessionState, track: Track, radius: real, t: Tick)
    ensures !StartCrossed(s) ==> Sector(g, s, track, radius, t) == s
    ensures StartCrossed(s) && !IsPointInCircle(g, t.point, CreateCircle(track.sectorAt(s.sector), radius)) ==>
      Sector(g, s, track, radius, t) == s.(atTarget := false, prevAtTarget := false)
  {
  }

  /**
   * A sector hit: the split is measured from the previous sector timestamp, and the
   * index moves on, or back to 0 when the next waypoint equals the current one.
   * Nothing looks at whether the vehicle was inside on the previous tick.
   */
  lemma SectorHit(g: Geometry, s: SessionState, track: Track, radius: real, t: Tick)
    requires StartCrossed(s)
    requires IsPointInCircle(g, t.point, CreateCircle(track.sectorAt(s.sector), radius))
    ensures var r := Sector(g, s, track, radius, t);
      && r.lastSectorTime == Elapsed(t.now, s.lastSectorTimestamp)
      && r.lastSectorTimestamp == t.now
      && r.lastSector == s.sector
      && r.atTarget && r.prevAtTarget
      && (r.sector == 0 <==> track.sectorAt(s.sector + 1) == track.sectorAt(s.sector) || s.sector == -1)
      && (track.sectorAt(s.sector + 1) != track.sectorAt(s.sector) ==> r.sector == s.sector + 1)
  {
  }

  /**
   * The wrap test compares the next waypoint with the current one, not with
   * waypoint 0: with waypoint 3 a copy of waypoint 0 but different from waypoint 2,
   * a hit on sector 2 moves on to sector 3.
   */
  lemma SectorWrapComparesCurrent(g: Geometry, s: SessionState, track: Track, radius: real, t: Tick)
    requires StartCrossed(s) && s.sector == 2
    requires track.sectorAt(3) == track.sectorAt(0) && track.sectorAt(3) != track.sectorAt(2)
    requires IsPointInCircle(g, t.point, CreateCircle(track.sectorAt(2), radius))
    ensures Sector(g, s, track, radius, t).sector == 3
  {
  }

  /** The configuration step of onLocationUpdated, done once until the configuration changes. */
  function Configure(g: Geometry, s: SessionState, t: Tick): (r: (SessionState, seq<Effect>))
    requires Consistent(s)
    ensures Consistent(r.0) && r.0.configured
    ensures s.configured ==> r == (s, [])
    ensures r.0.lapCount == s.lapCount && StartCrossed(r.0) == StartCrossed(s)
    ensures !s.configured ==>
      var track := if t.config.autoDetect then t.autoTrack else t.config.track;
      && r.0.activeTrack == Some(track)
      && r.0.startFinishEnabled == StartFinishEnabled(g, track)
      && r.0.sectorEnabled == SectorTrackingEnabled(g, track, t.config)
      && r.1 == [LaunchSetup(DegreesToMeters(t.config.radiusDegrees))]
  {
    if s.configured then (s, [])
    else
      var track := if t.config.autoDetect then t.autoTrack else t.config.track;
      (s.(activeTrack := Some(track),
          startFinishEnabled := StartFinishEnabled(g, track),
          sectorEnabled := SectorTrackingEnabled(g, track, t.config),
          configured := true),
       [LaunchSetup(DegreesToMeters(t.config.radiusDegrees))])
  }

  /** What onLocationUpdated reports after processStartFinish. */
  function LapEffects(g: Geometry, track: Track, detected: bool, lapCount: int, startTimestamp: Millis, t: Tick): seq<Effect>
  {
    if !detected then [PredictiveSample(t.point, t.now)]
    else if lapCount == 0 then
      [ResetDistance, SetDistanceKms(g.dist(track.start, t.point) / 1000.0),
       StartFinishCrossed(track.start, startTimestamp), PredictiveSample(t.point, t.now)]
    else
      [ResetDistance, StartFinishCrossed(t.point, t.now)]
  }

  /** onLocationUpdated: the new state and the calls made to collaborators. */
  function LocationUpdated(g: Geometry, s: SessionState, t: Tick): (r: (SessionState, seq<Effect>))
    requires Consistent(s)
    ensures Consistent(r.0)
    ensures r.0.lapCount == s.lapCount || r.0.lapCount == s.lapCount + 1
  {
    if !t.signalUsable then (s, [])
    else
      var radius := DegreesToMeters(t.config.radiusDegrees);
      var (s1, setup) := Configure(g, s, t);
      if !s1.startFinishEnabled then (s1, setup)
      else
        var track := s1.activeTrack.value;
        var launch := if StartCrossed(s1) then [] else [LaunchSample(t.point, t.now)];
        var (s2, detected) := StartFinish(g, s1, track, radius, t);
        var s3 := if s1.sectorEnabled then Sector(g, s2, track, radius, t) else s2;
        (s3, setup + launch + LapEffects(g, track, detected, s2.lapCount, s2.lastStartFinishTimestamp, t))
  }

  /** With start/finish detection disabled, an update stops once the session is configured. */
  lemma StartFinishDisabledStops(g: Geometry, s: SessionState, t: Tick)
    requires Consistent(s) && t.signalUsable && !Configure(g, s, t).0.startFinishEnabled
    ensures LocationUpdated(g, s, t) == Configure(g, s, t)
  {
  }

  /**
   * Sectors are processed only when sector tracking is enabled: otherwise the new
   * state is the one processStartFinish leaves, else processSector runs on it.
   */
  lemma SectorsOnlyWhenEnabled(g: Geometry, s: SessionState, t: Tick)
    requires Consistent(s) && t.signalUsable && Configure(g, s, t).0.startFinishEnabled
    ensures var s1 := Configure(g, s, t).0;
      var radius := DegreesToMeters(t.config.radiusDegrees);
      var s2 := StartFinish(g, s1, s1.activeTrack.value, radius, t).0;
      LocationUpdated(g, s, t).0 == (if s1.sectorEnabled then Sector(g, s2, s1.activeTrack.value, radius, t) else s2)
  {
  }

  /** lapStats_processUpdate: cold GPS data is dropped before anything else. */
  function Update(g: Geometry, s: SessionState, t: Tick): (r: (SessionState, seq<Effect>))
    requires Consistent(s)
    ensures Consistent(r.0)
    ensures t.dataCold ==> r == (s, [])
  {
    if t.dataCold then (s, []) else LocationUpdated(g, s, t)
  }

  /** Unusable fixes change nothing and call nobody. */
  lemma UnusableFixIgnored(g: Geometry, s: SessionState, t: Tick)
    requires Consistent(s) && !t.signalUsable
    ensures Update(g, s, t) == (s, [])
  {
  }

  /**
   * The first start (reported by launch control, lap count still 0) resets the
   * distance to the straight-line distance from the track's nominal start point and
   * reports the start at that point and the launch time; a later lap reports the
   * live sample.
   */
  lemma FirstStartSeedsFromStartPoint(g: Geometry, s: SessionState, t: Tick)
    requires Consistent(s) && s.configured && s.startFinishEnabled
    requires !StartCrossed(s) && s.lapCount == 0 && t.launched && t.signalUsable && !t.dataCold
    ensures var track := s.activeTrack.value;
      Update(g, s, t).1 ==
        [LaunchSample(t.point, t.now), ResetDistance,
         SetDistanceKms(g.dist(track.start, t.point) / 1000.0),
         StartFinishCrossed(track.start, t.launchTime), PredictiveSample(t.point, t.now)]
  {
  }

  /** A completed lap reports the live sample and its time, and feeds no predictive sample. */
  lemma LaterLapReportsLiveSample(g: Geometry, s: SessionState, t: Tick)
    requires Consistent(s) && s.configured && s.startFinishEnabled && s.lapCount >= 0
    requires StartCrossed(s) && t.signalUsable && !t.dataCold
    requires StartFinish(g, s, s.activeTrack.value, DegreesToMeters(t.config.radiusDegrees), t).1
    ensures Update(g, s, t).1 == [ResetDistance, StartFinishCrossed(t.point, t.now)]
    ensures Update(g, s, t).0.lapCount == s.lapCount + 1
  {
  }

  /** The state after a stream of updates. */
  function Run(g: Geometry, s: SessionState, ticks: seq<Tick>): (r: SessionState)
    requires Consistent(s)
    ensures Consistent(r)
    decreases |ticks|
  {
    if ticks == [] then s else Run(g, Update(g, s, ticks[0]).0, ticks[1..])
  }

  /** Over any stream of updates the lap count never goes down and grows by at most one per update. */
  lemma {:induction false} LapCountBounded(g: Geometry, s: SessionState, ticks: seq<Tick>)
    requires Consistent(s)
    ensures s.lapCount <= Run(g, s, ticks).lapCount <= s.lapCount + |ticks|
    decreases |ticks|
  {
    if ticks != [] {
      LapCountBounded(g, Update(g, s, ticks[0]).0, ticks[1..]);
    }
  }

  /** The session: the file-static variables of lap_stats.c, updated in place. */
  class Session {
    var configured: bool
    var activeTrack: Option<Track>
    var startFinishEnabled: bool
    var sectorEnabled: bool
    var atStartFinish: bool
    var prevAtStartFinish: bool
    var lastStartFinishTimestamp: Millis
    var atTarget: bool
    var prevAtTarget: bool
    var lastSectorTimestamp: Millis
    var sector: int
    var lastSector: int
    var lastLapTime: Millis
    var lastSectorTime: Millis
    var lapCount: int

    ghost function State(): SessionState
      reads this
    {
      SessionState(configured, activeTrack, startFinishEnabled, sectorEnabled,
                   atStartFinish, prevAtStartFinish, lastStartFinishTimestamp,
                   atTarget, prevAtTarget, lastSectorTimestamp,
                   sector, lastSector, lastLapTime, lastSectorTime, lapCount)
    }

    /** The session as the firmware starts with it: static storage is zeroed. */
    constructor ()
      ensures State() == SessionState(false, None, false, false, false, false, 0, false, false, 0, 0, 0, 0, 0, 0)
    {
      configured, activeTrack, startFinishEnabled, sectorEnabled := false, None, false, false;
      atStartFinish, prevAtStartFinish, lastStartFinishTimestamp := false, false, 0;
      atTarget, prevAtTarget, lastSectorTimestamp := false, false, 0;
      sector, lastSector, lastLapTime, lastSectorTime, lapCount := 0, 0, 0, 0, 0;
    }

    /** lapStats_init. */
    method Init()
      modifies this
      ensures State() == Initial(old(State()))
    {
      ForgetTrack();
      ClearStartFinish();
      ClearSectorDetection();
      ResetCounters();
    }

    /** lapStats_init, lines for the track and the last times. */
    method ForgetTrack()
      modifies this
      ensures State() == old(State()).(configured := false, activeTrack := None, lastLapTime := 0, lastSectorTime := 0)
    {
      configured, activeTrack, lastLapTime, lastSectorTime := false, None, 0, 0;
    }

    /** lapStats_init, lines for start/finish detection. */
    method ClearStartFinish()
      modifies this
      ensures State() == old(State()).(atStartFinish := false, prevAtStartFinish := false, lastStartFinishTimestamp := 0)
    {
      atStartFinish, prevAtStartFinish, lastStartFinishTimestamp := false, false, 0;
    }

    /** lapStats_init, lines for sector detection. */
    method ClearSectorDetection()
      modifies this
      ensures State() == old(State()).(atTarget := false, prevAtTarget := false, lastSectorTimestamp := 0)
    {
      atTarget, prevAtTarget, lastSectorTimestamp := false, false, 0;
    }

    /** lapStats_init, lines for the lap count and the sector indices (-1: no sector yet). */
    method ResetCounters()
      modifies this
      ensures State() == old(State()).(lapCount := 0, sector := -1, lastSector := -1)
    {
      lapCount, sector, lastSector := 0, -1, -1;
    }

    /** resetLapCount: only the lap count changes. */
    method ResetLapCount()
      modifies this
      ensures State() == old(State()).(lapCount := 0)
    {
      lapCount := 0;
    }

    /** gpsConfigChanged: the next update resolves the track again. */
    method ConfigChanged()
      modifies this
      ensures State() == old(State()).(configured := false)
    {
      configured := false;
    }

    function LapCount(): (r: int) reads this ensures r == State().lapCount { lapCount }
    function CurrentSector(): (r: int) reads this ensures r == State().sector { sector }
    function LastSector(): (r: int) reads this ensures r == State().lastSector { lastSector }
    function LastLapTime(): (r: Millis) reads this ensures r == State().lastLapTime { lastLapTime }
    function LastSectorTime(): (r: Millis) reads this ensures r == State().lastSectorTime { lastSectorTime }
    function AtStartFinish(): (r: bool) reads this ensures r == State().atStartFinish { atStartFinish }
    function AtSector(): (r: bool) reads this ensures r == State().atTarget { atTarget }

    /** isStartCrossedYet. */
    function IsStartCrossedYet(): (r: bool)
      reads this
      ensures r == StartCrossed(State())
    {
      lastStartFinishTimestamp != 0
    }

    /** processStartFinish. */
    method ProcessStartFinish(g: Geometry, track: Track, radius: real, t: Tick) returns (detected: bool)
      modifies this
      ensures (State(), detected) == StartFinish(g, old(State()), track, radius, t)
    {
      if !IsStartCrossedYet() {
        if t.launched {
          RecordLaunch(t.launchTime);
          return true;
        }
        return false;
      }
      var timestamp := t.now;
      var elapsed := Elapsed(timestamp, lastStartFinishTimestamp);
      var sfCircle := CreateCircle(track.finish, radius);
      atStartFinish := IsPointInCircle(g, t.point, sfCircle);
      if !atStartFinish || prevAtStartFinish || elapsed <= START_FINISH_TIME_THRESHOLD {
        prevAtStartFinish := false;
        return false;
      }
      RecordLap(elapsed, timestamp);
      return true;
    }

    /** processStartFinish's first crossing: the launch time starts the lap and sector 0. */
    method RecordLaunch(launchTime: Millis)
      modifies this
      ensures State() == old(State()).(lastStartFinishTimestamp := launchTime,
        lastSectorTimestamp := launchTime, prevAtStartFinish := true, sector := 0)
    {
      lastStartFinishTimestamp := launchTime;
      lastSectorTimestamp := launchTime;
      prevAtStartFinish := true;
      sector := 0;
    }

    /** processStartFinish past the debounce: one more lap, its time, the new lap's start. */
    method RecordLap(elapsed: Millis, timestamp: Millis)
      modifies this
      ensures State() == old(State()).(lapCount := old(lapCount) + 1, lastLapTime := elapsed,
        lastStartFinishTimestamp := timestamp, prevAtStartFinish := true)
    {
      lapCount := lapCount + 1;
      lastLapTime := elapsed;
      lastStartFinishTimestamp := timestamp;
      prevAtStartFinish := true;
    }

    /** processSector. */
    method ProcessSector(g: Geometry, track: Track, radius: real, t: Tick)
      modifies this
      ensures State() == Sector(g, old(State()), track, radius, t)
    {
      if !IsStartCrossedYet() {
        return;
      }
      var point := track.sectorAt(sector);
      var sbCircle := CreateCircle(point, radius);
      atTarget := IsPointInCircle(g, t.point, sbCircle);
      if !atTarget {
        prevAtTarget := false;
        return;
      }
      var millis := t.now;
      RecordSectorBoundary(track, point, millis);
    }

    /** processSector past the boundary test: the sector time, then the next sector or a wrap to 0. */
    method RecordSectorBoundary(track: Track, point: Point, millis: Millis)
      modifies this
      ensures State() == old(State()).(prevAtTarget := true,
        lastSectorTime := Elapsed(millis, old(lastSectorTimestamp)), lastSectorTimestamp := millis,
        lastSector := old(sector), sector := if track.sectorAt(old(sector) + 1) == point then 0 else old(sector) + 1)
    {
      prevAtTarget := true;
      lastSectorTime := Elapsed(millis, lastSectorTimestamp);
      lastSectorTimestamp := millis;
      lastSector := sector;
      sector := sector + 1;
      var next := track.sectorAt(sector);
      if point == next {
        sector := 0;
      }
    }

    /** onLocationUpdated. */
    method OnLocationUpdated(g: Geometry, t: Tick) returns (effects: seq<Effect>)
      requires Consistent(State())
      modifies this
      ensures (State(), effects) == LocationUpdated(g, old(State()), t)
    {
      if !t.signalUsable {
        return [];
      }
      ghost var s0 := State();
      var targetRadius := DegreesToMeters(t.config.radiusDegrees);
      effects := [];
      if !configured {
        var track := if t.config.autoDetect then t.autoTrack else t.config.track;
        activeTrack := Some(track);
        startFinishEnabled := StartFinishEnabled(g, track);
        sectorEnabled := SectorTrackingEnabled(g, track, t.config);
        effects := [LaunchSetup(targetRadius)];
        configured := true;
      }
      ghost var s1 := State();
      assert (s1, effects) == Configure(g, s0, t);
      if startFinishEnabled {
        var track := activeTrack.value;
        var launch := [];
        if !IsStartCrossedYet() {
          launch := [LaunchSample(t.point, t.now)];
        }
        var lapDetected := ProcessStartFinish(g, track, targetRadius, t);
        ghost var s2 := State();
        assert (s2, lapDetected) == StartFinish(g, s1, track, targetRadius, t);
        effects := effects + launch + LapEffects(g, track, lapDetected, lapCount, lastStartFinishTimestamp, t);
        if sectorEnabled {
          ProcessSector(g, track, targetRadius, t);
        }
      }
    }

    /** lapStats_processUpdate. */
    method ProcessUpdate(g: Geometry, t: Tick) returns (effects: seq<Effect>)
      requires Consistent(State())
      modifies this
      ensures (State(), effects) == Update(g, old(State()), t)
    {
      effects := [];
      if !t.dataCold {
        effects := OnLocationUpdated(g, t);
      }
    }
  }
}
