/**
 * The value of a `VL53L1XZoneMonitor` and what each of its operations does
 * to it.
 *
 * The sensor and the clock are inputs: `now` is the value of `millis()`, and
 * `reading` is `Some(d)` when the sensor reports data ready and `read` gives
 * `d`, `None` when no data is ready.
 */
module MonitorSpec {
  import opened Types
  import opened Zone
  import ZoneRuns

  /** The constructor's default update interval, in milliseconds. */
  const DEFAULT_INTERVAL_MS: uint32 := 50
  /** The constructor's default certainty factor. */
  const DEFAULT_CERTAINTY: nat := 1

  datatype MonitorState = MonitorState(
    zones: seq<ZoneState>,
    updateIntervalMs: uint32,
    lastUpdateTime: uint32,
    certaintyFactor: nat)

  /** The two states agree on everything but the zones. */
  predicate SameSettings(a: MonitorState, b: MonitorState)
  {
    a.updateIntervalMs == b.updateIntervalMs && a.lastUpdateTime == b.lastUpdateTime &&
    a.certaintyFactor == b.certaintyFactor
  }

  /** A freshly constructed monitor: no zones, last update at time 0. */
  function Initial(intervalMs: uint32, certainty: nat): (m: MonitorState)
    ensures m.zones == [] && m.lastUpdateTime == 0
    ensures m.updateIntervalMs == intervalMs && m.certaintyFactor == certainty
  {
    MonitorState([], intervalMs, 0, certainty)
  }

  /** `addZone`: a fresh zone goes at the end; the zones before it are kept. */
  function AddZone(m: MonitorState, min: uint16, max: uint16, onEnter: bool, onExit: bool): (r: MonitorState)
    ensures SameSettings(r, m)
    ensures |r.zones| == |m.zones| + 1
    ensures r.zones[..|m.zones|] == m.zones
    ensures r.zones[|m.zones|] == Fresh(min, max, onEnter, onExit)
  {
    m.(zones := m.zones + [Fresh(min, max, onEnter, onExit)])
  }

  /**
   * `updateZone`: a bound argument of 0 keeps the bound, any other value
   * replaces it; an index out of range changes nothing.
   */
  function UpdateZone(m: MonitorState, index: nat, min: uint16, max: uint16): (r: MonitorState)
    ensures index >= |m.zones| ==> r == m
    ensures SameSettings(r, m) && |r.zones| == |m.zones|
    ensures forall j :: 0 <= j < |m.zones| && j != index ==> r.zones[j] == m.zones[j]
    ensures index < |m.zones| ==>
              var old_, new_ := m.zones[index], r.zones[index];
              new_.minDistance == (if min != 0 then min else old_.minDistance) &&
              new_.maxDistance == (if max != 0 then max else old_.maxDistance) &&
              new_.present == old_.present &&
              new_.inCount == old_.inCount && new_.outCount == old_.outCount &&
              new_.hasOnEnter == old_.hasOnEnter && new_.hasOnExit == old_.hasOnExit
  {
    if index < |m.zones| then
      var z := m.zones[index];
      var z' := z.(minDistance := if min != 0 then min else z.minDistance,
                   maxDistance := if max != 0 then max else z.maxDistance);
      m.(zones := m.zones[index := z'])
    else
      m
  }

  /**
   * `deleteZone`: the zone at `index` goes, the later ones move down by one;
   * an index out of range changes nothing.
   */
  function DeleteZone(m: MonitorState, index: nat): (r: MonitorState)
    ensures SameSettings(r, m)
    ensures index >= |m.zones| ==> r == m
    ensures index < |m.zones| ==>
              |r.zones| == |m.zones| - 1 &&
              (forall j :: 0 <= j < index ==> r.zones[j] == m.zones[j]) &&
              (forall j :: index <= j < |r.zones| ==> r.zones[j] == m.zones[j + 1])
  {
    if index < |m.zones| then m.(zones := m.zones[..index] + m.zones[index + 1..]) else m
  }

  /** `getZone`: the zone at `index`, or `None` when there is none. */
  function GetZone(m: MonitorState, index: nat): (r: Option<ZoneState>)
    ensures r.Some? <==> index < |m.zones|
    ensures r.Some? ==> r.value == m.zones[index]
  {
    if index < |m.zones| then Some(m.zones[index]) else None
  }

  /** `setCertaintyFactor`: only the shared threshold changes. */
  function SetCertaintyFactor(m: MonitorState, certainty: nat): (r: MonitorState)
    ensures r.certaintyFactor == certainty
    ensures r.zones == m.zones
    ensures r.updateIntervalMs == m.updateIntervalMs && r.lastUpdateTime == m.lastUpdateTime
  {
    m.(certaintyFactor := certainty)
  }

  /** `now - last` in unsigned 32-bit arithmetic: the time since `last`, across one wrap of the clock. */
  function Elapsed(now: uint32, last: uint32): (e: uint32)
    ensures now >= last ==> e == now - last
    ensures now < last ==> e == now + 0x1_0000_0000 - last
  {
    (now - last) % 0x1_0000_0000
  }

  /**
   * Every zone, in order, evaluates the one sample `distance`; the zones
   * after the update and the callback each one invoked.
   */
  function EvaluateAll(zones: seq<ZoneState>, distance: uint16, certainty: nat): (r: (seq<ZoneState>, seq<Event>))
    ensures |r.0| == |zones| && |r.1| == |zones|
    ensures forall j :: 0 <= j < |zones| ==> (r.0[j], r.1[j]) == Step(zones[j], distance, certainty)
    decreases |zones|
  {
    if zones == [] then ([], [])
    else
      var n := |zones| - 1;
      var before := EvaluateAll(zones[..n], distance, certainty);
      var last := Step(zones[n], distance, certainty);
      (before.0 + [last.0], before.1 + [last.1])
  }

  /** The gate of `performUpdate`: the update interval has elapsed since the last update. */
  predicate IntervalElapsed(m: MonitorState, now: uint32)
    ensures now >= m.lastUpdateTime ==> (IntervalElapsed(m, now) <==> now - m.lastUpdateTime >= m.updateIntervalMs)
    ensures now < m.lastUpdateTime ==>
              (IntervalElapsed(m, now) <==> now + 0x1_0000_0000 - m.lastUpdateTime >= m.updateIntervalMs)
    // an interval of 0 lets every update through; at the very instant of the last update only that one does
    ensures m.updateIntervalMs == 0 ==> IntervalElapsed(m, now)
    ensures now == m.lastUpdateTime ==> (IntervalElapsed(m, now) <==> m.updateIntervalMs == 0)
  {
    Elapsed(now, m.lastUpdateTime) >= m.updateIntervalMs
  }

  /**
   * `performUpdate`: before the interval has elapsed nothing changes; after
   * it, the update time becomes `now` and, when data is ready, every zone
   * evaluates that one reading with the shared certainty factor, in order.
   * The result holds the callbacks invoked, in zone order.
   */
  function PerformUpdate(m: MonitorState, now: uint32, reading: Option<uint16>): (r: (MonitorState, seq<Event>))
    ensures !IntervalElapsed(m, now) ==> r == (m, [])
    ensures IntervalElapsed(m, now) ==>
              r.0.lastUpdateTime == now &&
              r.0.updateIntervalMs == m.updateIntervalMs && r.0.certaintyFactor == m.certaintyFactor
    ensures IntervalElapsed(m, now) && reading.None? ==> r.0.zones == m.zones && r.1 == []
    ensures IntervalElapsed(m, now) && reading.Some? ==>
              |r.0.zones| == |m.zones| && |r.1| == |m.zones| &&
              forall j :: 0 <= j < |m.zones| ==>
                (r.0.zones[j], r.1[j]) == Step(m.zones[j], reading.value, m.certaintyFactor)
  {
    if !IntervalElapsed(m, now) then (m, [])
    else
      var m' := m.(lastUpdateTime := now);
      match reading
      case None => (m', [])
      case Some(d) =>
        var evaluated := EvaluateAll(m.zones, d, m.certaintyFactor);
        (m'.(zones := evaluated.0), evaluated.1)
  }

  /**
   * `isObjectInZone`: the update runs first; the answer is the updated
   * zone's presence, or false for an index out of range.
   */
  function IsObjectInZone(m: MonitorState, index: nat, now: uint32, reading: Option<uint16>)
    : (r: (MonitorState, seq<Event>, bool))
    ensures (r.0, r.1) == PerformUpdate(m, now, reading)
    ensures r.2 <==> index < |m.zones| && r.0.zones[index].present
  {
    var u := PerformUpdate(m, now, reading);
    (u.0, u.1, index < |u.0.zones| && u.0.zones[index].present)
  }

  /** `getDistance`: the reading, or 0 when no data is ready. */
  function GetDistance(reading: Option<uint16>): (d: uint16)
    ensures reading.Some? ==> d == reading.value
    ensures reading.None? ==> d == 0
  {
    match reading
    case Some(d) => d
    case None => 0
  }

  // ---------------------------------------------------------------------
  // Properties over sequences of operations
  // ---------------------------------------------------------------------

  /** One call on the monitor's public interface. */
  datatype Op =
    | Add(min: uint16, max: uint16, onEnter: bool, onExit: bool)
    | Update(index: nat, newMin: uint16, newMax: uint16)
    | Delete(index: nat)
    | SetCertainty(certainty: nat)
    | Tick(now: uint32, reading: Option<uint16>)
    | Query(index: nat, now: uint32, reading: Option<uint16>)

  function Apply(m: MonitorState, op: Op): MonitorState
  {
    match op
    case Add(min, max, onEnter, onExit) => AddZone(m, min, max, onEnter, onExit)
    case Update(index, newMin, newMax) => UpdateZone(m, index, newMin, newMax)
    case Delete(index) => DeleteZone(m, index)
    case SetCertainty(c) => SetCertaintyFactor(m, c)
    case Tick(now, reading) => PerformUpdate(m, now, reading).0
    case Query(index, now, reading) => IsObjectInZone(m, index, now, reading).0
  }

  /** The monitor after the operations `ops`, in order. */
  function Replay(m: MonitorState, ops: seq<Op>): MonitorState
    decreases |ops|
  {
    if ops == [] then m else Apply(Replay(m, ops[..|ops| - 1]), ops[|ops| - 1])
  }

  /** How many of `ops` add a zone. */
  function Added(ops: seq<Op>): nat
    decreases |ops|
  {
    if ops == [] then 0 else Added(ops[..|ops| - 1]) + (if ops[|ops| - 1].Add? then 1 else 0)
  }

  /** How many of `ops` delete a zone with an index in range when they run. */
  function Removed(m: MonitorState, ops: seq<Op>): nat
    decreases |ops|
  {
    if ops == [] then 0
    else
      var before := ops[..|ops| - 1];
      var op := ops[|ops| - 1];
      Removed(m, before) + (if op.Delete? && op.index < |Replay(m, before).zones| then 1 else 0)
  }

  /** The zone count is the zones added minus the deletions that took effect. */
  lemma {:induction false} ZoneCountTracksAddsAndDeletes(m: MonitorState, ops: seq<Op>)
    ensures |Replay(m, ops).zones| + Removed(m, ops) == |m.zones| + Added(ops)
    decreases |ops|
  {
    if ops != [] {
      ZoneCountTracksAddsAndDeletes(m, ops[..|ops| - 1]);
    }
  }

  /** Calls of the periodic update: the clock and the sensor at each call. */
  datatype Sample = Sample(now: uint32, reading: Option<uint16>)

  /** The monitor after the periodic updates `ss`. */
  function Ticks(m: MonitorState, ss: seq<Sample>): (r: MonitorState)
    ensures |r.zones| == |m.zones| && r.certaintyFactor == m.certaintyFactor
    ensures r.updateIntervalMs == m.updateIntervalMs
    decreases |ss|
  {
    if ss == [] then m
    else
      var s := ss[|ss| - 1];
      PerformUpdate(Ticks(m, ss[..|ss| - 1]), s.now, s.reading).0
  }

  /** The readings the updates `ss` actually handed to the zones. */
  function Delivered(m: MonitorState, ss: seq<Sample>): seq<uint16>
    decreases |ss|
  {
    if ss == [] then []
    else
      var before := ss[..|ss| - 1];
      var s := ss[|ss| - 1];
      Delivered(m, before) +
        (if IntervalElapsed(Ticks(m, before), s.now) && s.reading.Some? then [s.reading.value] else [])
  }

  /**
   * The callbacks zone `j` invoked during the updates `ss`: one entry for
   * each update that handed a reading to the zones.
   */
  function Trace(m: MonitorState, ss: seq<Sample>, j: nat): (r: seq<Event>)
    requires j < |m.zones|
    ensures |r| == |Delivered(m, ss)|
    decreases |ss|
  {
    if ss == [] then []
    else
      var before := ss[..|ss| - 1];
      var s := ss[|ss| - 1];
      var t := Ticks(m, before);
      Trace(m, before, j) +
        (if IntervalElapsed(t, s.now) && s.reading.Some? then [PerformUpdate(t, s.now, s.reading).1[j]] else [])
  }

  /**
   * Through any series of periodic updates, each zone goes, and fires its
   * callbacks, exactly as if it alone had been fed the readings that passed
   * the interval gate, in order, with the shared certainty factor.
   */
  lemma {:induction false} TicksFeedEveryZone(m: MonitorState, ss: seq<Sample>, j: nat)
    requires j < |m.zones|
    ensures ZoneRuns.Run(m.zones[j], Delivered(m, ss), m.certaintyFactor) == (Ticks(m, ss).zones[j], Trace(m, ss, j))
    decreases |ss|
  {
    if ss != [] {
      var before := ss[..|ss| - 1];
      var s := ss[|ss| - 1];
      TicksFeedEveryZone(m, before, j);
      var ds := Delivered(m, before);
      var t := Ticks(m, before);
      if IntervalElapsed(t, s.now) && s.reading.Some? {
        var ds' := ds + [s.reading.value];
        assert Delivered(m, ss) == ds';
        assert ds'[..|ds'| - 1] == ds;
      } else {
        assert Delivered(m, ss) == ds;
        assert Trace(m, ss, j) == Trace(m, before, j) + [];
        assert Trace(m, before, j) + [] == Trace(m, before, j);
        assert ZoneRuns.Run(m.zones[j], Delivered(m, ss), m.certaintyFactor) == ZoneRuns.Run(m.zones[j], ds, m.certaintyFactor);
        assert Ticks(m, ss).zones == t.zones;
      }
    }
  }

  /**
   * Two updates less than one interval apart sample the sensor once: once
   * the first has run, the second changes nothing.
   */
  lemma SecondUpdateWithinIntervalIsNoOp(m: MonitorState, t1: uint32, r1: Option<uint16>, t2: uint32, r2: Option<uint16>)
    requires IntervalElapsed(m, t1)
    requires Elapsed(t2, t1) < m.updateIntervalMs
    ensures var first := PerformUpdate(m, t1, r1).0;
            PerformUpdate(first, t2, r2) == (first, [])
  {
  }

  /** Deleting zone `index` renumbers the later zones: zone j + 1 becomes zone j. */
  lemma DeleteShiftsLaterZones(m: MonitorState, index: nat, j: nat)
    requires index < |m.zones|
    ensures GetZone(DeleteZone(m, index), j) ==
              (if j < index then GetZone(m, j) else GetZone(m, j + 1))
  {
  }

  /** `updateZone` can never set a bound to 0: 0 always means "unchanged". */
  lemma UpdateZoneCannotSetZero(m: MonitorState, index: nat, min: uint16, max: uint16)
    requires index < |m.zones|
    ensures UpdateZone(m, index, min, max).zones[index].minDistance == 0 ==> m.zones[index].minDistance == 0
    ensures UpdateZone(m, index, min, max).zones[index].maxDistance == 0 ==> m.zones[index].maxDistance == 0
    ensures UpdateZone(m, index, 0, 0) == m
  {
  }

  /**
   * `updateZone` does not check the bounds against each other: a new minimum
   * above the kept maximum leaves a zone that no sample is in, so it can
   * never confirm an entry.
   */
  lemma UpdateZoneAllowsInvertedBounds(m: MonitorState, index: nat, min: uint16, d: uint16, certainty: nat)
    requires index < |m.zones| && min > m.zones[index].maxDistance
    ensures var z := UpdateZone(m, index, min, 0).zones[index];
            z.minDistance == min && z.maxDistance == m.zones[index].maxDistance &&
            !InZone(z, d) && (Step(z, d, certainty).0.present ==> z.present)
  {
  }

  /**
   * Overlapping zones [100, 300] and [200, 400] each detect a sample of 250
   * independently, with certainty 1.
   */
  lemma OverlappingZonesBothDetect(now: uint32)
    requires now >= DEFAULT_INTERVAL_MS
    ensures var m := Initial(DEFAULT_INTERVAL_MS, DEFAULT_CERTAINTY);
            var m2 := AddZone(AddZone(m, 100, 300, true, false), 200, 400, true, false);
            var r := PerformUpdate(m2, now, Some(250));
            r.0.zones[0].present && r.0.zones[1].present && r.1 == [Enter(250), Enter(250)]
  {
  }
}
