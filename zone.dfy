/**
 * One monitoring zone: the debouncing state machine of `ZoneObserver`.
 *
 * `ZoneState` is the value of a zone (its bounds, its confirmed presence,
 * its two consecutive-sample counters and whether each callback is set),
 * `Step` is what one call of `evaluate` does to it, and the class
 * `ZoneObserver` holds the same fields and updates them in place.
 */
module Zone {
  import opened Types

  /** The callback one `evaluate` invokes: `on_enter(distance)`, `on_exit()` or none. */
  datatype Event = NoEvent | Enter(distance: uint16) | Exit

  datatype ZoneState = ZoneState(
    minDistance: uint16,
    maxDistance: uint16,
    present: bool,
    inCount: nat,
    outCount: nat,
    hasOnEnter: bool,
    hasOnExit: bool)

  /** The zone as constructed: absent, both counters zero. */
  function Fresh(minDistance: uint16, maxDistance: uint16, hasOnEnter: bool, hasOnExit: bool): (z: ZoneState)
    ensures !z.present && z.inCount == 0 && z.outCount == 0
    ensures z.minDistance == minDistance && z.maxDistance == maxDistance
    ensures z.hasOnEnter == hasOnEnter && z.hasOnExit == hasOnExit
  {
    ZoneState(minDistance, maxDistance, false, 0, 0, hasOnEnter, hasOnExit)
  }

  /** A sample lies in the zone when it is between the bounds, both inclusive. */
  predicate InZone(z: ZoneState, distance: uint16)
    // both bounds belong to the zone
    ensures distance == z.minDistance <= z.maxDistance ==> InZone(z, distance)
    ensures z.minDistance <= z.maxDistance == distance ==> InZone(z, distance)
    // nothing outside the bounds does, and a zone with inverted bounds matches nothing
    ensures distance < z.minDistance || distance > z.maxDistance ==> !InZone(z, distance)
    ensures z.minDistance > z.maxDistance ==> !InZone(z, distance)
  {
    z.minDistance <= distance <= z.maxDistance
  }

  /** The two zones have the same bounds and the same callbacks. */
  predicate SameConfig(a: ZoneState, b: ZoneState)
  {
    a.minDistance == b.minDistance && a.maxDistance == b.maxDistance &&
    a.hasOnEnter == b.hasOnEnter && a.hasOnExit == b.hasOnExit
  }

  /** At most one of the two counters is running. */
  predicate CountersExclusive(z: ZoneState)
  {
    z.inCount == 0 || z.outCount == 0
  }

  /** The callback fired on a confirmed entry with sample `distance`, if it is set. */
  function EnterEvent(z: ZoneState, distance: uint16): (e: Event)
    ensures e == Enter(distance) <==> z.hasOnEnter
    ensures e == NoEvent <==> !z.hasOnEnter
  {
    if z.hasOnEnter then Enter(distance) else NoEvent
  }

  /** The callback fired on a confirmed exit, if it is set. */
  function ExitEvent(z: ZoneState): (e: Event)
    ensures e == Exit <==> z.hasOnExit
    ensures e == NoEvent <==> !z.hasOnExit
  {
    if z.hasOnExit then Exit else NoEvent
  }

  /**
   * One call of `evaluate(distance, certainty)`: the new zone and the callback
   * it invokes.
   */
  function Step(z: ZoneState, distance: uint16, certainty: nat): (r: (ZoneState, Event))
    ensures SameConfig(r.0, z)
    // the counter of the sample's side grows by one, the other one restarts
    ensures InZone(z, distance) ==> r.0.inCount == z.inCount + 1 && r.0.outCount == 0
    ensures !InZone(z, distance) ==> r.0.outCount == z.outCount + 1 && r.0.inCount == 0
    ensures CountersExclusive(r.0)
    // entry is confirmed exactly when an in-zone run reaches the threshold while absent
    ensures (!z.present && r.0.present) <==>
              (InZone(z, distance) && z.inCount + 1 >= certainty && !z.present)
    // exit is confirmed exactly when an out-of-zone run reaches the threshold while present
    ensures (z.present && !r.0.present) <==>
              (!InZone(z, distance) && z.outCount + 1 >= certainty && z.present)
    // on_enter gets this sample's distance, on_exit nothing; each only if it is set
    ensures r.1 == NoEvent || r.1 == Enter(distance) || r.1 == Exit
    ensures r.1 == Enter(distance) <==> !z.present && r.0.present && z.hasOnEnter
    ensures r.1 == Exit <==> z.present && !r.0.present && z.hasOnExit
  {
    if InZone(z, distance) then
      var n := z.inCount + 1;
      if n >= certainty && !z.present then
        (z.(inCount := n, outCount := 0, present := true), EnterEvent(z, distance))
      else
        (z.(inCount := n, outCount := 0), NoEvent)
    else
      var n := z.outCount + 1;
      if n >= certainty && z.present then
        (z.(outCount := n, inCount := 0, present := false), ExitEvent(z))
      else
        (z.(outCount := n, inCount := 0), NoEvent)
  }

  /** A zone of the monitor, updated in place by `Evaluate` and by the monitor. */
  class ZoneObserver {
    var minDistance: uint16
    var maxDistance: uint16
    var objectPresent: bool
    var hasOnEnter: bool
    var hasOnExit: bool
    var inZoneCount: nat
    var outZoneCount: nat

    /** The value of this zone. */
    function State(): ZoneState
      reads this
    {
      ZoneState(minDistance, maxDistance, objectPresent, inZoneCount, outZoneCount, hasOnEnter, hasOnExit)
    }

    constructor (min: uint16, max: uint16, onEnter: bool := false, onExit: bool := false)
      ensures State() == Fresh(min, max, onEnter, onExit)
    {
      minDistance, maxDistance := min, max;
      objectPresent := false;
      hasOnEnter, hasOnExit := onEnter, onExit;
      inZoneCount, outZoneCount := 0, 0;
    }

    /** Feeds one sample to the zone and returns the callback it invokes. */
    method Evaluate(distance: uint16, certainty: nat) returns (fired: Event)
      modifies this
      ensures (State(), fired) == Step(old(State()), distance, certainty)
    {
      fired := NoEvent;
      var inZone := distance >= minDistance && distance <= maxDistance;
      if inZone {
        inZoneCount := inZoneCount + 1;
        outZoneCount := 0;
        if inZoneCount >= certainty && !objectPresent {
          objectPresent := true;
          if hasOnEnter {
            fired := Enter(distance);
          }
        }
      } else {
        outZoneCount := outZoneCount + 1;
        inZoneCount := 0;
        if outZoneCount >= certainty && objectPresent {
          objectPresent := false;
          if hasOnExit {
            fired := Exit;
          }
        }
      }
    }

    /** The last confirmed presence; reads only. */
    method IsObjectPresent() returns (present: bool)
      ensures present == State().present
    {
      present := objectPresent;
    }
  }
}
