/**
 * `VL53L1XZoneMonitor`: an ordered list of zone objects, the update
 * interval, the time of the last update and the shared certainty factor,
 * all updated in place. Each method is proved to do to the monitor's value
 * (`Abstract`) what the matching function of `MonitorSpec` does.
 */
module Monitor {
  import opened Types
  import opened Zone
  import MS = MonitorSpec

  /** The values of the zone objects `zs`, in order. */
  ghost function StatesOf(zs: seq<ZoneObserver>): (r: seq<ZoneState>)
    reads zs
    ensures |r| == |zs|
    ensures forall j :: 0 <= j < |zs| ==> r[j] == zs[j].State()
  {
    seq(|zs|, j reads zs requires 0 <= j < |zs| => zs[j].State())
  }

  class VL53L1XZoneMonitor {
    var zones: seq<ZoneObserver>
    var updateIntervalMs: uint32
    var lastUpdateTime: uint32
    var certaintyFactor: nat

    /** Each zone is its own object, as each element of a vector is its own storage. */
    ghost predicate Valid()
      reads this`zones
    {
      forall i, j :: 0 <= i < |zones| && 0 <= j < |zones| && i != j ==> zones[i] != zones[j]
    }

    /** The value of the monitor. */
    ghost function Abstract(): MS.MonitorState
      reads this, zones
    {
      MS.MonitorState(StatesOf(zones), updateIntervalMs, lastUpdateTime, certaintyFactor)
    }

    /** The bus handle of the C++ constructor is not modelled. */
    constructor (intervalMs: uint32 := MS.DEFAULT_INTERVAL_MS, certainty: nat := MS.DEFAULT_CERTAINTY)
      ensures Valid()
      ensures Abstract() == MS.Initial(intervalMs, certainty)
    {
      zones := [];
      updateIntervalMs := intervalMs;
      lastUpdateTime := 0;
      certaintyFactor := certainty;
    }

    method AddZone(min: uint16, max: uint16, onEnter: bool := false, onExit: bool := false)
      requires Valid()
      modifies this`zones
      ensures Valid()
      ensures Abstract() == MS.AddZone(old(Abstract()), min, max, onEnter, onExit)
      ensures zones[..|old(zones)|] == old(zones) && fresh(zones[|zones| - 1])
    {
      var zone := new ZoneObserver(min, max, onEnter, onExit);
      zones := zones + [zone];
      assert StatesOf(zones) == old(StatesOf(zones)) + [zone.State()];
    }

    /** A bound argument of 0 (the default) leaves that bound as it is. */
    method UpdateZone(index: nat, min: uint16 := 0, max: uint16 := 0)
      requires Valid()
      modifies zones
      ensures Valid()
      ensures Abstract() == MS.UpdateZone(old(Abstract()), index, min, max)
    {
      if index < |zones| {
        if min != 0 {
          zones[index].minDistance := min;
        }
        if max != 0 {
          zones[index].maxDistance := max;
        }
      }
      assert StatesOf(zones) == MS.UpdateZone(old(Abstract()), index, min, max).zones;
    }

    method DeleteZone(index: nat)
      requires Valid()
      modifies this`zones
      ensures Valid()
      ensures Abstract() == MS.DeleteZone(old(Abstract()), index)
      ensures zones == if index < |old(zones)| then old(zones[..index] + zones[index + 1..]) else old(zones)
    {
      if index < |zones| {
        zones := zones[..index] + zones[index + 1..];
      }
      assert StatesOf(zones) == MS.DeleteZone(old(Abstract()), index).zones;
    }

    /**
     * The zone at `index`, or null. The reference stays usable after a later
     * `AddZone` or `DeleteZone` here, unlike the pointer of the C++ code.
     */
    method GetZone(index: nat) returns (zone: ZoneObserver?)
      ensures index < |zones| ==> zone == zones[index]
      ensures index >= |zones| ==> zone == null
      ensures zone != null ==> MS.GetZone(Abstract(), index) == Some(zone.State())
      ensures zone == null ==> MS.GetZone(Abstract(), index) == None
    {
      if index < |zones| {
        zone := zones[index];
      } else {
        zone := null;
      }
    }

    method GetZoneCount() returns (count: nat)
      ensures count == |zones| == |Abstract().zones|
    {
      count := |zones|;
    }

    method SetCertaintyFactor(certainty: nat)
      modifies this`certaintyFactor
      ensures Abstract() == MS.SetCertaintyFactor(old(Abstract()), certainty)
    {
      certaintyFactor := certainty;
    }

    method GetCertaintyFactor() returns (certainty: nat)
      ensures certainty == certaintyFactor == Abstract().certaintyFactor
    {
      certainty := certaintyFactor;
    }

    /** The on-demand read: the reading, or 0 when no data is ready. */
    method GetDistance(reading: Option<uint16>) returns (distance: uint16)
      ensures distance == MS.GetDistance(reading)
      ensures reading.None? ==> distance == 0
    {
      if reading.Some? {
        distance := reading.value;
      } else {
        distance := 0;
      }
    }

    /**
     * Every zone, in order, evaluates the one sample `distance` with the
     * shared certainty factor. Returns the callbacks invoked, in zone order.
     */
    method EvaluateZones(distance: uint16) returns (fired: seq<Event>)
      requires Valid()
      modifies zones
      ensures (StatesOf(zones), fired) == MS.EvaluateAll(old(StatesOf(zones)), distance, certaintyFactor)
    {
      ghost var before := StatesOf(zones);
      ghost var after := MS.EvaluateAll(before, distance, certaintyFactor);
      fired := [];
      var k := 0;
      while k < |zones|
        invariant 0 <= k <= |zones| && |fired| == k
        invariant forall j :: 0 <= j < k ==> zones[j].State() == after.0[j] && fired[j] == after.1[j]
        invariant forall j :: k <= j < |zones| ==> zones[j].State() == before[j]
      {
        var e := zones[k].Evaluate(distance, certaintyFactor);
        fired := fired + [e];
        k := k + 1;
      }
      assert StatesOf(zones) == after.0;
      assert fired == after.1;
      assert before == old(StatesOf(zones));
    }

    /**
     * The interval-gated update at time `now`: once the interval has
     * elapsed, record `now` and, when a reading is ready, feed it to every
     * zone in order. Returns the callbacks invoked, in zone order.
     */
    method PerformUpdate(now: uint32, reading: Option<uint16>) returns (fired: seq<Event>)
      requires Valid()
      modifies this`lastUpdateTime, zones
      ensures Valid()
      ensures (Abstract(), fired) == MS.PerformUpdate(old(Abstract()), now, reading)
    {
      fired := [];
      if MS.Elapsed(now, lastUpdateTime) >= updateIntervalMs {
        lastUpdateTime := now;
        if reading.Some? {
          fired := EvaluateZones(reading.value);
        }
      }
    }

    /** The public `update`: runs `PerformUpdate`. */
    method Update(now: uint32, reading: Option<uint16>) returns (fired: seq<Event>)
      requires Valid()
      modifies this`lastUpdateTime, zones
      ensures Valid()
      ensures (Abstract(), fired) == MS.PerformUpdate(old(Abstract()), now, reading)
    {
      fired := PerformUpdate(now, reading);
    }

    /**
     * Runs the update first, then reports whether zone `index` holds an
     * object; false when there is no such zone.
     */
    method IsObjectInZone(index: nat, now: uint32, reading: Option<uint16>) returns (present: bool, fired: seq<Event>)
      requires Valid()
      modifies this`lastUpdateTime, zones
      ensures Valid()
      ensures (Abstract(), fired, present) == MS.IsObjectInZone(old(Abstract()), index, now, reading)
    {
      fired := PerformUpdate(now, reading);
      if index < |zones| {
        present := zones[index].IsObjectPresent();
      } else {
        present := false;
      }
    }
  }
}
