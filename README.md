# VL53L1X zone monitor in Dafny

This project models the core of the VL53L1X zone monitor library. The library debounces the distance readings of one VL53L1X time-of-flight sensor into stable "object present / absent" decisions, one per configured distance zone.

- **`ZoneObserver`** (module `Zone`) is one zone `[min_distance, max_distance]`.
  - A sample is in the zone when `min_distance <= d <= max_distance`, both bounds inclusive.
  - The zone counts consecutive in-zone and out-of-zone samples.
  - It flips `object_present` only when the counter for the current side reaches the certainty threshold.
  - At that moment it fires `on_enter(distance)` or `on_exit()`, if that callback is set.
  - `Zone.Step` is the pure specification of one `evaluate`. `ZoneState` is the zone's value. The class `ZoneObserver` holds the same fields as the C++ class, and its `Evaluate` method updates them in place and is proved equal to `Step`.
- **Runs of samples** (module `ZoneRuns`): `Run` folds `Step` over a sequence of samples. The lemmas about it state the debounce behaviour: below the threshold, at the threshold, after it, on the exit side, with certainty 0, and when an out-of-zone sample interrupts a run.
- **`VL53L1XZoneMonitor`** has two parts:
  - `MonitorSpec`: the monitor's value (`MonitorState`) and one pure function per operation.
  - `Monitor`: the class. It holds an ordered sequence of distinct `ZoneObserver` objects, the update interval, the last update time and the shared certainty factor. Each method is proved to change the monitor's value (`Abstract()`) exactly as the matching `MonitorSpec` function does.
  - `addZone` appends, `updateZone` and `deleteZone` work in place by index, and `getZone` returns the zone object or null.
  - The interval-gated `performUpdate` feeds one reading to every zone, in order.

The sensor and the clock are inputs:

- `now: uint32` stands for `millis()`.
- `reading: Option<uint16>` stands for the sensor: `Some(d)` when `dataReady()` holds and `read()` returns `d`, `None` when no data is ready.
- A callback is a flag (`hasOnEnter`, `hasOnExit`). The callback a call invokes is returned as an `Event` value: `Enter(d)`, `Exit` or `NoEvent`. Updates return one event per zone, in zone order.

The counters start at 0 together when a zone is constructed (`VL53L1XZoneMonitor.cpp:8-9`). After every `evaluate`, the counter of the sample's side is at least 1 and the other is 0 (`VL53L1XZoneMonitor.cpp:16-17, 27-28`). So "exactly one counter is non-zero" holds only from the first sample on. The model states this as `CountersExclusive` (at least one counter is 0) together with `Step`'s clauses that the sample's side counter grows by one.

## Model

| member | source | states |
|---|---|---|
| `Zone.Fresh` | src/VL53L1XZoneMonitor.cpp:7-9 | a new zone is absent, has both counters at 0, and keeps the given bounds and callbacks |
| `Zone.InZone` | src/VL53L1XZoneMonitor.cpp:13 | both bounds belong to the zone, distances outside them do not, and a zone whose minimum exceeds its maximum matches no distance |
| `Zone.EnterEvent` | src/VL53L1XZoneMonitor.cpp:21-22 | `on_enter` is invoked with the sample's distance exactly when it is set, and otherwise nothing is invoked |
| `Zone.ExitEvent` | src/VL53L1XZoneMonitor.cpp:32-33 | `on_exit` is invoked exactly when it is set, and otherwise nothing is invoked |
| `Zone.Step` | src/VL53L1XZoneMonitor.cpp:11-36 | in-zone is inclusive at both bounds. The sample's side counter grows by one and the other resets to 0, so at least one counter is 0 afterwards. Entry happens iff the sample is in-zone, the new in-count reaches certainty and the zone was absent. Exit happens iff the sample is out-of-zone, the new out-count reaches certainty and the zone was present. `Enter(d)` with this sample's distance fires iff entry happens and `on_enter` is set, `Exit` iff exit happens and `on_exit` is set, and at most one event fires. Bounds and callbacks are unchanged |
| `Zone.ZoneObserver.constructor` | src/VL53L1XZoneMonitor.cpp:7-9 | the constructed object's value is `Fresh` of its arguments. The callbacks default to absent |
| `Zone.ZoneObserver.Evaluate` | src/VL53L1XZoneMonitor.cpp:11-36 | the in-place field updates give exactly the zone and the event of `Step` |
| `Zone.ZoneObserver.IsObjectPresent` | src/VL53L1XZoneMonitor.cpp:38-41 | returns the last confirmed presence and changes nothing |
| `ZoneRuns.Run` | src/VL53L1XZoneMonitor.cpp:11-36 | a run of `evaluate` calls gives one event per sample. It keeps bounds and callbacks, and after at least one sample at least one counter is 0 |
| `ZoneRuns.RunAppend` | src/VL53L1XZoneMonitor.cpp:11-36 | feeding `a` then `b` equals feeding `a + b`, for both the state and the events |
| `ZoneRuns.EnterBelowThreshold` | src/VL53L1XZoneMonitor.cpp:14-23 | from an absent zone with in-count 0, any run of k < certainty in-zone samples (any distances within the bounds) leaves it absent with in-count k and fires nothing |
| `ZoneRuns.EnterAtThreshold` | src/VL53L1XZoneMonitor.cpp:16-23 | for any run of certainty >= 1 in-zone samples, the last one makes the zone present. Only that sample fires, and it fires `on_enter` with its own distance (the certainty-th sample's) if the callback is set |
| `ZoneRuns.PresentStaysOnInZone` | src/VL53L1XZoneMonitor.cpp:18 | once the zone is present, further in-zone samples only grow the in-count and fire nothing |
| `ZoneRuns.ExitBelowThreshold` | src/VL53L1XZoneMonitor.cpp:25-34 | from a present zone with out-count 0, any run of k < certainty out-of-zone samples, below the minimum or above the maximum in any mix, keeps it present and fires nothing |
| `ZoneRuns.ExitAtThreshold` | src/VL53L1XZoneMonitor.cpp:27-34 | for any run of certainty >= 1 out-of-zone samples, the last one makes the zone absent. Only that sample fires, and it fires `on_exit` if the callback is set |
| `ZoneRuns.ZeroCertaintyFollowsSample` | src/VL53L1XZoneMonitor.cpp:18-29 | with certainty 0 one sample sets the presence to its own side, and a change fires at once |
| `ZoneRuns.InterruptedRunStaysAbsent` | src/VL53L1XZoneMonitor.cpp:13-28 | one out-of-zone sample between two in-zone runs, each shorter than certainty, restarts the count: the zone never becomes present and nothing fires, however many in-zone samples there are in total |
| `ZoneRuns.EnterThenExitScenario` | src/VL53L1XZoneMonitor.cpp:11-36 | zone [100, 200], certainty 3: the samples 120,150,180,50,250,50 fire exactly `Enter(180)` on the third and `Exit` on the sixth |
| `MonitorSpec.Initial` | src/VL53L1XZoneMonitor.cpp:43-44 | a new monitor has no zones, last update time 0, and the given interval and certainty. The defaults are 50 ms and 1 |
| `MonitorSpec.AddZone` | src/VL53L1XZoneMonitor.cpp:90-93 | the count grows by one, the earlier zones are unchanged, the new last zone is fresh, and the settings are unchanged |
| `MonitorSpec.UpdateZone` | src/VL53L1XZoneMonitor.cpp:119-133 | an out-of-range index is a no-op. A 0 bound argument keeps the bound and a non-zero one replaces it. Presence, counters, callbacks and all other zones are unchanged |
| `MonitorSpec.DeleteZone` | src/VL53L1XZoneMonitor.cpp:137-143 | an in-range index removes exactly that zone: earlier zones stay and later ones shift down by one. An out-of-range index is a no-op |
| `MonitorSpec.GetZone` | src/VL53L1XZoneMonitor.cpp:110-117 | `Some` iff the index is below the zone count, and then it holds the zone at that index |
| `MonitorSpec.SetCertaintyFactor` | src/VL53L1XZoneMonitor.cpp:154-157 | only the certainty factor changes. No zone's counters or presence change |
| `MonitorSpec.Elapsed` | src/VL53L1XZoneMonitor.cpp:166 | `now - last` in unsigned 32-bit arithmetic, which wraps when the clock has wrapped |
| `MonitorSpec.IntervalElapsed` | src/VL53L1XZoneMonitor.cpp:166 | the gate opens iff the wrapped difference `now - last` is at least the interval. An interval of 0 always opens it, and at the instant of the last update only an interval of 0 does |
| `MonitorSpec.EvaluateAll` | src/VL53L1XZoneMonitor.cpp:172-175 | each zone, in order, becomes what `Step` makes of it with the same sample and certainty, and its event sits at its own index |
| `MonitorSpec.PerformUpdate` | src/VL53L1XZoneMonitor.cpp:164-178 | before the interval has elapsed nothing changes. After it, the last update time becomes `now` even with no data. With a reading, every zone steps with that one distance and the shared certainty, and the events come in zone order. With no reading, the zones are unchanged |
| `MonitorSpec.IsObjectInZone` | src/VL53L1XZoneMonitor.cpp:95-103 | the update runs first. The answer is the updated zone's presence, and false for an out-of-range index |
| `MonitorSpec.GetDistance` | src/VL53L1XZoneMonitor.cpp:145-152 | the reading when data is ready, and 0 otherwise |
| `MonitorSpec.ZoneCountTracksAddsAndDeletes` | src/VL53L1XZoneMonitor.cpp:90-143 | over any sequence of public operations, the zone count is the initial count plus the adds minus the deletions whose index was in range |
| `MonitorSpec.Ticks` | src/VL53L1XZoneMonitor.cpp:180-183 | repeated `update` calls keep the zone count, the interval and the certainty factor |
| `MonitorSpec.Trace` | src/VL53L1XZoneMonitor.cpp:172-175 | the callbacks one zone invokes over a series of updates: exactly one entry per reading that passed the interval gate |
| `MonitorSpec.TicksFeedEveryZone` | src/VL53L1XZoneMonitor.cpp:164-178 | over any series of updates, each zone ends in the state, and fires the callbacks, that it would reach if it alone had been fed, in order, the readings that passed the interval gate |
| `MonitorSpec.SecondUpdateWithinIntervalIsNoOp` | src/VL53L1XZoneMonitor.cpp:166-168 | after an update that ran, a second update less than one interval later changes nothing and fires nothing |
| `MonitorSpec.DeleteShiftsLaterZones` | src/VL53L1XZoneMonitor.cpp:137-143 | after deleting index i, `getZone(j)` gives the old zone j for j < i and the old zone j + 1 otherwise |
| `MonitorSpec.UpdateZoneCannotSetZero` | src/VL53L1XZoneMonitor.cpp:123-131 | a bound can become 0 only if it already was 0, and `updateZone(i, 0, 0)` is a no-op |
| `MonitorSpec.UpdateZoneAllowsInvertedBounds` | src/VL53L1XZoneMonitor.cpp:119-133 | no `min <= max` check is made: a minimum above the kept maximum is stored, and the zone then matches no sample and cannot become present |
| `MonitorSpec.OverlappingZonesBothDetect` | src/VL53L1XZoneMonitor.cpp:172-175 | zones [100, 300] and [200, 400] with certainty 1 both become present on a sample of 250, and each fires `Enter(250)` |
| `Monitor.VL53L1XZoneMonitor.constructor` | src/VL53L1XZoneMonitor.cpp:43-50 | the new monitor's value is `Initial` of the interval and the certainty, which default to 50 ms and 1 |
| `Monitor.VL53L1XZoneMonitor.AddZone` | src/VL53L1XZoneMonitor.cpp:90-93 | the value changes as `MonitorSpec.AddZone` says. The earlier zone objects are kept and the new one is freshly allocated |
| `Monitor.VL53L1XZoneMonitor.UpdateZone` | src/VL53L1XZoneMonitor.cpp:119-133 | the bounds are written in place, and the value changes as `MonitorSpec.UpdateZone` says |
| `Monitor.VL53L1XZoneMonitor.DeleteZone` | src/VL53L1XZoneMonitor.cpp:137-143 | the value changes as `MonitorSpec.DeleteZone` says. The remaining zone objects are the old ones minus the one at the index, in order, and stay distinct. An out-of-range index leaves the objects as they were |
| `Monitor.VL53L1XZoneMonitor.GetZone` | src/VL53L1XZoneMonitor.cpp:110-117 | returns the zone object at the index, or null when it is out of range. This agrees with `MonitorSpec.GetZone` |
| `Monitor.VL53L1XZoneMonitor.GetZoneCount` | src/VL53L1XZoneMonitor.cpp:105-108 | the number of zones held |
| `Monitor.VL53L1XZoneMonitor.SetCertaintyFactor` | src/VL53L1XZoneMonitor.cpp:154-157 | only the certainty field is written, as `MonitorSpec.SetCertaintyFactor` says |
| `Monitor.VL53L1XZoneMonitor.GetCertaintyFactor` | src/VL53L1XZoneMonitor.cpp:159-162 | returns the stored certainty factor |
| `Monitor.VL53L1XZoneMonitor.GetDistance` | src/VL53L1XZoneMonitor.cpp:145-152 | the reading when data is ready, and 0 otherwise |
| `Monitor.VL53L1XZoneMonitor.EvaluateZones` | src/VL53L1XZoneMonitor.cpp:172-175 | the loop evaluates each zone object in place, in order. The zones and the events are those of `MonitorSpec.EvaluateAll` |
| `Monitor.VL53L1XZoneMonitor.PerformUpdate` | src/VL53L1XZoneMonitor.cpp:164-178 | the value and the events are those of `MonitorSpec.PerformUpdate` |
| `Monitor.VL53L1XZoneMonitor.Update` | src/VL53L1XZoneMonitor.cpp:180-183 | the public update does exactly what `PerformUpdate` does |
| `Monitor.VL53L1XZoneMonitor.IsObjectInZone` | src/VL53L1XZoneMonitor.cpp:95-103 | the value, the events and the answer are those of `MonitorSpec.IsObjectInZone` |

## Left out

- The VL53L1X driver is not part of this model: `init`, `startContinuous`, `setBus`, the distance-mode, timing-budget and timeout setters and getters (`VL53L1XZoneMonitor.cpp:43-88`). The constructor's bus handle is dropped for the same reason. A sensor sample is only the `reading` input.
- `getDistance` and `performUpdate` each take the reading as an input. The model does not capture that the driver's `read` consumes the data-ready flag, so a `getDistance` call cannot hide a sample from a later update here.
- `millis()` is the `now` input. `performUpdate` calls it twice, and the model treats both calls as the same instant.
- Callbacks are not executed. Their presence is a flag, and their invocation is the returned `Event`. What the callbacks themselves do (printing, logging) is outside this code.
- `Monitor.VL53L1XZoneMonitor.GetZone`: the returned object stays valid in the model after a later `AddZone` or `DeleteZone`. In C++ the pointer is invalidated by both, so the model does not capture that invalidation or the aliasing it allows.
- `Zone.Step`: the counters are unbounded naturals, so `size_t` overflow of `in_zone_count` and `out_zone_count` is not modelled. The same holds for the indices and the certainty factor.
- Threading and the host loop that calls `update` are outside this code.
