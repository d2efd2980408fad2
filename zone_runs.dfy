/**
 * Runs of samples fed to one zone: the debounce threshold in action.
 *
 * `Run` feeds a sequence of distances to a zone one `Step` at a time and
 * collects the callbacks, one entry per sample.
 */
module ZoneRuns {
  import opened Types
  import opened Zone

  /** `n` copies of `x`. */
  function Repeat<T>(x: T, n: nat): (r: seq<T>)
    ensures |r| == n
    ensures forall i :: 0 <= i < n ==> r[i] == x
  {
    if n == 0 then [] else Repeat(x, n - 1) + [x]
  }

  /** The zone after the samples `ds`, with the callback each sample invoked. */
  function Run(z: ZoneState, ds: seq<uint16>, certainty: nat): (r: (ZoneState, seq<Event>))
    ensures |r.1| == |ds|
    ensures SameConfig(r.0, z)
    ensures ds != [] ==> CountersExclusive(r.0)
    decreases |ds|
  {
    if ds == [] then (z, [])
    else
      var before := Run(z, ds[..|ds| - 1], certainty);
      var last := Step(before.0, ds[|ds| - 1], certainty);
      (last.0, before.1 + [last.1])
  }

  /** Feeding `a` and then `b` is feeding `a + b`. */
  lemma {:induction false} RunAppend(z: ZoneState, a: seq<uint16>, b: seq<uint16>, certainty: nat)
    ensures var first := Run(z, a, certainty);
            var second := Run(first.0, b, certainty);
            Run(z, a + b, certainty) == (second.0, first.1 + second.1)
    decreases |b|
  {
    var first := Run(z, a, certainty);
    if b == [] {
      assert a + b == a;
      assert Run(first.0, b, certainty) == (first.0, []);
      assert first.1 + [] == first.1;
    } else {
      var b' := b[..|b| - 1];
      assert (a + b)[..|a + b| - 1] == a + b';
      assert (a + b)[|a + b| - 1] == b[|b| - 1];
      RunAppend(z, a, b', certainty);
      var mid := Run(first.0, b', certainty);
      var last := Step(mid.0, b[|b| - 1], certainty);
      assert Run(first.0, b, certainty) == (last.0, mid.1 + [last.1]);
      assert Run(z, a + b, certainty) == (last.0, (first.1 + mid.1) + [last.1]);
      assert (first.1 + mid.1) + [last.1] == first.1 + (mid.1 + [last.1]);
    }
  }

  lemma RepeatLast<T>(x: T, n: nat)
    requires n > 0
    ensures Repeat(x, n)[..n - 1] == Repeat(x, n - 1)
    ensures Repeat(x, n)[n - 1] == x
  {
  }

  /** Every sample of `ds` is in the zone. */
  predicate AllIn(z: ZoneState, ds: seq<uint16>)
  {
    forall i :: 0 <= i < |ds| ==> InZone(z, ds[i])
  }

  /** Every sample of `ds` is out of the zone, below its minimum or above its maximum. */
  predicate AllOut(z: ZoneState, ds: seq<uint16>)
  {
    forall i :: 0 <= i < |ds| ==> !InZone(z, ds[i])
  }

  /**
   * Below the threshold: from an absent zone with no pending in-zone count,
   * any run of fewer than certainty in-zone samples, whatever their
   * distances, leaves it absent, counts them, and fires nothing.
   */
  lemma {:induction false} EnterBelowThreshold(z: ZoneState, ds: seq<uint16>, certainty: nat)
    requires !z.present && z.inCount == 0
    requires AllIn(z, ds) && |ds| < certainty
    ensures Run(z, ds, certainty) ==
              (if ds == [] then z else z.(inCount := |ds|, outCount := 0), Repeat(NoEvent, |ds|))
    decreases |ds|
  {
    if ds != [] {
      EnterBelowThreshold(z, ds[..|ds| - 1], certainty);
      RepeatLast(NoEvent, |ds|);
    }
  }

  /**
   * At the threshold: the certainty-th sample of an in-zone run confirms the
   * entry and is the only one that fires, with its own distance.
   */
  lemma {:induction false} EnterAtThreshold(z: ZoneState, ds: seq<uint16>, certainty: nat)
    requires !z.present && z.inCount == 0
    requires AllIn(z, ds) && |ds| == certainty >= 1
    ensures Run(z, ds, certainty) ==
              (z.(inCount := certainty, outCount := 0, present := true),
               Repeat(NoEvent, certainty - 1) + [EnterEvent(z, ds[certainty - 1])])
  {
    EnterBelowThreshold(z, ds[..certainty - 1], certainty);
  }

  /** Once present, further in-zone samples keep the zone present and fire nothing. */
  lemma {:induction false} PresentStaysOnInZone(z: ZoneState, ds: seq<uint16>, certainty: nat)
    requires z.present
    requires AllIn(z, ds)
    ensures Run(z, ds, certainty) ==
              (if ds == [] then z else z.(inCount := z.inCount + |ds|, outCount := 0),
               Repeat(NoEvent, |ds|))
    decreases |ds|
  {
    if ds != [] {
      PresentStaysOnInZone(z, ds[..|ds| - 1], certainty);
      RepeatLast(NoEvent, |ds|);
    }
  }

  /**
   * Below the exit threshold: from a present zone with no pending
   * out-of-zone count, any run of fewer than certainty out-of-zone samples
   * (below the minimum or above the maximum, mixed freely) keeps it present.
   */
  lemma {:induction false} ExitBelowThreshold(z: ZoneState, ds: seq<uint16>, certainty: nat)
    requires z.present && z.outCount == 0
    requires AllOut(z, ds) && |ds| < certainty
    ensures Run(z, ds, certainty) ==
              (if ds == [] then z else z.(outCount := |ds|, inCount := 0), Repeat(NoEvent, |ds|))
    decreases |ds|
  {
    if ds != [] {
      ExitBelowThreshold(z, ds[..|ds| - 1], certainty);
      RepeatLast(NoEvent, |ds|);
    }
  }

  /** The certainty-th sample of an out-of-zone run confirms the exit and is the only one that fires. */
  lemma {:induction false} ExitAtThreshold(z: ZoneState, ds: seq<uint16>, certainty: nat)
    requires z.present && z.outCount == 0
    requires AllOut(z, ds) && |ds| == certainty >= 1
    ensures Run(z, ds, certainty) ==
              (z.(outCount := certainty, inCount := 0, present := false),
               Repeat(NoEvent, certainty - 1) + [ExitEvent(z)])
  {
    ExitBelowThreshold(z, ds[..certainty - 1], certainty);
  }

  /**
   * With certainty 0 there is no debouncing: one sample sets the presence
   * to its own side, and a change fires at once.
   */
  lemma ZeroCertaintyFollowsSample(z: ZoneState, d: uint16)
    ensures Step(z, d, 0).0.present == InZone(z, d)
    ensures !z.present && InZone(z, d) ==> Step(z, d, 0).1 == EnterEvent(z, d)
    ensures z.present && !InZone(z, d) ==> Step(z, d, 0).1 == ExitEvent(z)
  {
  }

  /**
   * One out-of-zone sample in the middle of a run restarts the count: two
   * in-zone runs each shorter than certainty around it never confirm an
   * entry, however many in-zone samples that makes in total.
   */
  lemma {:induction false} InterruptedRunStaysAbsent(z: ZoneState, a: seq<uint16>, o: uint16, b: seq<uint16>, certainty: nat)
    requires !z.present && z.inCount == 0
    requires AllIn(z, a) && AllIn(z, b) && !InZone(z, o)
    requires |a| < certainty && |b| < certainty
    ensures var r := Run(z, a + [o] + b, certainty);
            !r.0.present && r.1 == Repeat(NoEvent, |a| + 1 + |b|)
  {
    // the first run counts up without confirming
    var first := Run(z, a, certainty);
    EnterBelowThreshold(z, a, certainty);
    assert !first.0.present && first.0.inCount == |a| && first.1 == Repeat(NoEvent, |a|);
    // the interruption restarts the in-zone count
    var mid := Run(first.0, [o], certainty);
    RunOne(first.0, o, certainty);
    assert !mid.0.present && mid.0.inCount == 0 && mid.1 == [NoEvent];
    RunAppend(z, a, [o], certainty);
    assert Run(z, a + [o], certainty) == (mid.0, Repeat(NoEvent, |a|) + [NoEvent]);
    // the second run counts up from zero and again stops short
    assert AllIn(mid.0, b);
    EnterBelowThreshold(mid.0, b, certainty);
    RunAppend(z, a + [o], b, certainty);
    assert Repeat(NoEvent, |a|) + [NoEvent] + Repeat(NoEvent, |b|) == Repeat(NoEvent, |a| + 1 + |b|);
  }

  /** Feeding one sample is one `Step`. */
  lemma RunOne(z: ZoneState, d: uint16, certainty: nat)
    ensures Run(z, [d], certainty) == (Step(z, d, certainty).0, [Step(z, d, certainty).1])
  {
    assert [d][..0] == [];
    assert Run(z, [], certainty) == (z, []);
    assert [] + [Step(z, d, certainty).1] == [Step(z, d, certainty).1];
  }

  /**
   * Zone [100, 200] with certainty 3 and both callbacks set: the in-zone
   * samples 120, 150, 180 fire `on_enter(180)` once, on the third; the
   * out-of-zone samples 50, 250, 50 then fire `on_exit()` once, on the third.
   */
  lemma EnterThenExitScenario()
    ensures var z := Fresh(100, 200, true, true);
            Run(z, [120, 150, 180, 50, 250, 50], 3) ==
              (z.(outCount := 3), [NoEvent, NoEvent, Enter(180), NoEvent, NoEvent, Exit])
  {
    var z := Fresh(100, 200, true, true);
    var ins: seq<uint16> := [120, 150, 180];
    var outs: seq<uint16> := [50, 250, 50];
    var quiet: seq<Event> := [NoEvent, NoEvent];
    assert Repeat(NoEvent, 2) == quiet;
    EnterAtThreshold(z, ins, 3);
    var present := z.(inCount := 3, present := true);
    assert Run(z, ins, 3) == (present, quiet + [Enter(180)]);
    ExitAtThreshold(present, outs, 3);
    assert Run(present, outs, 3) == (z.(outCount := 3), quiet + [Exit]);
    RunAppend(z, ins, outs, 3);
    assert ins + outs == [120, 150, 180, 50, 250, 50];
    assert quiet + [Enter(180)] + (quiet + [Exit]) == [NoEvent, NoEvent, Enter(180), NoEvent, NoEvent, Exit];
  }
}
