/**
 * `Settings.OneOff`: a countdown made of sequential phases. `startedAt` is an
 * instant and `pausedAt` a duration, both in milliseconds; the timer's state
 * is derived from them and a caller-supplied `now`.
 */
module OneOffTimer {
  import opened Wrappers
  import opened Utils

  datatype OneOff = OneOff(startedAt: Option<int>, pausedAt: Option<int>, durations: seq<int>)

  /** `total`: the sum of the phase durations. */
  function Total(o: OneOff): (r: int)
    ensures |o.durations| == 0 ==> r == 0
    ensures (forall k :: 0 <= k < |o.durations| ==> o.durations[k] >= 0) ==> r >= 0
  {
    SumNonNegative(o.durations);
    Sum(o.durations)
  }

  /**
   * `elapsed(now)`: null when not started; the frozen `pausedAt` when paused;
   * otherwise `now - startedAt`, but only while it is below the total.
   */
  function Elapsed(o: OneOff, now: int): (r: Option<int>)
    ensures o.startedAt.None? ==> r.None?
    ensures o.startedAt.Some? && o.pausedAt.Some? ==> r == o.pausedAt
    ensures o.startedAt.Some? && o.pausedAt.None? ==>
      r == (if now - o.startedAt.value < Total(o) then Some(now - o.startedAt.value) else None)
  {
    if o.startedAt.None? then None
    else if o.pausedAt.Some? then o.pausedAt
    else
      var result := now - o.startedAt.value;
      if result < Total(o) then Some(result) else None
  }

  /** `isEnabled(now)`: the timer has an elapsed time. */
  predicate IsEnabled(o: OneOff, now: int)
    ensures IsEnabled(o, now) <==> o.startedAt.Some? && (o.pausedAt.Some? || now - o.startedAt.value < Total(o))
  {
    Elapsed(o, now).Some?
  }

  /** `isRunning(now)`: enabled and not paused. */
  predicate IsRunning(o: OneOff, now: int)
    ensures IsRunning(o, now) <==> o.startedAt.Some? && o.pausedAt.None? && now < o.startedAt.value + Total(o)
    ensures IsRunning(o, now) ==> IsEnabled(o, now)
  {
    o.pausedAt.None? && IsEnabled(o, now)
  }

  /** Running and enabled in terms of the stored fields alone; running implies enabled. */
  lemma StateCharacterization(o: OneOff, now: int)
    ensures IsEnabled(o, now) <==>
      o.startedAt.Some? && (o.pausedAt.Some? || now - o.startedAt.value < Total(o))
    ensures IsRunning(o, now) <==>
      o.startedAt.Some? && o.pausedAt.None? && now < o.startedAt.value + Total(o)
    ensures IsRunning(o, now) ==> IsEnabled(o, now)
  {
  }

  /** The running total of the phases before index i, as the loop of `nextElapsedIndex` accumulates it. */
  function PhaseEnd(ds: seq<int>, i: int): (r: int)
    requires 0 <= i < |ds|
    ensures r == Sum(ds[..i]) + ds[i]
    ensures (forall k :: 0 <= k < |ds| ==> ds[k] >= 0) ==> ds[i] <= r && Sum(ds[..i]) <= r
  {
    SumPrefixStep(ds, i);
    assert forall k :: 0 <= k < i ==> ds[..i][k] == ds[k];
    SumNonNegative(ds[..i]);
    Sum(ds[..i + 1])
  }

  /**
   * The loop of `nextElapsedIndex` from index i with the running total `acc` of
   * the phases before i: the first index from i on whose phase ends after `elapsed`.
   */
  function Scan(ds: seq<int>, elapsed: int, i: nat, acc: int): (r: Option<nat>)
    requires i <= |ds| && acc == Sum(ds[..i])
    ensures r.Some? ==> i <= r.value < |ds| && PhaseEnd(ds, r.value) > elapsed
    ensures r.Some? ==> forall j :: i <= j < r.value ==> PhaseEnd(ds, j) <= elapsed
    ensures r.None? ==> forall j :: i <= j < |ds| ==> PhaseEnd(ds, j) <= elapsed
    decreases |ds| - i
  {
    if i == |ds| then None
    else
      SumPrefixStep(ds, i);
      if acc + ds[i] > elapsed then Some(i) else Scan(ds, elapsed, i + 1, acc + ds[i])
  }

  /**
   * `nextElapsedIndex(now)`: the phase in progress, i.e. the first phase whose
   * end (prefix sum) lies after the elapsed time; null when the timer has no
   * elapsed time or every phase ended.
   */
  function NextElapsedIndex(o: OneOff, now: int): (r: Option<nat>)
    ensures Elapsed(o, now).None? ==> r.None?
    ensures r.Some? ==> r.value < |o.durations| && PhaseEnd(o.durations, r.value) > Elapsed(o, now).value
    ensures r.Some? ==> forall j :: 0 <= j < r.value ==> PhaseEnd(o.durations, j) <= Elapsed(o, now).value
    ensures Elapsed(o, now).Some? && r.None? ==>
      forall j :: 0 <= j < |o.durations| ==> PhaseEnd(o.durations, j) <= Elapsed(o, now).value
  {
    if o.startedAt.None? then None
    else
      match Elapsed(o, now)
      case None => None
      case Some(e) =>
        assert o.durations[..0] == [];
        Scan(o.durations, e, 0, 0)
  }

  /**
   * While running with at least one phase, some phase is still in progress:
   * the last phase ends at the total, which lies after the elapsed time.
   * (With no phases the timer runs only while `now` is before `startedAt`.)
   */
  lemma RunningHasNextIndex(o: OneOff, now: int)
    requires IsRunning(o, now) && |o.durations| > 0
    ensures NextElapsedIndex(o, now).Some?
  {
    var ds := o.durations;
    assert ds[..|ds|] == ds;
    assert PhaseEnd(ds, |ds| - 1) == Total(o);
  }

  /** The phase index moves only forward while the timer stays enabled. */
  lemma NextIndexMonotone(o: OneOff, t1: int, t2: int)
    requires IsEnabled(o, t1) && IsEnabled(o, t2) && t1 <= t2
    ensures NextElapsedIndex(o, t1).Some? ==>
      NextElapsedIndex(o, t2).Some? && NextElapsedIndex(o, t1).value <= NextElapsedIndex(o, t2).value
  {
    var e1 := Elapsed(o, t1).value;
    var e2 := Elapsed(o, t2).value;
    assert e1 <= e2;
    if NextElapsedIndex(o, t1).Some? {
      if o.pausedAt.None? {
        RunningHasNextIndex(o, t2);
      }
      var j := NextElapsedIndex(o, t2).value;
      assert PhaseEnd(o.durations, j) > e1;
    }
  }
}
