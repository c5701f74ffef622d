/** The animated stat counter: a running total that climbs from 0 towards the
    stat's value by a fixed step on every timer tick, is clamped to the value,
    stops the timer there, and is displayed rounded down. Totals are exact
    reals here; the component accumulates IEEE doubles. */
module StatsSection {

  /** Length of the animation and period of the timer, in milliseconds. */
  const Duration: real := 2000.0
  const TickPeriod: real := 50.0

  /** The per-tick step: the value spread over the 40 ticks of the animation. */
  function Increment(value: real): (step: real)
    ensures step * 40.0 == value
    ensures value >= 0.0 ==> step >= 0.0
  {
    value / (Duration / TickPeriod)
  }

  /** The running total, the displayed count and whether the timer is live. */
  datatype CounterState = CounterState(total: real, count: int, running: bool)

  const Initial := CounterState(0.0, 0, true)

  /** The terminal state for a stat: the value itself, shown rounded down. */
  function Finished(value: real): (s: CounterState)
    ensures !s.running && s.total == value
    ensures s.count as real <= value < s.count as real + 1.0
  {
    CounterState(value, value.Floor, false)
  }

  /** One run of the timer callback, with `step` the increment computed when
      the counter mounted. */
  function Step(value: real, step: real, s: CounterState): (r: CounterState)
    ensures r.count == r.total.Floor
    ensures r.running ==> r.total == s.total + step < value
    ensures !r.running ==> r == Finished(value) && s.total + step >= value
    ensures 0.0 <= step && 0.0 <= s.total <= value ==> s.total <= r.total <= value
  {
    var t := s.total + step;
    if t >= value then Finished(value) else CounterState(t, t.Floor, true)
  }

  /** The state after k periods of the timer; once it is cleared, further
      periods change nothing. For a non-negative value the total stays between
      0 and the value, and the count is always the total rounded down. */
  function Run(value: real, step: real, k: nat): (s: CounterState)
    requires step * 40.0 == value
    ensures s.count == s.total.Floor
    ensures value >= 0.0 ==> 0.0 <= s.total <= value
    ensures !s.running ==> s == Finished(value)
    decreases k
  {
    if k == 0 then Initial
    else
      var prev := Run(value, step, k - 1);
      if prev.running then Step(value, step, prev) else prev
  }

  /** One more step of a positive size, taken before the 40th, stays below
      the value the 40 steps add up to. */
  lemma StepBelowValue(value: real, step: real, k: nat)
    requires step * 40.0 == value && value > 0.0 && 1 <= k < 40
    ensures (k - 1) as real * step + step == k as real * step < value
  {
    var m := k as real;
    assert step > 0.0;
    assert (m - 1.0) * step + step == m * step;
    assert m * step < 40.0 * step;
  }

  /** A period taken while the timer is live after k - 1 steps, with k < 40,
      keeps it live and adds one more step. */
  lemma LiveStep(value: real, step: real, k: nat)
    requires step * 40.0 == value && value > 0.0 && 0 < k < 40
    requires Run(value, step, k - 1).running
    requires Run(value, step, k - 1).total == (k - 1) as real * step
    ensures Run(value, step, k).running
    ensures Run(value, step, k).total == k as real * step
  {
    var prev := Run(value, step, k - 1);
    assert prev.total + step == k as real * step < value by {
      StepBelowValue(value, step, k);
    }
    assert Run(value, step, k) == Step(value, step, prev);
  }

  /** For a positive value, the timer is still live after k < 40 periods and
      the total is exactly k steps. */
  lemma {:induction false} RunPositive(value: real, step: real, k: nat)
    requires step * 40.0 == value
    requires value > 0.0 && k < 40
    ensures Run(value, step, k).running
    ensures Run(value, step, k).total == k as real * step
    decreases k
  {
    if k > 0 {
      RunPositive(value, step, k - 1);
      LiveStep(value, step, k);
    }
  }

  /** Under exact arithmetic the counter is finished within 40 periods, for
      every value: after exactly 40 for a positive value, after the first for a
      value of 0 or below. */
  lemma {:induction false} Terminates(value: real, step: real, k: nat)
    requires step * 40.0 == value
    ensures k >= 40 ==> Run(value, step, k) == Finished(value)
    ensures value <= 0.0 && k >= 1 ==> Run(value, step, k) == Finished(value)
    ensures value > 0.0 && k < 40 ==> Run(value, step, k).running
    decreases k
  {
    if value > 0.0 && k < 40 {
      RunPositive(value, step, k);
    } else if value > 0.0 && k == 40 {
      RunPositive(value, step, 39);
      assert 39.0 * step + step == value;
    } else if k >= 1 {
      Terminates(value, step, k - 1);
    }
  }

  /** A value of 0 finishes on the first tick, showing 0. */
  lemma ZeroFinishesAtOnce()
    ensures Run(0.0, Increment(0.0), 1) == CounterState(0.0, 0, false)
  {
  }

  /** The shipped stats (15, 500, 1000, 99) end exactly on their values. */
  lemma ShippedStatsEndOnValue()
    ensures Run(15.0, Increment(15.0), 40).count == 15
    ensures Run(500.0, Increment(500.0), 40).count == 500
    ensures Run(1000.0, Increment(1000.0), 40).count == 1000
    ensures Run(99.0, Increment(99.0), 40).count == 99
  {
    Terminates(15.0, Increment(15.0), 40);
    Terminates(500.0, Increment(500.0), 40);
    Terminates(1000.0, Increment(1000.0), 40);
    Terminates(99.0, Increment(99.0), 40);
  }

  /** For a non-negative value the displayed count never goes down from one
      period to the next and never exceeds the value. */
  lemma CountMonotone(value: real, step: real, k: nat)
    requires step * 40.0 == value && value >= 0.0
    ensures Run(value, step, k).count <= Run(value, step, k + 1).count
    ensures 0 <= Run(value, step, k).count && Run(value, step, k).count as real <= value
  {
  }

  /** One stat's counter: the component's `count` state, the effect's local
      running total and whether its interval is still set. */
  class Counter {
    const value: real
    const increment: real
    var currentCount: real
    var count: int
    var running: bool
    ghost var ticks: nat

    function State(): CounterState
      reads this
    {
      CounterState(currentCount, count, running)
    }

    ghost predicate Valid()
      reads this
    {
      increment == Increment(value) && State() == Run(value, increment, ticks)
    }

    /** Mounting: count and running total at 0, the interval set. */
    constructor (value: real)
      ensures this.value == value && increment * 40.0 == value
      ensures currentCount == 0.0 && count == 0 && running
      ensures Valid() && ticks == 0
    {
      this.value := value;
      increment := Increment(value);
      currentCount, count, running := 0.0, 0, true;
      ticks := 0;
    }

    /** `updateCounter`: one period of the live interval. */
    method UpdateCounter()
      requires Valid() && running
      modifies this
      ensures Valid() && ticks == old(ticks) + 1
      ensures State() == Step(value, increment, old(State()))
    {
      currentCount := currentCount + increment;
      if currentCount >= value {
        currentCount := value;
        running := false;
      }
      count := currentCount.Floor;
      ticks := ticks + 1;
    }

    /** The interval firing until the callback clears it: it is cleared after
        at most 40 periods, with the value itself on display. */
    method RunInterval()
      requires Valid()
      modifies this
      ensures Valid() && !running
      ensures currentCount == value && count == value.Floor
      ensures ticks <= 40 || ticks == old(ticks)
    {
      Terminates(value, increment, ticks);
      while running
        invariant Valid()
        invariant running ==> ticks < 40
        invariant ticks <= 40 || ticks == old(ticks)
        decreases 40 - ticks
      {
        UpdateCounter();
        Terminates(value, increment, ticks);
      }
    }
  }
}
