/** The time gating shared by the physics stepper, the renderer and the main
    loop. Each keeps the time of its last action, a counter of actions, the
    time the counter was last reset and the rate it last published. Once at
    least 1000 whole milliseconds have passed since the reset, the counter is
    published as the rate and starts again from zero; this check runs before
    the action of the same call is counted.

    Time points are integers in nanoseconds, the clock's tick. An elapsed time
    in milliseconds is either exact (`duration<float, milli>`, modelled as a
    real) or whole (`duration_cast<milliseconds>`, truncated toward zero). */
module Timing {
  import opened Units

  type Time = int

  const NanosPerMilli: int := 1_000_000

  /** Elapsed milliseconds, exactly. */
  function ElapsedMs(from: Time, to: Time): (r: real)
    ensures r * NanosPerMilli as real == (to - from) as real
  {
    (to - from) as real / NanosPerMilli as real
  }

  /** Elapsed whole milliseconds, truncated toward zero. */
  function WholeMsElapsed(from: Time, to: Time): (r: int)
    ensures to - from >= 0 ==> r == (to - from) / NanosPerMilli
    ensures to - from < 0 ==> r == -((from - to) / NanosPerMilli)
  {
    Trunc(ElapsedMs(from, to))
  }

  const PhysicsFrequency: int := 400
  const RenderFrameRate: int := 60

  /** `kMsElapsedForUpdatePhysic`: 1000 / 400 = 2.5 ms, kept as a real. */
  const PhysicsPeriodMs: real := 1000.0 / PhysicsFrequency as real

  /** `kMsElapsedForUpdateRender`: 1000 / 60 stored in an `int`, so 16 ms. */
  const RenderPeriodMs: int := Trunc(1000.0 / RenderFrameRate as real)

  lemma PeriodValues()
    ensures PhysicsPeriodMs == 2.5
    ensures RenderPeriodMs == 16
  {
  }

  /** The state of one gate. */
  datatype Gate = Gate(lastCall: Time, counter: nat, resetTime: Time, rate: nat)

  /** A gate before its first call: the last-call time is the clock's epoch
      (a default-constructed time point) and the reset time is the time of
      the first call's static initialisation. */
  function Initial(start: Time): Gate {
    Gate(0, 0, start, 0)
  }

  /** Publishes the counter once a whole second has passed since the reset. */
  function Publish(g: Gate, now: Time): (r: Gate)
    ensures r.lastCall == g.lastCall
    ensures WholeMsElapsed(g.resetTime, now) >= 1000 ==> r.rate == g.counter && r.counter == 0 && r.resetTime == now
    ensures WholeMsElapsed(g.resetTime, now) < 1000 ==> r == g
  {
    if WholeMsElapsed(g.resetTime, now) >= 1000 then g.(rate := g.counter, counter := 0, resetTime := now)
    else g
  }

  /** The physics step is due when at least 2.5 ms (exact) have elapsed. */
  predicate PhysicsDue(g: Gate, now: Time): (due: bool)
    ensures due <==> now - g.lastCall >= 2_500_000
  {
    ElapsedMs(g.lastCall, now) >= PhysicsPeriodMs
  }

  /** A frame is due when at least 16 whole ms have elapsed. */
  predicate RenderDue(g: Gate, now: Time): (due: bool)
    ensures due <==> now - g.lastCall >= 16 * NanosPerMilli
  {
    WholeMsElapsed(g.lastCall, now) >= RenderPeriodMs
  }

  /** One gated call: publish if a second has passed, then, when `due`, do the
      action, record `now` as the last call and count it. */
  function Tick(g: Gate, now: Time, due: bool): (r: Gate)
    ensures r.resetTime == Publish(g, now).resetTime && r.rate == Publish(g, now).rate
    ensures due ==> r.lastCall == now && r.counter == Publish(g, now).counter + 1
    ensures !due ==> r == Publish(g, now)
  {
    var p := Publish(g, now);
    if due then p.(lastCall := now, counter := p.counter + 1) else p
  }

  function PhysicsTick(g: Gate, now: Time): Gate {
    Tick(g, now, PhysicsDue(g, now))
  }

  function RenderTick(g: Gate, now: Time): Gate {
    Tick(g, now, RenderDue(g, now))
  }

  /** The main loop's gate: it publishes like the others, then counts every
      iteration. It has no last-call time, so that field is left alone. */
  function LoopTick(g: Gate, now: Time): (r: Gate)
    ensures r.lastCall == g.lastCall
    ensures r.resetTime == Publish(g, now).resetTime && r.rate == Publish(g, now).rate
    ensures r.counter == Publish(g, now).counter + 1
    ensures WholeMsElapsed(g.resetTime, now) < 1000 ==> r.counter == g.counter + 1 && r.rate == g.rate
  {
    var p := Publish(g, now);
    p.(counter := p.counter + 1)
  }

  /** After a physics step at `t`, no call earlier than 2.5 ms later steps. */
  lemma PhysicsStepsAtLeastPeriodApart(g: Gate, t: Time, t': Time)
    requires PhysicsDue(g, t) && t' - t < 2_500_000
    ensures !PhysicsDue(PhysicsTick(g, t), t')
  {
  }

  /** After a frame at `t`, no call earlier than 16 ms later draws. */
  lemma FramesAtLeastPeriodApart(g: Gate, t: Time, t': Time)
    requires RenderDue(g, t) && t' - t < 16 * NanosPerMilli
    ensures !RenderDue(RenderTick(g, t), t')
  {
    PeriodValues();
  }

  /** The physics gate driven by a clock that reads `start + k * 2.5 ms` on
      call k, for k = 0 .. n - 1. */
  function PhysicsAfter(start: Time, n: nat): Gate {
    if n == 0 then Initial(start)
    else PhysicsTick(PhysicsAfter(start, n - 1), start + (n - 1) * 2_500_000)
  }

  /** Elapsed time across `j` physics periods. */
  lemma ElapsedPeriods(from: Time, to: Time, j: int)
    requires to - from == j * 2_500_000
    ensures ElapsedMs(from, to) == j as real * 2.5
  {
  }

  /** Fewer than 400 periods are less than a whole second; 400 are one. */
  lemma WholeSecondAfterPeriods(j: int)
    requires 0 < j <= 400
    ensures j < 400 ==> Trunc(j as real * 2.5) < 1000
    ensures j == 400 ==> Trunc(j as real * 2.5) == 1000
  {
  }

  /** Quotient and remainder of `m + 1` by 400 from those of `m`. */
  lemma NextDivMod(m: nat)
    ensures m % 400 == 399 ==> (m + 1) % 400 == 0 && (m + 1) / 400 == m / 400 + 1
    ensures m % 400 < 399 ==> (m + 1) % 400 == m % 400 + 1 && (m + 1) / 400 == m / 400
  {
  }

  /** The physics gate after call k when driven at exactly its period: the
      counter holds the calls since the last second boundary, the reset time
      is that boundary and the rate is 400 once a boundary has been passed. */
  function PhysicsExpected(start: Time, k: nat): Gate {
    Gate(start + k * 2_500_000, k % 400 + 1, start + (k / 400) * 1_000_000_000, if k >= 400 then 400 else 0)
  }

  /** The first call after the epoch steps and starts the count. */
  lemma PhysicsFirstCall(start: Time)
    requires start >= 2_500_000
    ensures PhysicsAfter(start, 1) == PhysicsExpected(start, 0)
  {
    assert PhysicsAfter(start, 1) == PhysicsTick(Initial(start), start);
    assert ElapsedMs(0, start) >= 2.5;
    ElapsedPeriods(start, start, 0);
    assert WholeMsElapsed(start, start) == 0;
  }

  /** One more call, 2.5 ms after the previous one. */
  lemma PhysicsPeriodStep(start: Time, m: nat, t: Time)
    requires t == start + (m + 1) * 2_500_000
    ensures PhysicsTick(PhysicsExpected(start, m), t) == PhysicsExpected(start, m + 1)
  {
    var g := PhysicsExpected(start, m);
    var q, r := m / 400, m % 400;
    assert m == 400 * q + r;
    ElapsedPeriods(g.lastCall, t, 1);
    ElapsedPeriods(g.resetTime, t, r + 1);
    WholeSecondAfterPeriods(r + 1);
    NextDivMod(m);
  }

  /** Driven at exactly its period, the physics gate steps on every call and
      publishes 400 steps per second at every second boundary. */
  lemma {:induction false} PhysicsRateAtPeriod(start: Time, k: nat)
    requires start >= 2_500_000
    ensures PhysicsAfter(start, k + 1) == PhysicsExpected(start, k)
  {
    if k == 0 {
      PhysicsFirstCall(start);
    } else {
      var t := start + k * 2_500_000;
      PhysicsRateAtPeriod(start, k - 1);
      assert PhysicsAfter(start, k + 1) == PhysicsTick(PhysicsAfter(start, k), t);
      PhysicsPeriodStep(start, k - 1, t);
    }
  }

  /** Consequence at the boundaries: on call 400 * s (s >= 1) the published
      physics rate is exactly 400. */
  lemma PhysicsRateIs400(start: Time, seconds: nat)
    requires start >= 2_500_000 && seconds >= 1
    ensures PhysicsAfter(start, 400 * seconds + 1).rate == PhysicsFrequency
  {
    PhysicsRateAtPeriod(start, 400 * seconds);
  }

  /** The render gate driven by a clock that reads `start + k * 16 ms` on call
      k, for k = 0 .. n - 1. */
  function RenderAfter(start: Time, n: nat): Gate {
    if n == 0 then Initial(start)
    else RenderTick(RenderAfter(start, n - 1), start + (n - 1) * 16_000_000)
  }

  /** Elapsed whole milliseconds across `j` render periods. */
  lemma WholeMsOfFrames(from: Time, to: Time, j: int)
    requires to - from == j * 16_000_000 && j >= 0
    ensures WholeMsElapsed(from, to) == 16 * j
  {
    assert ElapsedMs(from, to) == (16 * j) as real;
  }

  /** Quotient and remainder of `m + 1` by 63 from those of `m`. */
  lemma NextDivMod63(m: nat)
    ensures m % 63 == 62 ==> (m + 1) % 63 == 0 && (m + 1) / 63 == m / 63 + 1
    ensures m % 63 < 62 ==> (m + 1) % 63 == m % 63 + 1 && (m + 1) / 63 == m / 63
  {
  }

  /** The render gate after call k when driven at its 16 ms period. */
  function RenderExpected(start: Time, k: nat): Gate {
    Gate(start + k * 16_000_000, k % 63 + 1, start + (k / 63) * 1_008_000_000, if k >= 63 then 63 else 0)
  }

  /** The first call after the epoch draws and starts the count. */
  lemma RenderFirstCall(start: Time)
    requires start >= 16_000_000
    ensures RenderAfter(start, 1) == RenderExpected(start, 0)
  {
    PeriodValues();
    assert RenderAfter(start, 1) == RenderTick(Initial(start), start);
    assert ElapsedMs(0, start) >= 16.0;
    WholeMsOfFrames(start, start, 0);
  }

  /** One more call, 16 ms after the previous one. */
  lemma RenderPeriodStep(start: Time, m: nat, t: Time)
    requires t == start + (m + 1) * 16_000_000
    ensures RenderTick(RenderExpected(start, m), t) == RenderExpected(start, m + 1)
  {
    var g := RenderExpected(start, m);
    var q, r := m / 63, m % 63;
    assert m == 63 * q + r;
    PeriodValues();
    WholeMsOfFrames(g.lastCall, t, 1);
    WholeMsOfFrames(g.resetTime, t, r + 1);
    NextDivMod63(m);
  }

  /** Driven at its 16 ms period, the render gate draws on every call, but a
      second is only seen to have passed after 63 frames (1008 ms), so the
      published frame rate is 63 rather than the 60 the period was derived
      from: the period 1000/60 ms was truncated to 16 ms. */
  lemma {:induction false} RenderRateAtPeriod(start: Time, k: nat)
    requires start >= 16_000_000
    ensures RenderAfter(start, k + 1) == RenderExpected(start, k)
  {
    if k == 0 {
      RenderFirstCall(start);
    } else {
      var t := start + k * 16_000_000;
      RenderRateAtPeriod(start, k - 1);
      assert RenderAfter(start, k + 1) == RenderTick(RenderAfter(start, k), t);
      RenderPeriodStep(start, k - 1, t);
    }
  }

  /** At every published boundary the render rate reads 63, above
      `kFrameRateRender`. */
  lemma RenderRateIs63(start: Time, seconds: nat)
    requires start >= 16_000_000 && seconds >= 1
    ensures RenderAfter(start, 63 * seconds + 1).rate == 63 > RenderFrameRate
  {
    RenderRateAtPeriod(start, 63 * seconds);
  }
}
