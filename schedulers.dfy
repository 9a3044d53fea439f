/** The two time-gated actions of the program, each with the state that the
    program keeps in function-local statics: the physics step
    (`stepB2World`) and the frame redraw (`renderStep`). The clock reading is
    an input. */
module Schedulers {
  import opened Timing
  import opened World

  datatype Option<T> = None | Some(value: T)

  /** What one redraw shows: the four overlay numbers (render rate, physics
      rate, main-loop rate, body count) and the bodies the debug-draw pass
      draws. */
  datatype Frame = Frame(renderRate: nat, physicsRate: nat, loopRate: nat, objectCount: nat, scene: seq<Body>)

  /** `stepB2World` and its statics; `rate` is `gFrameRatePhysic`. */
  class PhysicsStepper {
    var lastCall: Time
    var counter: nat
    var resetTime: Time
    var rate: nat

    function State(): Gate
      reads this
    {
      Gate(lastCall, counter, resetTime, rate)
    }

    /** The statics before the first call, whose initialisation reads the
        clock as `start`. */
    constructor (start: Time)
      ensures State() == Initial(start)
    {
      lastCall, counter, resetTime, rate := 0, 0, start, 0;
    }

    /** One call at clock reading `now`: publish the rate if a whole second
        has passed since the reset, then step the world once if at least
        2.5 ms have passed since the last step. The solver's result for the
        current bodies is `solver(w.bodies)`. */
    method Tick(now: Time, w: PhysicsWorld, solver: seq<Body> -> seq<Pose>) returns (stepped: bool)
      requires w.Valid() && |solver(w.bodies)| == |w.bodies|
      modifies this, w
      ensures w.Valid()
      ensures stepped == PhysicsDue(old(State()), now)
      ensures State() == PhysicsTick(old(State()), now)
      ensures stepped ==> w.stepCount == old(w.stepCount) + 1 && |w.bodies| == |old(w.bodies)|
      ensures stepped ==> forall i :: 0 <= i < |w.bodies| ==>
        w.bodies[i] == old(w.bodies[i]).(position := solver(old(w.bodies))[i].position,
                                          angle := solver(old(w.bodies))[i].angle)
      ensures !stepped ==> unchanged(w)
      ensures w.handles == old(w.handles) && w.gravity == old(w.gravity)
    {
      var elapsed := ElapsedMs(lastCall, now);
      if WholeMsElapsed(resetTime, now) >= 1000 {
        rate := counter;
        counter := 0;
        resetTime := now;
      }
      stepped := elapsed >= PhysicsPeriodMs;
      if stepped {
        w.Step(solver(w.bodies));
        lastCall := now;
        counter := counter + 1;
      }
    }
  }

  /** `renderStep` and its statics; `rate` is `gFrameRateRender`. */
  class RenderScheduler {
    var lastCall: Time
    var counter: nat
    var resetTime: Time
    var rate: nat

    function State(): Gate
      reads this
    {
      Gate(lastCall, counter, resetTime, rate)
    }

    constructor (start: Time)
      ensures State() == Initial(start)
    {
      lastCall, counter, resetTime, rate := 0, 0, start, 0;
    }

    /** One call at clock reading `now`: publish the rate if a whole second
        has passed since the reset, then, if at least 16 whole ms have passed
        since the last frame, draw a frame of the world as it is and count it.
        The overlay shows the render rate just published. */
    method Tick(now: Time, w: PhysicsWorld, physicsRate: nat, loopRate: nat) returns (frame: Option<Frame>)
      modifies this
      ensures frame.Some? == RenderDue(old(State()), now)
      ensures State() == RenderTick(old(State()), now)
      ensures frame.Some? ==>
        frame.value == Frame(rate, physicsRate, loopRate, |w.bodies|, w.bodies)
    {
      var elapsed := WholeMsElapsed(lastCall, now);
      if WholeMsElapsed(resetTime, now) >= 1000 {
        rate := counter;
        counter := 0;
        resetTime := now;
      }
      if elapsed >= RenderPeriodMs {
        frame := Some(Frame(rate, physicsRate, loopRate, |w.bodies|, w.bodies));
        lastCall := now;
        counter := counter + 1;
      } else {
        frame := None;
      }
    }
  }
}
