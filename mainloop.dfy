/** The single-threaded main loop (`mainLoop`): set up the scene, then, once
    per iteration, publish the loop rate, handle at most one input event,
    cull and step the physics world, and draw a frame when one is due. The
    clock readings and the events of each iteration are inputs; the physics
    solver is a function from the bodies to their new poses. */
module MainLoop {
  import opened Units
  import opened Timing
  import opened World
  import opened Schedulers
  import opened Lifecycle

  datatype Key = KeyS | KeyC | OtherKey

  /** The events the loop reacts to; every other event is `OtherEvent`. */
  datatype Event = Quit | KeyUp(key: Key) | OtherEvent

  /** What one iteration reads from the outside: the event polled, if any,
      and the clock as the loop, the physics stepper and the renderer read
      it. */
  datatype Input = Input(event: Option<Event>, loopNow: Time, physicsNow: Time, renderNow: Time)

  /** The events that spawn a drop: key S and key C released. */
  predicate SpawnKey(event: Option<Event>) {
    event == Some(KeyUp(KeyS)) || event == Some(KeyUp(KeyC))
  }

  /** The body an event spawns, if any, given the next free handle. */
  function Spawned(event: Option<Event>, next: BodyId): (r: seq<Body>)
    ensures |r| == 1 <==> SpawnKey(event)
    ensures !SpawnKey(event) ==> r == []
    ensures event == Some(KeyUp(KeyS)) <==> r == [SquareDrop(next)]
    ensures event == Some(KeyUp(KeyC)) <==> r == [CircleDrop(next)]
  {
    match event
    case Some(KeyUp(KeyS)) => [SquareDrop(next)]
    case Some(KeyUp(KeyC)) => [CircleDrop(next)]
    case _ => []
  }

  /** Bodies spawned over a run of inputs. */
  function SpawnCount(inputs: seq<Input>): (n: nat)
    ensures n <= |inputs|
  {
    if |inputs| == 0 then 0
    else SpawnCount(inputs[..|inputs| - 1]) + (if SpawnKey(inputs[|inputs| - 1].event) then 1 else 0)
  }

  /** The positions of the inputs whose event is key S or key C. */
  function SpawnIndices(inputs: seq<Input>): set<int> {
    set j | 0 <= j < |inputs| && SpawnKey(inputs[j].event)
  }

  /** The positions among a run plus one more input. */
  lemma SpawnIndicesStep(inputs: seq<Input>)
    requires |inputs| > 0
    ensures var n := |inputs| - 1;
      SpawnIndices(inputs) == SpawnIndices(inputs[..n]) + (if SpawnKey(inputs[n].event) then {n} else {})
  {
    var n := |inputs| - 1;
    forall j | 0 <= j < n ensures inputs[..n][j] == inputs[j] { }
  }

  /** `SpawnCount` is the number of inputs whose event is key S or key C. */
  lemma {:induction false} SpawnCountCounts(inputs: seq<Input>)
    ensures SpawnCount(inputs) == |SpawnIndices(inputs)|
  {
    if |inputs| > 0 {
      var n := |inputs| - 1;
      SpawnCountCounts(inputs[..n]);
      SpawnIndicesStep(inputs);
      assert n !in SpawnIndices(inputs[..n]);
    }
  }

  /** The number of iterations a run of inputs lasts: up to and including
      the first `Quit`, or all of them. */
  function IterationsOf(inputs: seq<Input>): (n: nat)
    ensures n <= |inputs|
    ensures forall j :: 0 <= j < n - 1 ==> inputs[j].event != Some(Quit)
    ensures n < |inputs| ==> n > 0 && inputs[n - 1].event == Some(Quit)
    ensures n == |inputs| && n > 0 ==> inputs[n - 1].event == Some(Quit) || forall j :: 0 <= j < n ==> inputs[j].event != Some(Quit)
  {
    if |inputs| == 0 then 0
    else if inputs[0].event == Some(Quit) then 1
    else 1 + IterationsOf(inputs[1..])
  }

  /** A snapshot of everything an iteration changes: the world's bodies,
      `gBodies`, gravity and step count, and the three gates. */
  datatype Snapshot = Snapshot(bodies: seq<Body>, handles: seq<BodyId>, gravity: Vec2, stepCount: nat,
                               physics: Gate, render: Gate, loop: Gate)

  /** One iteration on a snapshot: publish and count the loop rate, spawn
      what the event asks for, cull, then step when due (the step moves every
      survivor to its solver pose) and tick the render gate. */
  function Next(s: Snapshot, input: Input, solver: seq<Body> -> seq<Pose>): (r: Snapshot)
    requires forall bs :: |solver(bs)| == |bs|
    ensures r.gravity == s.gravity
    ensures r.handles == s.handles + (if SpawnKey(input.event) then [|s.handles|] else [])
    ensures r.stepCount == s.stepCount + (if PhysicsDue(s.physics, input.physicsNow) then 1 else 0)
    ensures !PhysicsDue(s.physics, input.physicsNow) ==> forall b :: b in r.bodies ==> !Culled(b)
  {
    var culled := Survivors(Spawned(input.event, |s.handles|) + s.bodies);
    var due := PhysicsDue(s.physics, input.physicsNow);
    assert forall b :: b in culled ==> !Culled(b) by {
      forall b | b in culled ensures !Culled(b) {
        FilterMember(Spawned(input.event, |s.handles|) + s.bodies, b, Culled);
      }
    }
    Snapshot(if due then Moved(culled, solver(culled)) else culled,
             s.handles + (if SpawnKey(input.event) then [|s.handles|] else []),
             s.gravity,
             if due then s.stepCount + 1 else s.stepCount,
             PhysicsTick(s.physics, input.physicsNow),
             RenderTick(s.render, input.renderNow),
             LoopTick(s.loop, input.loopNow))
  }

  /** The snapshot after every input of a run, in order. */
  function RunOf(s: Snapshot, inputs: seq<Input>, solver: seq<Body> -> seq<Pose>): Snapshot
    requires forall bs :: |solver(bs)| == |bs|
    decreases |inputs|
  {
    if |inputs| == 0 then s
    else Next(RunOf(s, inputs[..|inputs| - 1], solver), inputs[|inputs| - 1], solver)
  }

  /** An iteration keeps the bookkeeping between the bodies and `gBodies`:
      the new drop takes the next handle, the cull keeps a sub-list and the
      step keeps every handle. Gravity is never changed. */
  lemma NextKeepsRegistered(s: Snapshot, input: Input, solver: seq<Body> -> seq<Pose>)
    requires forall bs :: |solver(bs)| == |bs|
    requires Registered(s.bodies, s.handles)
    ensures Registered(Next(s, input, solver).bodies, Next(s, input, solver).handles)
    ensures Next(s, input, solver).gravity == s.gravity
  {
    var handles := s.handles + (if SpawnKey(input.event) then [|s.handles|] else []);
    var spawned := Spawned(input.event, |s.handles|) + s.bodies;
    assert forall i :: 0 <= i < |spawned| ==> spawned[i].id < |handles|;
    assert DistinctIds(spawned);
    FilterDistinct(spawned, |handles|, Culled);
  }

  /** Over a run, the bookkeeping holds throughout, gravity is kept, and
      `gBodies` keeps its old handles and gains one per key S or C. */
  lemma {:induction false} RunKeepsRegistered(s: Snapshot, inputs: seq<Input>, solver: seq<Body> -> seq<Pose>)
    requires forall bs :: |solver(bs)| == |bs|
    requires Registered(s.bodies, s.handles)
    ensures Registered(RunOf(s, inputs, solver).bodies, RunOf(s, inputs, solver).handles)
    ensures RunOf(s, inputs, solver).gravity == s.gravity
    ensures |RunOf(s, inputs, solver).handles| == |s.handles| + SpawnCount(inputs)
    ensures RunOf(s, inputs, solver).handles[..|s.handles|] == s.handles
  {
    if |inputs| > 0 {
      var init := inputs[..|inputs| - 1];
      RunKeepsRegistered(s, init, solver);
      NextKeepsRegistered(RunOf(s, init, solver), inputs[|inputs| - 1], solver);
    }
  }

  /** The state of `mainLoop`: the physics world with its handle list, the
      physics stepper and the renderer with their statics, and the loop's own
      counter, reset time and published rate (`gFrameRateMainLoop`). */
  class Simulation {
    const world: PhysicsWorld
    const physics: PhysicsStepper
    const render: RenderScheduler
    var loopCounter: nat
    var loopReset: Time
    var loopRate: nat

    /** The loop's counter as a gate, for use with `Publish`. */
    function LoopState(): Gate
      reads this
    {
      Gate(0, loopCounter, loopReset, loopRate)
    }

    /** The state an iteration changes. */
    function State(): Snapshot
      reads this, world, physics, render
    {
      Snapshot(world.bodies, world.handles, world.gravity, world.stepCount,
               physics.State(), render.State(), LoopState())
    }

    /** Set-up: an empty world receives the initial scene (a square drop and
        the static ground, gravity (0, -0.8)); every counter starts at zero,
        and each clock is read once for the reset times. */
    constructor (loopStart: Time, physicsStart: Time, renderStart: Time)
      ensures world.Valid() && fresh(world)
      ensures world.gravity == Vec2(0.0, -0.8)
      ensures world.bodies == [Ground(1), SquareDrop(0)] && world.handles == [0, 1]
      ensures world.stepCount == 0
      ensures physics.State() == Initial(physicsStart) && render.State() == Initial(renderStart)
      ensures LoopState() == Initial(loopStart)
    {
      var w := new PhysicsWorld();
      InitBodies(w);
      world := w;
      physics := new PhysicsStepper(physicsStart);
      render := new RenderScheduler(renderStart);
      loopCounter, loopReset, loopRate := 0, loopStart, 0;
    }

    /** One iteration. A `Quit` only stops the loop after the iteration; the
        cull, the physics step and the frame of this iteration still happen.
        Key S spawns a square drop, key C a circle drop. The world afterwards
        holds the survivors of the cull, moved by the solver when a physics
        step was due; the frame, when one is due, shows the rates just
        published and the world after the step. */
    method Iteration(input: Input, solver: seq<Body> -> seq<Pose>) returns (running: bool, frame: Option<Frame>)
      requires world.Valid()
      requires forall bs :: |solver(bs)| == |bs|
      modifies this, world, physics, render
      ensures world.Valid()
      ensures running <==> input.event != Some(Quit)
      ensures world.handles == old(world.handles) + (if SpawnKey(input.event) then [|old(world.handles)|] else [])
      ensures world.gravity == old(world.gravity)
      ensures var culled := Survivors(Spawned(input.event, |old(world.handles)|) + old(world.bodies));
        && |world.bodies| == |culled|
        && (!PhysicsDue(old(physics.State()), input.physicsNow) ==>
              world.bodies == culled && world.stepCount == old(world.stepCount))
        && (PhysicsDue(old(physics.State()), input.physicsNow) ==>
              world.stepCount == old(world.stepCount) + 1 &&
              forall i :: 0 <= i < |culled| ==>
                world.bodies[i] == culled[i].(position := solver(culled)[i].position, angle := solver(culled)[i].angle))
      ensures physics.State() == PhysicsTick(old(physics.State()), input.physicsNow)
      ensures render.State() == RenderTick(old(render.State()), input.renderNow)
      ensures LoopState() == LoopTick(old(LoopState()), input.loopNow)
      ensures frame.Some? <==> RenderDue(old(render.State()), input.renderNow)
      ensures frame.Some? ==>
        frame.value == Frame(render.rate, physics.rate, loopRate, |world.bodies|, world.bodies)
      ensures State() == Next(old(State()), input, solver)
    {
      if WholeMsElapsed(loopReset, input.loopNow) >= 1000 {
        loopRate := loopCounter;
        loopCounter := 0;
        loopReset := input.loopNow;
      }
      running := HandleEvent(world, input.event);
      PhysicsPass(world, physics, input.physicsNow, solver);
      frame := render.Tick(input.renderNow, world, physics.rate, loopRate);
      loopCounter := loopCounter + 1;
    }

    /** The loop over a finite run of inputs: it stops after the first
        `Quit`, or when the inputs run out. The state afterwards is that of
        the iterations run, one after another; so gravity is kept and every
        key S or C read adds exactly one handle to `gBodies`. */
    method Run(inputs: seq<Input>, solver: seq<Body> -> seq<Pose>) returns (iterations: nat)
      requires world.Valid()
      requires forall bs :: |solver(bs)| == |bs|
      modifies this, world, physics, render
      ensures world.Valid()
      ensures iterations == IterationsOf(inputs)
      ensures State() == RunOf(old(State()), inputs[..iterations], solver)
      ensures world.gravity == old(world.gravity)
      ensures |world.handles| == |old(world.handles)| + SpawnCount(inputs[..iterations])
    {
      ghost var start := State();
      iterations := 0;
      var running := true;
      while running && iterations < |inputs|
        invariant world.Valid()
        invariant iterations <= |inputs|
        invariant running ==> IterationsOf(inputs) == iterations + IterationsOf(inputs[iterations..])
        invariant !running ==> iterations == IterationsOf(inputs)
        invariant State() == RunOf(start, inputs[..iterations], solver)
        decreases |inputs| - iterations
      {
        var frame;
        running, frame := Iteration(inputs[iterations], solver);
        RunStep(inputs, iterations);
        iterations := iterations + 1;
      }
      RunKeepsRegistered(start, inputs[..iterations], solver);
    }
  }

  /** The event handling of one iteration: `Quit` clears the running flag,
      key S spawns a square drop, key C a circle drop, anything else is
      ignored. */
  method HandleEvent(w: PhysicsWorld, event: Option<Event>) returns (running: bool)
    requires w.Valid()
    modifies w
    ensures w.Valid()
    ensures running <==> event != Some(Quit)
    ensures w.bodies == Spawned(event, |old(w.handles)|) + old(w.bodies)
    ensures w.handles == old(w.handles) + (if SpawnKey(event) then [|old(w.handles)|] else [])
    ensures w.gravity == old(w.gravity) && w.stepCount == old(w.stepCount)
  {
    running := true;
    match event {
      case Some(Quit) =>
        running := false;
      case Some(KeyUp(KeyS)) =>
        CreateSquareDrop(w);
      case Some(KeyUp(KeyC)) =>
        CreateCircleDrop(w);
      case _ =>
    }
  }

  /** The physics half of an iteration (and of the physics thread's loop):
      cull the bodies that left the region, then step the world if due. */
  method PhysicsPass(w: PhysicsWorld, stepper: PhysicsStepper, now: Time, solver: seq<Body> -> seq<Pose>)
    requires w.Valid()
    requires forall bs :: |solver(bs)| == |bs|
    modifies w, stepper
    ensures w.Valid()
    ensures w.handles == old(w.handles) && w.gravity == old(w.gravity)
    ensures stepper.State() == PhysicsTick(old(stepper.State()), now)
    ensures var culled := Survivors(old(w.bodies));
      && |w.bodies| == |culled|
      && (!PhysicsDue(old(stepper.State()), now) ==>
            w.bodies == culled && w.stepCount == old(w.stepCount))
      && (PhysicsDue(old(stepper.State()), now) ==>
            w.stepCount == old(w.stepCount) + 1 &&
            forall i :: 0 <= i < |culled| ==>
              w.bodies[i] == culled[i].(position := solver(culled)[i].position, angle := solver(culled)[i].angle))
  {
    var _ := w.CleanUselessBodies();
    var _ := stepper.Tick(now, w, solver);
  }

  /** How the run's counts move on by one input. */
  lemma RunStep(inputs: seq<Input>, i: nat)
    requires i < |inputs|
    ensures inputs[..i + 1][..i] == inputs[..i]
    ensures IterationsOf(inputs[i..]) ==
      if inputs[i].event == Some(Quit) then 1 else 1 + IterationsOf(inputs[i + 1..])
  {
    assert inputs[..i + 1][..i] == inputs[..i];
    assert inputs[i..][1..] == inputs[i + 1..];
  }
}
