# RainDrop core, modelled in Dafny

RainDrop is a small SDL + Box2D demo. Rigid bodies fall under gravity onto a
tilted static ground. The user spawns more with key S (a square drop) or key C
(a circle drop). A render pass draws every body and four overlay numbers: the
render rate, the physics rate, the main-loop rate and the body count. This
project models the logic of `src/main.cpp` that does not depend on the
libraries:

- **Coordinate conversion** (`units.dfy`, module `Units`). The renderer and
  the engine use different spaces. The renderer is in pixels, with the origin
  at the top-left and y pointing down. The engine is metric, with y pointing
  up. The ratio is 40 px per metric unit, and the y axis is flipped against
  the 600 px viewport height. Metric values are exact reals. A
  `static_cast<int>` truncates toward zero (`Trunc`).
- **The world and its cull** (`world.dfy`, module `World`). The class
  `PhysicsWorld` holds the world's body list, gravity, a step count and
  `gBodies`. `gBodies` is the list of every handle ever created, and the cull
  never shrinks it. `CleanUselessBodies` is the cursor walk of
  `cleanUselessBodies`. It is proved against the specification function
  `Survivors`: the bodies whose pixel position lies within 1000 px of the
  800x600 viewport.
- **Spawning** (`lifecycle.dfy`, module `Lifecycle`): `createSquareDrop`,
  `createCircleDrop` and `initBodies`, built from the world's methods as
  `main.cpp` builds them.
- **Time gating and rate counters** (`timing.dfy` as functions,
  `schedulers.dfy` as classes). `stepB2World`, `renderStep` and the main-loop
  counter share one gate: every 1000 whole ms, publish the counter as the
  rate, then act if enough time has passed. The physics step needs 2.5 ms,
  measured exactly. A frame needs 16 whole ms, because `1000.f / 60` is
  stored in an `int`. A consequence, proved in `Timing.RenderRateAtPeriod`:
  when frames are drawn exactly every 16 ms, the overlay shows 63 frames per
  second, not 60.
- **Drawing conversions** (`draw.dfy`, module `Draw`). `buildGraphicVertices`
  maps metric vertices to pixel vertices and narrows them to `Sint16`.
  `convertColor` turns engine colours into byte colours; see Findings.
- **The main loop** (`mainloop.dfy`, module `MainLoop`). The class
  `Simulation` holds the world, the two gated schedulers and the loop
  counter. Each iteration does the following, in order:
  1. publish the loop rate;
  2. handle at most one event;
  3. cull;
  4. step the physics;
  5. draw a frame if one is due;
  6. count the iteration.

  `Run` repeats `Iteration` over a finite list of inputs. `Next` gives one
  iteration's effect on a snapshot of the state (bodies, `gBodies`, gravity,
  step count and the three gates), and `RunOf` applies it to each input in
  turn.

The clock, the event queue and the rigid-body solver are inputs. Each
iteration's input holds the event polled, if any, and the clock readings of
the loop, the physics stepper and the renderer. The solver is a function from
the current bodies to their new poses.

Four Box2D behaviours are assumed, because the source relies on them without
showing them:

- `b2World::CreateBody` puts a new body at the head of the world's list.
- `b2Body::CreateFixture` puts a new fixture at the head of the body's list.
- A new fixture has restitution 0.
- `b2World::Step` changes only the bodies' positions and angles.

Two details of the source are kept as written:

- `addShapeToBody` converts the shape's pixel offset to metric units without
  flipping y. The ground's 100x100 block therefore sits 2.5 units *above* the
  ground's centre, not below it (`Lifecycle.Ground`).
- A `Quit` event does not end the current iteration. Its cull, physics step
  and frame still happen (`MainLoop.Simulation.Iteration`).

## Model

| member | source | states |
|---|---|---|
| Units.Trunc | src/main.cpp:52 | the result is the integer part of the argument, rounded toward zero, for both signs |
| Units.PixelFromMetric | src/main.cpp:51-53 | the pixel length is the integer part of metric x 40, truncated toward zero |
| Units.MetricFromPixel | src/main.cpp:55-57 | the metric length times 40 is exactly the pixel length |
| Units.MetricPositionFromPixel | src/main.cpp:59-62 | x is pixel x / 40; y is (600 - pixel y) / 40 (y axis flipped) |
| Units.PixelPositionFromMetric | src/main.cpp:64-67 | pixel x is trunc(40 x); 600 - pixel y is trunc(40 y) |
| Units.PixelRoundTrip | src/main.cpp:51-57 | pixel -> metric -> pixel returns every integer pixel length |
| Units.PositionRoundTrip | src/main.cpp:59-67 | pixel point -> metric point -> pixel point returns the original pair; the two flips cancel |
| Units.MetricRoundTrip | src/main.cpp:59-67 | metric -> pixel -> metric moves each coordinate toward zero by less than 1/40 |
| World.CullRegionInMetric | src/main.cpp:196-201 | the cull test (`OutOfBounds`) rejects a body iff 40·x leaves the open interval (-1001, 1801) or 40·y leaves (-1001, 1601): its truncated pixel position is outside [-1000, 1800] x [-1000, 1600] |
| World.SurvivorsMember | src/main.cpp:191-209 | a body survives a cull iff it was in the list and its pixel position is in [-1000, 1800] x [-1000, 1600] |
| World.SurvivorsAppend | src/main.cpp:194-207 | culling distributes over concatenation, so survivors keep their relative order |
| World.SurvivorsRemoveOne | src/main.cpp:194-207 | if only body k is out of bounds, the cull yields the list with exactly body k removed and the others in order |
| World.SurvivorsAllInBounds | src/main.cpp:191-209 | a list whose bodies are all in bounds is left unchanged |
| World.SurvivorsIdempotent | src/main.cpp:191-209 | a second cull with no step in between removes nothing |
| World.FilterDistinct | src/main.cpp:191-209 | a cull invents no bodies and keeps body identities distinct and below the handle count |
| World.BoxOf | src/main.cpp:228-237 | the box has half the rectangle's metric size and is centred at the rectangle's offset converted without a y flip, angle 0 |
| World.PhysicsWorld.constructor | src/main.cpp:34-35 | a new world has gravity (0, 0), no bodies and an empty `gBodies` |
| World.PhysicsWorld.SetGravity | src/main.cpp:359 | only the gravity changes |
| World.PhysicsWorld.CreateBody | src/main.cpp:222-226 | one new body at the list head, with the next fresh handle, no fixtures, at the origin; that handle is appended to `gBodies` |
| World.PhysicsWorld.AddBoxShape | src/main.cpp:228-237 | only the given body changes: it gains one box fixture (density 1) at the head of its fixture list |
| World.PhysicsWorld.AddCircleShape | src/main.cpp:239-244 | only the given body changes: it gains one circle fixture of radius pixel/40 (density 1) |
| World.PhysicsWorld.SetTransform | src/main.cpp:336 | only the given body's position and angle change |
| World.PhysicsWorld.SetRestitution | src/main.cpp:318-322 | every fixture of the given body gets the restitution value, with shape and density kept; nothing else changes |
| World.PhysicsWorld.CleanUselessBodies | src/main.cpp:191-209 | the list becomes `Survivors` of the old list; the bodies under the cursor, in the order examined, are exactly the old list, so each body is examined once; `gBodies` and gravity are unchanged |
| World.SurvivorsRegistered | src/main.cpp:191-209 | after the cull every live body still has its handle in `gBodies`, and live bodies keep distinct handles |
| World.Moved | src/main.cpp:184 | after a solver step body i takes pose i (position and angle), and keeps its handle, kind and fixtures; the list keeps its length and order |
| World.PhysicsWorld.Step | src/main.cpp:184 | each body takes the solver's pose for it; count, order, kinds and fixtures are unchanged; one step is counted |
| Lifecycle.SpawnPoint | src/main.cpp:335 | pixel (100, 100) is metric (2.5, 12.5) and converts back to pixel (100, 100) |
| Lifecycle.SquareDrop | src/main.cpp:324-339 | a dynamic body at (2.5, 12.5), angle 0, with one 50x50 px box of restitution 0.3 |
| Lifecycle.CircleDrop | src/main.cpp:341-356 | a dynamic body at (2.5, 12.5), angle 0, with one circle of radius 25 px and restitution 0.7 |
| Lifecycle.Ground | src/main.cpp:366-374 | a static body at (10, 0), angle -0.25, with the block and the floor boxes, both restitution 0.3 |
| Lifecycle.CreateSquareDrop | src/main.cpp:324-339 | exactly one body, `SquareDrop`, is added to the world, and exactly one handle to `gBodies` |
| Lifecycle.CreateCircleDrop | src/main.cpp:341-356 | exactly one body, `CircleDrop`, is added to the world, and exactly one handle to `gBodies` |
| Lifecycle.InitBodies | src/main.cpp:358-375 | gravity becomes (0, -0.8); the ground and a square drop are added, and two handles |
| Timing.ElapsedMs | src/main.cpp:168-171 | exact elapsed milliseconds between two clock readings |
| Timing.WholeMsElapsed | src/main.cpp:424-426 | whole milliseconds are the nanosecond difference divided by 10^6 and rounded toward zero, for both signs |
| Timing.PeriodValues | src/main.cpp:28-31 | the physics period is 2.5 ms; the render period is 16 ms |
| Timing.Publish | src/main.cpp:175-181 | after 1000 whole ms since the reset, the rate is the counter, the counter is 0 and the reset time is now; before that, nothing changes |
| Timing.PhysicsDue | src/main.cpp:183 | a physics step is due iff at least 2,500,000 ns have passed since the last step |
| Timing.RenderDue | src/main.cpp:436 | a frame is due iff at least 16,000,000 ns have passed since the last frame (16 whole ms) |
| Timing.Tick | src/main.cpp:175-188 | publishes first; when the action is due, the last-call time is now and the counter goes up by one; otherwise the gate is only published |
| Timing.LoopTick | src/main.cpp:503-535 | the main loop publishes its counter like the other gates and then counts every iteration; within a second the counter only goes up by one and the rate is kept |
| Timing.PhysicsStepsAtLeastPeriodApart | src/main.cpp:183-188 | after a step, no call less than 2.5 ms later steps |
| Timing.FramesAtLeastPeriodApart | src/main.cpp:436-447 | after a frame, no call less than 16 ms later draws |
| Timing.PhysicsRateAtPeriod | src/main.cpp:159-189 | with calls exactly 2.5 ms apart, every call steps, and after call k the counter, reset time and rate follow `PhysicsExpected` |
| Timing.PhysicsRateIs400 | src/main.cpp:29-31 | in that run, the rate published at each second boundary is 400 |
| Timing.RenderRateAtPeriod | src/main.cpp:414-449 | with calls exactly 16 ms apart, every call draws, and after call k the gate follows `RenderExpected` (a boundary every 63 frames) |
| Timing.RenderRateIs63 | src/main.cpp:27-28 | in that run, the published render rate is 63, above the 60 the period was derived from |
| Schedulers.PhysicsStepper.constructor | src/main.cpp:163-165 | counter 0, last call at the epoch, reset time at the first reading |
| Schedulers.PhysicsStepper.Tick | src/main.cpp:159-189 | steps iff `PhysicsDue`; the new statics are `PhysicsTick`; a step moves each body to the solver's pose; no step leaves the world unchanged |
| Schedulers.RenderScheduler.constructor | src/main.cpp:418-420 | counter 0, last call at the epoch, reset time at the first reading |
| Schedulers.RenderScheduler.Tick | src/main.cpp:414-449 | draws iff `RenderDue`; the new statics are `RenderTick`; a frame shows the new render rate, the other two rates, the body count and the bodies |
| Draw.ToSint16 | src/main.cpp:304-305 | the value is in [-32768, 32767] and congruent to the input modulo 2^16 |
| Draw.BuildGraphicVertices | src/main.cpp:292-309 | two sequences of length `count`; element i is the 16-bit x (resp. y) of vertex i's pixel position |
| Draw.VerticesFaithful | src/main.cpp:292-309 | a vertex whose pixel coordinates fit 16 bits is output as its exact pixel position, which maps back to within 1/40 of the vertex |
| Draw.Channel | src/main.cpp:313 | a component in [0, 1] gives a byte in [0, 255]: the integer part of component x 255 |
| Draw.ConvertColor | src/main.cpp:311-315 | as written: the output blue always equals the output green |
| Draw.ConvertColorFixed | src/main.cpp:311-315 | corrected: each byte comes from its own component |
| Draw.ConvertColorDropsBlue | src/main.cpp:311-315 | the two conversions agree iff the blue and green bytes agree; pure blue is drawn black |
| Draw.ColorRoundTrip | src/main.cpp:311-315 | the corrected conversion returns every byte colour; the as-written one only when blue equals green |
| MainLoop.Spawned | src/main.cpp:516-522 | key S yields exactly a square drop, key C exactly a circle drop, and any other event (none, `Quit`, another key or event) nothing |
| MainLoop.SpawnCountCounts | src/main.cpp:512-525 | over a run, the number of drops spawned is the number of inputs whose event is key S or key C |
| MainLoop.Next | src/main.cpp:501-536 | one iteration on a snapshot: gravity is kept; `gBodies` gains the next handle iff the event is key S or C; one step is counted iff a step is due; without a step every body left is inside the cull region |
| MainLoop.NextKeepsRegistered | src/main.cpp:512-530 | one iteration keeps every body's handle in `gBodies`, keeps handles distinct among live bodies, and keeps gravity |
| MainLoop.RunKeepsRegistered | src/main.cpp:501-536 | over a run, that bookkeeping holds, gravity is kept, and `gBodies` keeps its old handles and gains one per key S or C |
| MainLoop.IterationsOf | src/main.cpp:501-536 | the loop runs up to and including the first `Quit`, or over all inputs |
| MainLoop.HandleEvent | src/main.cpp:512-525 | `Quit` clears the running flag; S or C adds one drop at the head of the list and one handle; other events change nothing |
| MainLoop.PhysicsPass | src/main.cpp:527-530 | the world becomes the survivors of the cull, moved by the solver exactly when a step is due |
| MainLoop.Simulation.constructor | src/main.cpp:486-495 | after set-up the world holds exactly the ground (static, 2 fixtures) and a square drop (dynamic, 1 fixture), with handles 0 and 1; all counters are zero |
| MainLoop.Simulation.Iteration | src/main.cpp:501-536 | one iteration: loop rate published and the iteration counted (`LoopTick`), event handled, cull, gated step, gated frame showing the rates just published; the whole new state is `Next` of the old |
| MainLoop.Simulation.Run | src/main.cpp:501-536 | runs `IterationsOf(inputs)` iterations; the bodies, `gBodies`, gravity, step count and the three gates afterwards are those of `Next` applied to each input read, in order; gravity is kept and `gBodies` grows by exactly the number of S and C keys read |

## Left out

- SDL, SDL_ttf and SDL2_gfx are not modelled: the window, renderer, fonts, text textures (`loadTextureAsText`, `loadAllGlobalTeture`, `drawAllGlobalTexture`), `printHeaderInfo` and the rasterising calls. A frame is modelled as the numbers and bodies it would show.
- `PhysicDrawner::DrawPolygon`, `DrawSolidPolygon`, `DrawCircle` and `DrawSolidCircle` only forward to the rasteriser. The model covers the two conversions they use (`BuildGraphicVertices`, `ConvertColor`); the 16-bit radius of the circle calls is not modelled.
- The Box2D solver (`b2World::Step`, contacts, `DrawDebugData`) is not modelled. Its effect is given as a function from bodies to poses, assumed to return one pose per body. That function is fixed for a whole run and sees only the bodies, so the same body list always gets the same poses; the solver's hidden state (velocities, contacts) is not modelled.
- `threadPhysicEngine`, `std::thread`, the mutex, `gThreadRunning` and `sleep_for` are not modelled. Only the single-threaded build's order is modelled: cull, then step, inside each iteration.
- Floating-point rounding is not modelled. Metric values are exact reals, so results that depend on `float` rounding near a pixel boundary may differ from the model.
- Overflow of `static_cast<int>` and `static_cast<Uint8>` is undefined behaviour in C++ and is not modelled. `Draw.Channel` is only specified for components in [0, 1].
- The fatal exits of `initSDL`, `loadFont` and `initGraphic` (failure to open a window, renderer or font) are not modelled.
- The main loop runs over a finite list of inputs; the endless loop is not modelled.
- MainLoop.Simulation.Run: does not return the frames drawn during the run; each frame is specified by `Iteration`, and `Run` states the state the run leaves behind.
- The clock is an input. A function-local static that reads the clock at its first call (`sTimeResetCounter`) is modelled as a start time given to the constructor.
- `gB2Draw`, `SetDebugDraw` and the debug-draw flags set by `initBodies` are not modelled.

## Findings

| source | as written | input that shows it | evidently intended | confidence | as-written member | corrected member |
|---|---|---|---|---|---|---|
| src/main.cpp:313-314 | the third channel (blue) of the returned colour is computed from `iColor.g` | engine colour (r, g, b, a) = (0, 0, 1, 1) is converted to bytes (0, 0, 0, 255): pure blue is drawn black | blue computed from `iColor.b`, so that (0, 0, 1, 1) becomes (0, 0, 255, 255) | not executed; the code reads `iColor.g` twice | Draw.ConvertColor | Draw.ConvertColorFixed |
