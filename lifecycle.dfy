/** Spawning bodies: the square and circle drops the user asks for, and the
    initial scene. Each drop is a dynamic body placed at pixel (100, 100). */
module Lifecycle {
  import opened Units
  import opened World

  /** Where every drop starts, in metric space: pixel (100, 100). */
  function SpawnPoint(): (v: Vec2)
    ensures v == Vec2(2.5, 12.5)
    ensures PixelPositionFromMetric(v) == PixelPoint(100, 100)
  {
    PositionRoundTrip(100, 100);
    MetricPositionFromPixel(100, 100)
  }

  /** The body `createSquareDrop` builds: a 50x50 px box centred on the body,
      density 1, restitution 0.3. */
  function SquareDrop(id: BodyId): (b: Body)
    ensures b.id == id && b.kind == Dynamic && b.position == Vec2(2.5, 12.5) && b.angle == 0.0
    ensures b.fixtures == [Fixture(Box(0.625, 0.625, Vec2(0.0, 0.0), 0.0), 1.0, 0.3)]
  {
    Body(id, Dynamic, SpawnPoint(), 0.0, [Fixture(BoxOf(PixelRect(0, 0, 50, 50)), 1.0, 0.3)])
  }

  /** The body `createCircleDrop` builds: a circle of radius 25 px, density 1,
      restitution 0.7. */
  function CircleDrop(id: BodyId): (b: Body)
    ensures b.id == id && b.kind == Dynamic && b.position == Vec2(2.5, 12.5) && b.angle == 0.0
    ensures b.fixtures == [Fixture(Circle(0.625), 1.0, 0.7)]
  {
    Body(id, Dynamic, SpawnPoint(), 0.0, [Fixture(Circle(MetricFromPixel(25)), 1.0, 0.7)])
  }

  /** The static body of the initial scene: an 800x100 px floor and a 100x100
      px block offset by (200, 100) px (the offset is converted without a y
      flip), placed at pixel (400, 600) and turned by -0.25 rad, restitution
      0.3. Each fixture was added at the head of the list, so the block comes
      first. */
  function Ground(id: BodyId): (b: Body)
    ensures b.id == id && b.kind == Static && b.position == Vec2(10.0, 0.0) && b.angle == -0.25
    ensures b.fixtures == [Fixture(Box(1.25, 1.25, Vec2(5.0, 2.5), 0.0), 1.0, 0.3),
                           Fixture(Box(10.0, 1.25, Vec2(0.0, 0.0), 0.0), 1.0, 0.3)]
  {
    Body(id, Static, MetricPositionFromPixel(400, 600), -0.25,
         [Fixture(BoxOf(PixelRect(200, 100, 100, 100)), 1.0, 0.3),
          Fixture(BoxOf(PixelRect(0, 0, 800, 100)), 1.0, 0.3)])
  }

  /** `createSquareDrop`: exactly one new body, at the head of the world's list,
      and exactly one new handle in `gBodies`. */
  method CreateSquareDrop(w: PhysicsWorld)
    requires w.Valid()
    modifies w
    ensures w.Valid()
    ensures w.bodies == [SquareDrop(|old(w.handles)|)] + old(w.bodies)
    ensures w.handles == old(w.handles) + [|old(w.handles)|]
    ensures w.gravity == old(w.gravity) && w.stepCount == old(w.stepCount)
  {
    var id := w.CreateBody(Dynamic);
    assert w.bodies[0].id == id;
    w.AddBoxShape(PixelRect(0, 0, 50, 50), id);
    assert w.bodies[0].id == id;
    w.SetTransform(id, MetricPositionFromPixel(100, 100), 0.0);
    assert w.bodies[0].id == id;
    w.SetRestitution(0.3, id);
    assert w.bodies[0] == SquareDrop(id);
    assert w.bodies[1..] == old(w.bodies);
  }

  /** `createCircleDrop`: exactly one new body, at the head of the world's list,
      and exactly one new handle in `gBodies`. */
  method CreateCircleDrop(w: PhysicsWorld)
    requires w.Valid()
    modifies w
    ensures w.Valid()
    ensures w.bodies == [CircleDrop(|old(w.handles)|)] + old(w.bodies)
    ensures w.handles == old(w.handles) + [|old(w.handles)|]
    ensures w.gravity == old(w.gravity) && w.stepCount == old(w.stepCount)
  {
    var id := w.CreateBody(Dynamic);
    assert w.bodies[0].id == id;
    w.AddCircleShape(25, id);
    w.SetTransform(id, MetricPositionFromPixel(100, 100), 0.0);
    assert w.bodies[0].id == id;
    w.SetRestitution(0.7, id);
    assert w.bodies[0] == CircleDrop(id);
    assert w.bodies[1..] == old(w.bodies);
  }

  /** `initBodies`: gravity (0, -0.8), then a square drop, then the static
      ground; two new bodies and two new handles. */
  method InitBodies(w: PhysicsWorld)
    requires w.Valid()
    modifies w
    ensures w.Valid()
    ensures w.gravity == Vec2(0.0, -0.8)
    ensures w.bodies == [Ground(|old(w.handles)| + 1), SquareDrop(|old(w.handles)|)] + old(w.bodies)
    ensures w.handles == old(w.handles) + [|old(w.handles)|, |old(w.handles)| + 1]
    ensures w.stepCount == old(w.stepCount)
  {
    w.SetGravity(Vec2(0.0, -0.8));
    CreateSquareDrop(w);
    var id := w.CreateBody(Static);
    assert w.bodies[0].id == id;
    w.AddBoxShape(PixelRect(0, 0, 800, 100), id);
    assert w.bodies[0].id == id;
    w.AddBoxShape(PixelRect(200, 100, 100, 100), id);
    assert w.bodies[0].id == id;
    w.SetTransform(id, MetricPositionFromPixel(400, 600), -0.25);
    assert w.bodies[0].id == id;
    w.SetRestitution(0.3, id);
    assert w.bodies[0] == Ground(id);
    assert w.bodies[1..] == [SquareDrop(id - 1)] + old(w.bodies);
  }
}
