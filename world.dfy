/** The physics world as the program sees it: an ordered list of rigid bodies
    plus gravity, and the side list `gBodies` of every body handle ever
    created. The rigid-body solver itself is opaque: a step replaces the body
    poses with poses the solver computed, supplied by the caller. */
module World {
  import opened Units

  type BodyId = nat

  datatype BodyKind = Static | Dynamic

  /** A shape attached to a body: a box given by half extents, a local centre
      and a local angle, or a circle given by its radius (metric units). */
  datatype Shape =
    | Box(halfWidth: real, halfHeight: real, center: Vec2, angle: real)
    | Circle(radius: real)

  datatype Fixture = Fixture(shape: Shape, density: real, restitution: real)

  datatype Body = Body(id: BodyId, kind: BodyKind, position: Vec2, angle: real, fixtures: seq<Fixture>)

  /** The transform a solver step gives a body. */
  datatype Pose = Pose(position: Vec2, angle: real)

  /** A rectangle in pixels: offset (x, y), width w and height h. */
  datatype PixelRect = PixelRect(x: int, y: int, w: int, h: int)

  /** How far outside the viewport, in pixels, a body may be before the cull
      destroys it. */
  const MaxOutsidePixel: int := 1000

  /** The cull's test: the body's pixel position is more than 1000 px beyond
      the 800x600 viewport on some axis. */
  predicate OutOfBounds(position: Vec2) {
    var p := PixelPositionFromMetric(position);
    p.x < -MaxOutsidePixel || p.x > Width + MaxOutsidePixel ||
    p.y < -MaxOutsidePixel || p.y > Height + MaxOutsidePixel
  }

  /** The same region in metric space: because pixels are truncated toward
      zero, a body survives exactly when 40*x lies in the open interval
      (-1001, 1801) and 40*y in (-1001, 1601). */
  lemma CullRegionInMetric(position: Vec2)
    ensures !OutOfBounds(position) <==>
      (-1001.0 < position.x * PixelsPerMetric < 1801.0 &&
       -1001.0 < position.y * PixelsPerMetric < 1601.0)
  {
    var tx := Trunc(position.x * PixelsPerMetric);
    var ty := Trunc(position.y * PixelsPerMetric);
    assert PixelPositionFromMetric(position) == PixelPoint(tx, Height - ty);
  }

  /** Whether the cull destroys a body. */
  predicate Culled(b: Body) {
    OutOfBounds(b.position)
  }

  /** The bodies of `s` that `out` does not reject, in their original order. */
  function Filter(s: seq<Body>, out: Body -> bool): seq<Body> {
    if s == [] then []
    else
      var last := s[|s| - 1];
      Filter(s[..|s| - 1], out) + (if out(last) then [] else [last])
  }

  /** The bodies a cull keeps, in their original order. */
  function Survivors(s: seq<Body>): seq<Body> {
    Filter(s, Culled)
  }

  function Ids(s: seq<Body>): (r: seq<BodyId>)
    ensures |r| == |s|
    ensures forall i :: 0 <= i < |s| ==> r[i] == s[i].id
  {
    if s == [] then [] else Ids(s[..|s| - 1]) + [s[|s| - 1].id]
  }

  predicate DistinctIds(s: seq<Body>) {
    forall i, j :: 0 <= i < j < |s| ==> s[i].id != s[j].id
  }

  /** The bookkeeping between the body list and `gBodies`: handle n is n,
      every body has a handle, and no two bodies share one. */
  predicate Registered(bodies: seq<Body>, handles: seq<BodyId>) {
    && (forall i :: 0 <= i < |handles| ==> handles[i] == i)
    && (forall i :: 0 <= i < |bodies| ==> bodies[i].id < |handles|)
    && DistinctIds(bodies)
  }

  /** One more body of the list examined by a filter. */
  lemma FilterStep(s: seq<Body>, k: nat, out: Body -> bool)
    requires k < |s|
    ensures Filter(s[..k + 1], out) == Filter(s[..k], out) + (if out(s[k]) then [] else [s[k]])
  {
    assert s[..k + 1][..k] == s[..k];
  }

  /** The cull loop's view after examining the first k bodies of `orig`:
      the survivors among them, then the unexamined rest, with the cursor on
      the first unexamined body. */
  ghost predicate CullView(orig: seq<Body>, k: nat, list: seq<Body>, cur: nat, rej: Body -> bool) {
    k <= |orig| && cur == |Filter(orig[..k], rej)| && list == Filter(orig[..k], rej) + orig[k..]
  }

  /** The cull loop's step: the cursor is on the next unexamined body, and
      either removing it or moving past it re-establishes the loop's view. */
  lemma CullStep(orig: seq<Body>, k: nat, list: seq<Body>, cur: nat, out: bool, rej: Body -> bool)
    requires CullView(orig, k, list, cur, rej) && cur < |list|
    requires out == rej(list[cur])
    ensures k < |orig| && list[cur] == orig[k]
    ensures orig[..k + 1] == orig[..k] + [orig[k]]
    ensures out ==> CullView(orig, k + 1, list[..cur] + list[cur + 1..], cur, rej)
    ensures !out ==> CullView(orig, k + 1, list, cur + 1, rej)
  {
    var kept := Filter(orig[..k], rej);
    FilterStep(orig, k, rej);
    assert orig[..k + 1][..k] == orig[..k];
    assert orig[k..] == [orig[k]] + orig[k + 1..];
    assert list == kept + [orig[k]] + orig[k + 1..];
    assert list[..cur] == kept;
    assert list[cur + 1..] == orig[k + 1..];
  }

  /** When the cursor has passed the end, every body has been examined. */
  lemma CullDone(orig: seq<Body>, k: nat, list: seq<Body>, cur: nat, rej: Body -> bool)
    requires CullView(orig, k, list, cur, rej) && cur >= |list|
    ensures list == Filter(orig, rej)
  {
    assert orig[..k] == orig;
  }

  /** The cull keeps every surviving body's handle in `gBodies`, and keeps
      the handles of live bodies distinct. */
  lemma SurvivorsRegistered(s: seq<Body>, handles: seq<BodyId>)
    requires Registered(s, handles)
    ensures Registered(Survivors(s), handles)
  {
    FilterDistinct(s, |handles|, Culled);
  }

  /** A body is kept by a filter iff it was present and is not rejected. */
  lemma {:induction false} FilterMember(s: seq<Body>, b: Body, out: Body -> bool)
    ensures b in Filter(s, out) <==> b in s && !out(b)
  {
    if s != [] {
      var init := s[..|s| - 1];
      FilterMember(init, b, out);
      assert s == init + [s[|s| - 1]];
    }
  }

  /** A body survives a cull iff it was present and its pixel position lies
      in [-1000, 1800] x [-1000, 1600]. */
  lemma SurvivorsMember(s: seq<Body>, b: Body)
    ensures var p := PixelPositionFromMetric(b.position);
      b in Survivors(s) <==> b in s && -1000 <= p.x <= 1800 && -1000 <= p.y <= 1600
  {
    FilterMember(s, b, Culled);
  }

  /** Filtering distributes over concatenation. */
  lemma {:induction false} FilterAppend(a: seq<Body>, b: seq<Body>, out: Body -> bool)
    ensures Filter(a + b, out) == Filter(a, out) + Filter(b, out)
  {
    if b == [] {
      assert a + b == a;
    } else {
      var init := b[..|b| - 1];
      FilterAppend(a, init, out);
      assert (a + b)[..|a + b| - 1] == a + init;
    }
  }

  /** Culling distributes over concatenation: survivors keep their relative
      order, whatever is removed around them. */
  lemma SurvivorsAppend(a: seq<Body>, b: seq<Body>)
    ensures Survivors(a + b) == Survivors(a) + Survivors(b)
  {
    FilterAppend(a, b, Culled);
  }

  /** A list with every body in bounds is left as it is by a cull. */
  lemma SurvivorsAllInBounds(s: seq<Body>)
    requires forall i :: 0 <= i < |s| ==> !OutOfBounds(s[i].position)
    ensures Survivors(s) == s
  {
    FilterKept(s, Culled);
  }

  /** When only body k is rejected, a filter removes exactly that body. */
  lemma FilterRemoveOne(s: seq<Body>, k: nat, out: Body -> bool)
    requires k < |s| && out(s[k])
    requires forall i :: 0 <= i < |s| && i != k ==> !out(s[i])
    ensures Filter(s, out) == s[..k] + s[k + 1..]
  {
    var pre, post := s[..k], s[k + 1..];
    assert forall i :: 0 <= i < |pre| ==> !out(pre[i]) by {
      forall i | 0 <= i < |pre| ensures !out(pre[i]) {
        assert pre[i] == s[i];
      }
    }
    assert forall i :: 0 <= i < |post| ==> !out(post[i]) by {
      forall i | 0 <= i < |post| ensures !out(post[i]) {
        assert post[i] == s[k + 1 + i];
      }
    }
    FilterAroundOne(s, k, pre, post, out);
  }

  /** The removal stated on the three parts of the list. */
  lemma FilterAroundOne(s: seq<Body>, k: nat, pre: seq<Body>, post: seq<Body>, out: Body -> bool)
    requires k < |s| && out(s[k]) && pre == s[..k] && post == s[k + 1..]
    requires forall i :: 0 <= i < |pre| ==> !out(pre[i])
    requires forall i :: 0 <= i < |post| ==> !out(post[i])
    ensures Filter(s, out) == pre + post
  {
    FilterKept(pre, out);
    FilterKept(post, out);
    calc {
      Filter(s, out);
    == { SplitAround(s, k); }
      Filter(pre + ([s[k]] + post), out);
    == { FilterAppend(pre, [s[k]] + post, out); }
      Filter(pre, out) + Filter([s[k]] + post, out);
    == { FilterConsRejected(s[k], post, out); }
      pre + Filter(post, out);
    }
  }

  /** A rejected body at the head of a list is dropped. */
  lemma FilterConsRejected(b: Body, t: seq<Body>, out: Body -> bool)
    requires out(b)
    ensures Filter([b] + t, out) == Filter(t, out)
  {
    FilterAppend([b], t, out);
    FilterSingleRejected(b, out);
    assert [] + Filter(t, out) == Filter(t, out);
  }

  /** A list with no rejected body is kept whole. */
  lemma {:induction false} FilterKept(t: seq<Body>, out: Body -> bool)
    requires forall i :: 0 <= i < |t| ==> !out(t[i])
    ensures Filter(t, out) == t
  {
    if t != [] {
      FilterKept(t[..|t| - 1], out);
    }
  }

  /** A list is its prefix, one body and its suffix. */
  lemma SplitAround(s: seq<Body>, k: nat)
    requires k < |s|
    ensures s == s[..k] + ([s[k]] + s[k + 1..])
  {
  }

  /** A single rejected body leaves nothing. */
  lemma FilterSingleRejected(b: Body, out: Body -> bool)
    requires out(b)
    ensures Filter([b], out) == []
  {
    assert [b][..0] == [];
  }

  /** Removing a middle body: when only body k is out of bounds, one cull
      removes exactly that body and leaves the others in their order. */
  lemma SurvivorsRemoveOne(s: seq<Body>, k: nat)
    requires k < |s| && OutOfBounds(s[k].position)
    requires forall i :: 0 <= i < |s| && i != k ==> !OutOfBounds(s[i].position)
    ensures Survivors(s) == s[..k] + s[k + 1..]
  {
    FilterRemoveOne(s, k, Culled);
  }

  /** A second filter by the same test removes nothing. */
  lemma FilterIdempotent(s: seq<Body>, out: Body -> bool)
    ensures Filter(Filter(s, out), out) == Filter(s, out)
  {
    var r := Filter(s, out);
    forall i | 0 <= i < |r| ensures !out(r[i]) {
      FilterMember(s, r[i], out);
    }
    FilterKept(r, out);
  }

  /** A second cull without a step in between removes nothing. */
  lemma SurvivorsIdempotent(s: seq<Body>)
    ensures Survivors(Survivors(s)) == Survivors(s)
  {
    FilterIdempotent(s, Culled);
  }

  /** A filter never invents bodies and keeps their identities distinct. */
  lemma {:induction false} FilterDistinct(s: seq<Body>, bound: nat, out: Body -> bool)
    requires DistinctIds(s) && forall i :: 0 <= i < |s| ==> s[i].id < bound
    ensures DistinctIds(Filter(s, out))
    ensures forall b :: b in Filter(s, out) ==> b in s
    ensures forall i :: 0 <= i < |Filter(s, out)| ==> Filter(s, out)[i].id < bound
  {
    if s != [] {
      var init := s[..|s| - 1];
      var last := s[|s| - 1];
      FilterDistinct(init, bound, out);
      var r := Filter(init, out);
      forall b | b in Filter(s, out) ensures b in s {
        assert b in r || b == last;
      }
      forall i | 0 <= i < |r| ensures r[i].id != last.id {
        assert r[i] in init;
      }
    }
  }

  /** The world the program owns, `gB2World` together with `gBodies`. */
  class PhysicsWorld {
    var gravity: Vec2
    /** The world's body list, in list order. */
    var bodies: seq<Body>
    /** `gBodies`: the handle of every body ever created, in creation order;
        it is never shrunk. The handle of the n-th created body is n. */
    var handles: seq<BodyId>
    /** Number of solver steps taken. */
    var stepCount: nat

    ghost predicate Valid()
      reads this
    {
      Registered(bodies, handles)
    }

    predicate Live(id: BodyId)
      reads this
    {
      exists i :: 0 <= i < |bodies| && bodies[i].id == id
    }

    /** A world with no bodies and zero gravity. */
    constructor ()
      ensures Valid()
      ensures gravity == Vec2(0.0, 0.0) && bodies == [] && handles == [] && stepCount == 0
    {
      gravity := Vec2(0.0, 0.0);
      bodies := [];
      handles := [];
      stepCount := 0;
    }

    method SetGravity(g: Vec2)
      requires Valid()
      modifies this
      ensures Valid()
      ensures gravity == g && bodies == old(bodies) && handles == old(handles) && stepCount == old(stepCount)
    {
      gravity := g;
    }

    /** `createBody`: the world puts a new body, with no shapes and at the
        origin, at the head of its list; its handle is appended to `gBodies`. */
    method CreateBody(kind: BodyKind) returns (id: BodyId)
      requires Valid()
      modifies this
      ensures Valid()
      ensures id == |old(handles)| && !old(Live(id))
      ensures bodies == [Body(id, kind, Vec2(0.0, 0.0), 0.0, [])] + old(bodies)
      ensures handles == old(handles) + [id]
      ensures gravity == old(gravity) && stepCount == old(stepCount)
    {
      id := |handles|;
      bodies := [Body(id, kind, Vec2(0.0, 0.0), 0.0, [])] + bodies;
      handles := handles + [id];
    }

    /** The position of the live body `id` in the list. */
    function IndexOf(id: BodyId): (k: nat)
      reads this
      requires Live(id)
      ensures k < |bodies| && bodies[k].id == id
    {
      IndexIn(bodies, id)
    }

    /** `addShapeToBody`: a box of the rectangle's size, centred at its offset
        (converted to metric without a y flip), density 1, added at the head of
        the body's fixture list. */
    method AddBoxShape(rect: PixelRect, id: BodyId)
      requires Valid() && Live(id)
      modifies this
      ensures Valid()
      ensures |bodies| == |old(bodies)|
      ensures forall i :: 0 <= i < |bodies| ==>
        bodies[i] == if old(bodies[i]).id == id
                     then old(bodies[i]).(fixtures := [Fixture(BoxOf(rect), 1.0, 0.0)] + old(bodies[i]).fixtures)
                     else old(bodies[i])
      ensures handles == old(handles) && gravity == old(gravity) && stepCount == old(stepCount)
    {
      var k := IndexOf(id);
      bodies := bodies[k := bodies[k].(fixtures := [Fixture(BoxOf(rect), 1.0, 0.0)] + bodies[k].fixtures)];
    }

    /** `addShapeCircleToBody`: a circle of the given pixel radius, density 1,
        added at the head of the body's fixture list. */
    method AddCircleShape(radiusPixel: int, id: BodyId)
      requires Valid() && Live(id)
      modifies this
      ensures Valid()
      ensures |bodies| == |old(bodies)|
      ensures forall i :: 0 <= i < |bodies| ==>
        bodies[i] == if old(bodies[i]).id == id
                     then old(bodies[i]).(fixtures := [Fixture(Circle(MetricFromPixel(radiusPixel)), 1.0, 0.0)] + old(bodies[i]).fixtures)
                     else old(bodies[i])
      ensures handles == old(handles) && gravity == old(gravity) && stepCount == old(stepCount)
    {
      var k := IndexOf(id);
      bodies := bodies[k := bodies[k].(fixtures := [Fixture(Circle(MetricFromPixel(radiusPixel)), 1.0, 0.0)] + bodies[k].fixtures)];
    }

    /** Places the body `id` at `position` with rotation `angle`. */
    method SetTransform(id: BodyId, position: Vec2, angle: real)
      requires Valid() && Live(id)
      modifies this
      ensures Valid()
      ensures |bodies| == |old(bodies)|
      ensures forall i :: 0 <= i < |bodies| ==>
        bodies[i] == if old(bodies[i]).id == id
                     then old(bodies[i]).(position := position, angle := angle)
                     else old(bodies[i])
      ensures handles == old(handles) && gravity == old(gravity) && stepCount == old(stepCount)
    {
      var k := IndexOf(id);
      bodies := bodies[k := bodies[k].(position := position, angle := angle)];
    }

    /** `setRestitutionToBody`: walks the body's fixtures and sets the
        restitution of each to `value`; shapes, densities, the other bodies
        and the rest of the world are unchanged. */
    method SetRestitution(value: real, id: BodyId)
      requires Valid() && Live(id)
      modifies this
      ensures Valid()
      ensures |bodies| == |old(bodies)|
      ensures forall i :: 0 <= i < |bodies| && old(bodies[i]).id != id ==> bodies[i] == old(bodies[i])
      ensures forall i :: 0 <= i < |bodies| && old(bodies[i]).id == id ==>
        bodies[i].(fixtures := []) == old(bodies[i]).(fixtures := []) &&
        RestitutionSet(old(bodies[i]).fixtures, bodies[i].fixtures, value)
      ensures handles == old(handles) && gravity == old(gravity) && stepCount == old(stepCount)
    {
      var k := IndexOf(id);
      var fs := bodies[k].fixtures;
      var j := 0;
      while j < |fs|
        invariant 0 <= j <= |fs| == |bodies[k].fixtures|
        invariant forall n :: 0 <= n < j ==> fs[n] == bodies[k].fixtures[n].(restitution := value)
        invariant forall n :: j <= n < |fs| ==> fs[n] == bodies[k].fixtures[n]
      {
        fs := fs[j := fs[j].(restitution := value)];
        j := j + 1;
      }
      bodies := bodies[k := bodies[k].(fixtures := fs)];
    }

    /** `cleanUselessBodies`: one walk over the body list that destroys every
        body whose position is out of bounds. The cursor moves on before the
        current body is destroyed, so removing the body under the cursor leaves
        the cursor on its successor. `visited` lists the bodies examined, in
        order. `gBodies` is left as it is, so it keeps the handles of the
        destroyed bodies. */
    method CleanUselessBodies() returns (ghost visited: seq<Body>)
      requires Valid()
      modifies this
      ensures Valid()
      ensures bodies == Survivors(old(bodies))
      ensures visited == old(bodies)
      ensures handles == old(handles) && gravity == old(gravity) && stepCount == old(stepCount)
    {
      ghost var orig := bodies;
      ghost var k := 0;
      visited := [];
      var cur := 0;
      while cur < |bodies|
        invariant CullView(orig, k, bodies, cur, Culled)
        invariant visited == orig[..k]
        modifies this`bodies
        decreases |bodies| - cur
      {
        var out := Culled(bodies[cur]);
        ghost var examined := bodies[cur];
        CullStep(orig, k, bodies, cur, out, Culled);
        if out {
          bodies := bodies[..cur] + bodies[cur + 1..];
        } else {
          cur := cur + 1;
        }
        visited := visited + [examined];
        k := k + 1;
      }
      CullDone(orig, k, bodies, cur, Culled);
      SurvivorsRegistered(orig, handles);
    }

    /** `b2World::Step`, opaque: each body takes the pose the solver computed
        for it; nothing else about the bodies changes. */
    method Step(poses: seq<Pose>)
      requires Valid() && |poses| == |bodies|
      modifies this
      ensures Valid()
      ensures |bodies| == |old(bodies)|
      ensures forall i :: 0 <= i < |bodies| ==>
        bodies[i] == old(bodies[i]).(position := poses[i].position, angle := poses[i].angle)
      ensures stepCount == old(stepCount) + 1
      ensures handles == old(handles) && gravity == old(gravity)
    {
      var before := bodies;
      bodies := seq(|before|, i requires 0 <= i < |before| =>
        before[i].(position := poses[i].position, angle := poses[i].angle));
      stepCount := stepCount + 1;
    }
  }

  /** The bodies after a solver step, in list order: each takes the pose
      computed for it and keeps its handle, kind and fixtures. */
  function Moved(bs: seq<Body>, poses: seq<Pose>): (r: seq<Body>)
    requires |poses| == |bs|
    ensures |r| == |bs|
    ensures forall i :: 0 <= i < |r| ==>
      r[i].id == bs[i].id && r[i].kind == bs[i].kind && r[i].fixtures == bs[i].fixtures
    ensures forall i :: 0 <= i < |r| ==>
      r[i].position == poses[i].position && r[i].angle == poses[i].angle
  {
    seq(|bs|, i requires 0 <= i < |bs| => bs[i].(position := poses[i].position, angle := poses[i].angle))
  }

  /** The shape `addShapeToBody` builds for a pixel rectangle. */
  function BoxOf(rect: PixelRect): (s: Shape)
    ensures s.Box? && s.halfWidth * 2.0 * PixelsPerMetric == rect.w as real
    ensures s.halfHeight * 2.0 * PixelsPerMetric == rect.h as real
    ensures s.center == Vec2(MetricFromPixel(rect.x), MetricFromPixel(rect.y)) && s.angle == 0.0
  {
    Box(MetricFromPixel(rect.w) / 2.0, MetricFromPixel(rect.h) / 2.0,
        Vec2(MetricFromPixel(rect.x), MetricFromPixel(rect.y)), 0.0)
  }

  /** `after` is `before` with every restitution set to `value`. */
  predicate RestitutionSet(before: seq<Fixture>, after: seq<Fixture>, value: real) {
    |after| == |before| &&
    forall n :: 0 <= n < |after| ==>
      after[n].shape == before[n].shape && after[n].density == before[n].density &&
      after[n].restitution == value
  }

  function IndexIn(s: seq<Body>, id: BodyId): (k: nat)
    requires exists i :: 0 <= i < |s| && s[i].id == id
    ensures k < |s| && s[k].id == id
  {
    if s[0].id == id then 0
    else
      assert exists i :: 0 <= i < |s[1..]| && s[1..][i].id == id by {
        var i :| 0 <= i < |s| && s[i].id == id;
        assert s[1..][i - 1].id == id;
      }
      1 + IndexIn(s[1..], id)
  }
}
