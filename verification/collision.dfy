/** The convex-polygon collider shared by collider.go,
    mechanism/collider.go and mech/collider.go: construction with a tight
    axis-aligned bounding box, world-space vertex lookup, the bounding-box
    rejection test and the one-sided separating-axis test. */
module Collision {

  import opened R2
  import R2Extra
  import opened Outcomes
  import Convexity

  /** A collider.  `vertices`, `center`, `boundSmall` and `boundBig` are in
      the collider's own frame; `position` and `velocity` come from the
      embedded `Entity` (collider.go), the collider's own fields
      (mechanism/collider.go) or the embedded `Body` (mech/collider.go). */
  datatype Collider = Collider(
    vertices: seq<Vector>,
    center: Vector,
    boundSmall: Vector,
    boundBig: Vector,
    position: Vector,
    velocity: Vector)

  /** `ErrNotConvex`: the message and the rejected vertex list. */
  datatype NotConvex = NotConvex(message: string, vertices: seq<Vector>)

  // == Bounding box ========

  datatype Box = Box(small: Vector, big: Vector)

  predicate InBox(b: Box, p: Vector)
  {
    b.small.x <= p.x <= b.big.x && b.small.y <= p.y <= b.big.y
  }

  predicate WellFormed(b: Box)
  {
    b.small.x <= b.big.x && b.small.y <= b.big.y
  }

  /** Every vertex lies in `b`, and each of the four bounds is attained by
      some vertex. */
  predicate Tight(vs: seq<Vector>, b: Box)
  {
    && (forall j :: 0 <= j < |vs| ==> InBox(b, vs[j]))
    && (exists j :: 0 <= j < |vs| && vs[j].x == b.small.x)
    && (exists j :: 0 <= j < |vs| && vs[j].x == b.big.x)
    && (exists j :: 0 <= j < |vs| && vs[j].y == b.small.y)
    && (exists j :: 0 <= j < |vs| && vs[j].y == b.big.y)
  }

  /** The bounding-box loop of the constructors from index `i` on.  A vertex
      below the current lower bound moves only the lower bound; otherwise one
      above the upper bound moves only the upper bound. */
  function ScanBounds(vs: seq<Vector>, i: nat, b: Box): (r: Box)
    requires i <= |vs| && WellFormed(b)
    decreases |vs| - i
    ensures WellFormed(r) && InBox(r, b.small) && InBox(r, b.big)
    ensures forall j :: i <= j < |vs| ==> InBox(r, vs[j])
    ensures r.small.x == b.small.x || exists j :: i <= j < |vs| && vs[j].x == r.small.x
    ensures r.big.x == b.big.x || exists j :: i <= j < |vs| && vs[j].x == r.big.x
    ensures r.small.y == b.small.y || exists j :: i <= j < |vs| && vs[j].y == r.small.y
    ensures r.big.y == b.big.y || exists j :: i <= j < |vs| && vs[j].y == r.big.y
  {
    if i == |vs| then b
    else
      var p := vs[i];
      var loX, hiX :=
        if p.x < b.small.x then p.x else b.small.x,
        if p.x < b.small.x then b.big.x else if p.x > b.big.x then p.x else b.big.x;
      var loY, hiY :=
        if p.y < b.small.y then p.y else b.small.y,
        if p.y < b.small.y then b.big.y else if p.y > b.big.y then p.y else b.big.y;
      ScanBounds(vs, i + 1, Box(Vector(loX, loY), Vector(hiX, hiY)))
  }

  /** The box the constructors compute, seeded with the first vertex. */
  function BoundingBox(vs: seq<Vector>): (r: Box)
    requires |vs| >= 1
    ensures WellFormed(r) && Tight(vs, r)
  {
    ScanBounds(vs, 1, Box(vs[0], vs[0]))
  }

  /** No smaller axis-aligned box contains every vertex. */
  lemma BoundingBoxIsSmallest(vs: seq<Vector>, b: Box)
    requires |vs| >= 1
    requires forall j :: 0 <= j < |vs| ==> InBox(b, vs[j])
    ensures InBox(b, BoundingBox(vs).small) && InBox(b, BoundingBox(vs).big)
  {
    var r := BoundingBox(vs);
    var j0 :| 0 <= j0 < |vs| && vs[j0].x == r.small.x;
    var j1 :| 0 <= j1 < |vs| && vs[j1].x == r.big.x;
    var j2 :| 0 <= j2 < |vs| && vs[j2].y == r.small.y;
    var j3 :| 0 <= j3 < |vs| && vs[j3].y == r.big.y;
    assert InBox(b, vs[j0]) && InBox(b, vs[j1]) && InBox(b, vs[j2]) && InBox(b, vs[j3]);
    assert InBox(r, vs[j0]) && InBox(r, vs[j1]);
  }

  // == Construction ========

  /** `NewCollider` / `NewPolyCollider`, with the error message the file
      uses.  An empty vertex list passes `isConvex` and then indexes
      `vertices[0]`, a run-time panic, so at least one vertex is required. */
  function NewCollider(vs: seq<Vector>, message: string): (r: Result<Collider, NotConvex>)
    requires |vs| >= 1
    ensures r.Err? <==> !Convexity.IsConvex(vs)
    ensures r.Err? ==> r.error == NotConvex(message, vs)
    ensures r.Ok? ==> Constructed(r.value)
    ensures r.Ok? ==> r.value.vertices == vs && r.value.position == Zero && r.value.velocity == Zero
  {
    if !Convexity.IsConvex(vs) then Err(NotConvex(message, vs))
    else
      var box := BoundingBox(vs);
      var center := Add(box.small, Scale(Sub(box.big, box.small), 0.5));
      Ok(Collider(vs, center, box.small, box.big, Zero, Zero))
  }

  /** What construction establishes.  The collider here owns a copy of its
      vertices, so only `position` and `velocity` can change afterwards; in
      the source the vertices stay shared with the caller's slice. */
  predicate Constructed(c: Collider)
  {
    && |c.vertices| >= 1
    && Convexity.IsConvex(c.vertices)
    && WellFormed(Box(c.boundSmall, c.boundBig))
    && Tight(c.vertices, Box(c.boundSmall, c.boundBig))
    && c.center.x * 2.0 == c.boundSmall.x + c.boundBig.x
    && c.center.y * 2.0 == c.boundSmall.y + c.boundBig.y
  }

  // == World-space vertices ========

  /** `GetVertexPos(i)`: vertex `i` modulo the vertex count, moved by `position`. */
  function GetVertexPos(c: Collider, i: nat): (r: Vector)
    requires |c.vertices| >= 1
    ensures i < |c.vertices| ==> r == Add(c.vertices[i], c.position)
  {
    Add(c.vertices[i % |c.vertices|], c.position)
  }

  /** The edge after the last vertex closes back to the first one. */
  lemma GetVertexPosWraps(c: Collider)
    requires |c.vertices| >= 1
    ensures GetVertexPos(c, |c.vertices|) == GetVertexPos(c, 0)
  {
    var n := |c.vertices|;
    assert n % n == 0;
  }

  /** The bounding box moved into world space. */
  function WorldBox(c: Collider): Box
  {
    Box(Add(c.boundSmall, c.position), Add(c.boundBig, c.position))
  }

  /** `bBoxCollides`: false only when the world boxes are strictly apart on
      some axis; boxes that share an edge or a corner overlap. */
  predicate BBoxCollides(c: Collider, o: Collider)
  {
    var cS, cB := Add(c.boundSmall, c.position), Add(c.boundBig, c.position);
    var oS, oB := Add(o.boundSmall, o.position), Add(o.boundBig, o.position);
    !(cS.x > oB.x || cS.y > oB.y || cB.x < oS.x || cB.y < oS.y)
  }

  lemma BBoxCollidesSymmetric(c: Collider, o: Collider)
    ensures BBoxCollides(c, o) == BBoxCollides(o, c)
  {
  }

  /** For well-formed boxes the test is exact: it passes iff some point lies
      in both world boxes (touching boxes share their boundary points). */
  lemma BBoxCollidesIffCommonPoint(c: Collider, o: Collider)
    requires WellFormed(Box(c.boundSmall, c.boundBig)) && WellFormed(Box(o.boundSmall, o.boundBig))
    ensures BBoxCollides(c, o) <==> exists p :: InBox(WorldBox(c), p) && InBox(WorldBox(o), p)
  {
    var cb, ob := WorldBox(c), WorldBox(o);
    if BBoxCollides(c, o) {
      var p := Vector(if cb.small.x < ob.small.x then ob.small.x else cb.small.x,
                      if cb.small.y < ob.small.y then ob.small.y else cb.small.y);
      assert InBox(cb, p) && InBox(ob, p);
    }
  }

  /** With tight bounds, a rejection by the box test means that on the x or
      the y axis every world vertex of one collider lies strictly beyond
      every world vertex of the other. */
  lemma BBoxRejectionSeparatesVertices(c: Collider, o: Collider)
    requires Constructed(c) && Constructed(o)
    requires !BBoxCollides(c, o)
    ensures || (forall j, k :: 0 <= j < |c.vertices| && 0 <= k < |o.vertices| ==> GetVertexPos(c, j).x > GetVertexPos(o, k).x)
            || (forall j, k :: 0 <= j < |c.vertices| && 0 <= k < |o.vertices| ==> GetVertexPos(c, j).y > GetVertexPos(o, k).y)
            || (forall j, k :: 0 <= j < |c.vertices| && 0 <= k < |o.vertices| ==> GetVertexPos(c, j).x < GetVertexPos(o, k).x)
            || (forall j, k :: 0 <= j < |c.vertices| && 0 <= k < |o.vertices| ==> GetVertexPos(c, j).y < GetVertexPos(o, k).y)
  {
    forall j | 0 <= j < |c.vertices|
      ensures InBox(WorldBox(c), GetVertexPos(c, j))
    {
      assert InBox(Box(c.boundSmall, c.boundBig), c.vertices[j]);
    }
    forall k | 0 <= k < |o.vertices|
      ensures InBox(WorldBox(o), GetVertexPos(o, k))
    {
      assert InBox(Box(o.boundSmall, o.boundBig), o.vertices[k]);
    }
  }

  // == Separating-axis test ========

  /** Which perpendicular of an edge serves as the axis: r2's `Orthogonal`
      (collider.go, mechanism/collider.go) or golang/geo's `Ortho`
      (mech/collider.go). */
  datatype AxisRule = Clockwise | CounterClockwise

  function EdgeNormal(e: Vector, rule: AxisRule): (r: Vector)
    ensures r == Zero <==> e == Zero
  {
    match rule
    case Clockwise => Orthogonal(e)
    case CounterClockwise => R2Extra.Ortho(e)
  }

  /** The axis of edge `i`: a perpendicular of vertex `i` minus vertex `i + 1`. */
  function Axis(c: Collider, i: nat, rule: AxisRule): Vector
    requires |c.vertices| >= 1
  {
    EdgeNormal(Sub(GetVertexPos(c, i), GetVertexPos(c, i + 1)), rule)
  }

  /** `ProjectOntoMagnitude` of world vertex `j` onto `axis`. */
  function Shade(c: Collider, j: nat, axis: Vector): real
    requires |c.vertices| >= 1 && axis != Zero
  {
    ProjectOntoMagnitude(GetVertexPos(c, j), axis)
  }

  datatype Span = Span(lo: real, hi: real)

  /** The shadow loop from vertex `j` on.  A value above the current maximum
      moves only the maximum; otherwise one below the minimum moves only the
      minimum. */
  function ShadowFrom(c: Collider, axis: Vector, j: nat, s: Span): (r: Span)
    requires |c.vertices| >= 1 && axis != Zero
    requires j <= |c.vertices| && s.lo <= s.hi
    decreases |c.vertices| - j
    ensures r.lo <= s.lo && s.hi <= r.hi
    ensures forall k :: j <= k < |c.vertices| ==> r.lo <= Shade(c, k, axis) <= r.hi
    ensures r.lo == s.lo || exists k :: j <= k < |c.vertices| && Shade(c, k, axis) == r.lo
    ensures r.hi == s.hi || exists k :: j <= k < |c.vertices| && Shade(c, k, axis) == r.hi
  {
    if j == |c.vertices| then s
    else
      var cur := Shade(c, j, axis);
      var next :=
        if cur > s.hi then Span(s.lo, cur)
        else if cur < s.lo then Span(cur, s.hi)
        else s;
      ShadowFrom(c, axis, j + 1, next)
  }

  /** The shadow of the whole collider: the least and greatest projection
      over its world vertices, both attained. */
  function Shadow(c: Collider, axis: Vector): (r: Span)
    requires |c.vertices| >= 1 && axis != Zero
    ensures forall k :: 0 <= k < |c.vertices| ==> r.lo <= Shade(c, k, axis) <= r.hi
    ensures exists k :: 0 <= k < |c.vertices| && Shade(c, k, axis) == r.lo
    ensures exists k :: 0 <= k < |c.vertices| && Shade(c, k, axis) == r.hi
  {
    var first := Shade(c, 0, axis);
    ShadowFrom(c, axis, 1, Span(first, first))
  }

  /** The overlap test on one axis.  A zero axis (two equal consecutive
      vertices) makes every projection 0/0, a NaN in the source, and every
      comparison with NaN is false, so such an axis never separates. */
  predicate AxisSeparates(c: Collider, o: Collider, axis: Vector)
    requires |c.vertices| >= 1 && |o.vertices| >= 1
  {
    axis != Zero &&
    var cs, os := Shadow(c, axis), Shadow(o, axis);
    cs.hi < os.lo || os.hi < cs.lo
  }

  /** Reference definition: along `axis`, every world vertex of `c` lies
      strictly before every world vertex of `o`. */
  predicate Below(c: Collider, o: Collider, axis: Vector)
    requires |c.vertices| >= 1 && |o.vertices| >= 1
  {
    forall j, k :: 0 <= j < |c.vertices| && 0 <= k < |o.vertices| ==>
      Dot(GetVertexPos(c, j), axis) < Dot(GetVertexPos(o, k), axis)
  }

  lemma ShadeOrder(c: Collider, j: nat, o: Collider, k: nat, axis: Vector)
    requires |c.vertices| >= 1 && |o.vertices| >= 1 && axis != Zero
    ensures Shade(c, j, axis) < Shade(o, k, axis) <==> Dot(GetVertexPos(c, j), axis) < Dot(GetVertexPos(o, k), axis)
  {
    ProjectOntoMagnitudeOrder(GetVertexPos(c, j), GetVertexPos(o, k), axis);
  }

  lemma ShadowsApartIffBelow(c: Collider, o: Collider, axis: Vector)
    requires |c.vertices| >= 1 && |o.vertices| >= 1 && axis != Zero
    ensures Shadow(c, axis).hi < Shadow(o, axis).lo <==> Below(c, o, axis)
  {
    var cs, os := Shadow(c, axis), Shadow(o, axis);
    if cs.hi < os.lo {
      forall j, k | 0 <= j < |c.vertices| && 0 <= k < |o.vertices|
        ensures Dot(GetVertexPos(c, j), axis) < Dot(GetVertexPos(o, k), axis)
      {
        ShadeOrder(c, j, o, k, axis);
      }
    }
    if Below(c, o, axis) {
      var j :| 0 <= j < |c.vertices| && Shade(c, j, axis) == cs.hi;
      var k :| 0 <= k < |o.vertices| && Shade(o, k, axis) == os.lo;
      ShadeOrder(c, j, o, k, axis);
    }
  }

  /** The shadow test on a non-zero axis decides exactly whether the axis
      strictly separates the two vertex sets, one way round or the other. */
  lemma {:induction false} AxisSeparatesIff(c: Collider, o: Collider, axis: Vector)
    requires |c.vertices| >= 1 && |o.vertices| >= 1
    ensures AxisSeparates(c, o, axis) <==> axis != Zero && (Below(c, o, axis) || Below(o, c, axis))
  {
    if axis != Zero {
      ShadowsApartIffBelow(c, o, axis);
      ShadowsApartIffBelow(o, c, axis);
    }
  }

  /** Edge `m` of `c` gives an axis whose shadows are apart. */
  predicate EdgeSeparates(c: Collider, o: Collider, rule: AxisRule, m: nat)
    requires |c.vertices| >= 1 && |o.vertices| >= 1
  {
    AxisSeparates(c, o, Axis(c, m, rule))
  }

  /** The outer loop of `satCollides` from edge `i` on. */
  function SatFrom(c: Collider, o: Collider, rule: AxisRule, i: nat): (r: bool)
    requires |c.vertices| >= 1 && |o.vertices| >= 1 && i <= |c.vertices|
    decreases |c.vertices| - i
    ensures r <==> forall m :: i <= m < |c.vertices| ==> !EdgeSeparates(c, o, rule, m)
  {
    if i == |c.vertices| then true
    else if EdgeSeparates(c, o, rule, i) then false
    else
      SatFrom(c, o, rule, i + 1)
  }

  /** Reference definition: edge `m` of `c` has a non-zero axis along which
      one collider's world vertices all lie strictly before the other's. */
  predicate EdgeSplits(c: Collider, o: Collider, rule: AxisRule, m: nat)
    requires |c.vertices| >= 1 && |o.vertices| >= 1
  {
    var a := Axis(c, m, rule);
    a != Zero && (Below(c, o, a) || Below(o, c, a))
  }

  /** No edge of `c` splits the two colliders. */
  predicate NoEdgeSplits(c: Collider, o: Collider, rule: AxisRule)
    requires |c.vertices| >= 1 && |o.vertices| >= 1
  {
    forall m :: 0 <= m < |c.vertices| ==> !EdgeSplits(c, o, rule, m)
  }

  /** `satCollides`: true iff no edge axis of `c` strictly separates the
      world vertices of `c` from those of `o`. */
  function SatCollides(c: Collider, o: Collider, rule: AxisRule): (r: bool)
    requires |c.vertices| >= 1 && |o.vertices| >= 1
    ensures r <==> NoEdgeSplits(c, o, rule)
  {
    var r := SatFrom(c, o, rule, 0);
    forall m | 0 <= m < |c.vertices|
      ensures EdgeSeparates(c, o, rule, m) <==> EdgeSplits(c, o, rule, m)
    {
      AxisSeparatesIff(c, o, Axis(c, m, rule));
    }
    r
  }

  /** `Collides`: the bounding-box test, then the edges of both colliders. */
  function Collides(c: Collider, o: Collider, rule: AxisRule): (r: bool)
    requires |c.vertices| >= 1 && |o.vertices| >= 1
    ensures r ==> BBoxCollides(c, o)
    ensures r <==> BBoxCollides(c, o) && NoEdgeSplits(c, o, rule) && NoEdgeSplits(o, c, rule)
  {
    BBoxCollides(c, o) && SatCollides(c, o, rule) && SatCollides(o, c, rule)
  }

  // == Properties of the whole test ========

  lemma CollidesSymmetric(c: Collider, o: Collider, rule: AxisRule)
    requires |c.vertices| >= 1 && |o.vertices| >= 1
    ensures Collides(c, o, rule) == Collides(o, c, rule)
  {
    BBoxCollidesSymmetric(c, o);
  }

  lemma DotNeg(p: Vector, a: Vector)
    ensures Dot(p, Neg(a)) == -Dot(p, a)
  {
    var px, py := p.x * a.x, p.y * a.y;
    assert p.x * (-a.x) == -px && p.y * (-a.y) == -py;
  }

  /** Negating an axis swaps which collider lies before the other. */
  lemma BelowNeg(c: Collider, o: Collider, a: Vector)
    requires |c.vertices| >= 1 && |o.vertices| >= 1
    ensures Below(c, o, Neg(a)) <==> Below(o, c, a)
  {
    forall p: Vector, q: Vector
      ensures Dot(p, Neg(a)) < Dot(q, Neg(a)) <==> Dot(q, a) < Dot(p, a)
    {
      DotNeg(p, a);
      DotNeg(q, a);
    }
  }

  /** The counter-clockwise axis of an edge is the clockwise one negated. */
  lemma AxisRulesOpposite(c: Collider, m: nat)
    requires |c.vertices| >= 1
    ensures Axis(c, m, CounterClockwise) == Neg(Axis(c, m, Clockwise))
  {
    R2Extra.OrthoPerpendicular(Sub(GetVertexPos(c, m), GetVertexPos(c, m + 1)));
  }

  /** golang/geo's `Ortho` and r2's `Orthogonal` give the same verdict: the
      two axes of an edge are opposite, and a separation on one is a
      separation on the other with the colliders swapped. */
  lemma {:induction false} CollidesRuleIndependent(c: Collider, o: Collider)
    requires |c.vertices| >= 1 && |o.vertices| >= 1
    ensures Collides(c, o, Clockwise) == Collides(c, o, CounterClockwise)
  {
    forall m | 0 <= m < |c.vertices|
      ensures EdgeSplits(c, o, Clockwise, m) <==> EdgeSplits(c, o, CounterClockwise, m)
    {
      var a := Axis(c, m, Clockwise);
      AxisRulesOpposite(c, m);
      BelowNeg(c, o, a);
      BelowNeg(o, c, a);
    }
    forall m | 0 <= m < |o.vertices|
      ensures EdgeSplits(o, c, Clockwise, m) <==> EdgeSplits(o, c, CounterClockwise, m)
    {
      var a := Axis(o, m, Clockwise);
      AxisRulesOpposite(o, m);
      BelowNeg(c, o, a);
      BelowNeg(o, c, a);
    }
  }

  /** Moving a collider: only its position changes. */
  function Translate(c: Collider, t: Vector): (r: Collider)
    ensures r.vertices == c.vertices && r.position == Add(c.position, t)
    ensures forall i: nat :: |c.vertices| >= 1 ==> GetVertexPos(r, i) == Add(GetVertexPos(c, i), t)
  {
    c.(position := Add(c.position, t))
  }

  lemma DotAdd(p: Vector, t: Vector, a: Vector)
    ensures Dot(Add(p, t), a) == Dot(p, a) + Dot(t, a)
  {
    var px, py, tx, ty := p.x * a.x, p.y * a.y, t.x * a.x, t.y * a.y;
    assert (p.x + t.x) * a.x == px + tx && (p.y + t.y) * a.y == py + ty;
  }

  lemma BelowTranslate(c: Collider, o: Collider, a: Vector, t: Vector)
    requires |c.vertices| >= 1 && |o.vertices| >= 1
    ensures Below(Translate(c, t), Translate(o, t), a) <==> Below(c, o, a)
  {
    var c', o' := Translate(c, t), Translate(o, t);
    forall j, k | 0 <= j < |c.vertices| && 0 <= k < |o.vertices|
      ensures Dot(GetVertexPos(c', j), a) < Dot(GetVertexPos(o', k), a)
          <==> Dot(GetVertexPos(c, j), a) < Dot(GetVertexPos(o, k), a)
    {
      DotAdd(GetVertexPos(c, j), t, a);
      DotAdd(GetVertexPos(o, k), t, a);
    }
  }

  lemma AxisTranslate(c: Collider, m: nat, t: Vector, rule: AxisRule)
    requires |c.vertices| >= 1
    ensures Axis(Translate(c, t), m, rule) == Axis(c, m, rule)
  {
    var p, q := GetVertexPos(c, m), GetVertexPos(c, m + 1);
    assert Sub(Add(p, t), Add(q, t)) == Sub(p, q);
  }

  lemma EdgeSplitsTranslate(c: Collider, o: Collider, m: nat, t: Vector, rule: AxisRule)
    requires |c.vertices| >= 1 && |o.vertices| >= 1
    ensures EdgeSplits(Translate(c, t), Translate(o, t), rule, m) <==> EdgeSplits(c, o, rule, m)
  {
    var a := Axis(c, m, rule);
    AxisTranslate(c, m, t, rule);
    BelowTranslate(c, o, a, t);
    BelowTranslate(o, c, a, t);
  }

  /** Moving both colliders by the same offset does not change the verdict:
      the edge axes depend only on differences of vertices, and the
      projections all shift by the same amount. */
  lemma {:induction false} CollidesTranslationInvariant(c: Collider, o: Collider, t: Vector, rule: AxisRule)
    requires |c.vertices| >= 1 && |o.vertices| >= 1
    ensures Collides(Translate(c, t), Translate(o, t), rule) == Collides(c, o, rule)
  {
    var c', o' := Translate(c, t), Translate(o, t);
    assert BBoxCollides(c', o') == BBoxCollides(c, o);
    forall m | 0 <= m < |c.vertices|
      ensures EdgeSplits(c', o', rule, m) <==> EdgeSplits(c, o, rule, m)
    {
      EdgeSplitsTranslate(c, o, m, t, rule);
    }
    forall m | 0 <= m < |o.vertices|
      ensures EdgeSplits(o', c', rule, m) <==> EdgeSplits(o, c, rule, m)
    {
      EdgeSplitsTranslate(o, c, m, t, rule);
    }
    assert NoEdgeSplits(c', o', rule) == NoEdgeSplits(c, o, rule);
    assert NoEdgeSplits(o', c', rule) == NoEdgeSplits(o, c, rule);
  }
  /** Two colliders with the same vertices, bounds and position; they may
      differ in center and velocity, which the test never reads. */
  predicate SamePlacement(c: Collider, d: Collider)
  {
    c.vertices == d.vertices && c.boundSmall == d.boundSmall && c.boundBig == d.boundBig && c.position == d.position
  }

  lemma EdgeSplitsSamePlacement(c: Collider, c': Collider, o: Collider, o': Collider, m: nat, rule: AxisRule)
    requires |c.vertices| >= 1 && |o.vertices| >= 1
    requires SamePlacement(c, c') && SamePlacement(o, o')
    ensures EdgeSplits(c', o', rule, m) <==> EdgeSplits(c, o, rule, m)
  {
    forall i: nat
      ensures GetVertexPos(c', i) == GetVertexPos(c, i) && GetVertexPos(o', i) == GetVertexPos(o, i)
    {
    }
    assert Axis(c', m, rule) == Axis(c, m, rule);
    var a := Axis(c, m, rule);
    assert Below(c', o', a) == Below(c, o, a);
    assert Below(o', c', a) == Below(o, c, a);
  }

  /** The verdict depends only on vertices, bounds and positions. */
  lemma {:induction false} CollidesSamePlacement(c: Collider, c': Collider, o: Collider, o': Collider, rule: AxisRule)
    requires |c.vertices| >= 1 && |o.vertices| >= 1
    requires SamePlacement(c, c') && SamePlacement(o, o')
    ensures Collides(c', o', rule) == Collides(c, o, rule)
  {
    forall m | 0 <= m < |c.vertices|
      ensures EdgeSplits(c', o', rule, m) <==> EdgeSplits(c, o, rule, m)
    {
      EdgeSplitsSamePlacement(c, c', o, o', m, rule);
    }
    forall m | 0 <= m < |o.vertices|
      ensures EdgeSplits(o', c', rule, m) <==> EdgeSplits(o, c, rule, m)
    {
      EdgeSplitsSamePlacement(o, o', c, c', m, rule);
    }
    assert NoEdgeSplits(c', o', rule) == NoEdgeSplits(c, o, rule);
    assert NoEdgeSplits(o', c', rule) == NoEdgeSplits(o, c, rule);
  }

  /** Two constructed colliders that have a world vertex in common collide:
      the point lies in both bounding boxes, and no axis can put it strictly
      before itself. */
  lemma {:induction false} SharedVertexCollides(c: Collider, o: Collider, j: nat, k: nat, rule: AxisRule)
    requires Constructed(c) && Constructed(o)
    requires j < |c.vertices| && k < |o.vertices|
    requires GetVertexPos(c, j) == GetVertexPos(o, k)
    ensures Collides(c, o, rule)
  {
    var p := GetVertexPos(c, j);
    assert InBox(Box(c.boundSmall, c.boundBig), c.vertices[j]);
    assert InBox(Box(o.boundSmall, o.boundBig), o.vertices[k]);
    assert InBox(WorldBox(c), p) && InBox(WorldBox(o), p);
    BBoxCollidesIffCommonPoint(c, o);
    forall a: Vector
      ensures !Below(c, o, a) && !Below(o, c, a)
    {
      assert !(Dot(GetVertexPos(c, j), a) < Dot(GetVertexPos(o, k), a));
    }
  }
}
