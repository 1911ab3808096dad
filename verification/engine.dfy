/** Package engine's collider (collider.go) and the cases its test file
    (collider_test.go) exercises.  The collider itself is `Collision`'s;
    this module fixes the package's error message and pins down the
    concrete behaviour of `isConvex` and `NewCollider` on small inputs. */
module Engine {

  import opened R2
  import opened Outcomes
  import Convexity
  import Collision

  const NotConvexMessage: string := "Collider vertices were not convex."

  /** `NewCollider` of package engine: the shared construction with this
      package's message. */
  function NewCollider(vs: seq<Vector>): (r: Result<Collision.Collider, Collision.NotConvex>)
    requires |vs| >= 1
    ensures r.Err? <==> !Convexity.IsConvex(vs)
    ensures r.Err? ==> r.error.message == "Collider vertices were not convex." && r.error.vertices == vs
    ensures r.Ok? ==> Collision.Constructed(r.value) && r.value.vertices == vs
    ensures r.Ok? ==> r.value.position == Zero && r.value.velocity == Zero
  {
    Collision.NewCollider(vs, NotConvexMessage)
  }

  /** The unit square, listed counter-clockwise, is convex. */
  lemma SquareIsConvex(sq: seq<Vector>)
    requires |sq| == 4
    requires sq[0] == Vector(0.0, 0.0) && sq[1] == Vector(1.0, 0.0)
    requires sq[2] == Vector(1.0, 1.0) && sq[3] == Vector(0.0, 1.0)
    ensures Convexity.IsConvex(sq)
  {
    assert Convexity.TurnsMatchFrom(sq, 3, Vector(-1.0, 0.0), true);
    assert Convexity.TurnsMatchFrom(sq, 2, Vector(0.0, 1.0), true);
    assert Convexity.TurnsMatchFrom(sq, 1, Vector(1.0, 0.0), true);
    assert Convexity.TurnsMatchFrom(sq, 0, Vector(0.0, -1.0), true);
  }

  /** The chevron turns right at its third vertex and left everywhere else. */
  lemma ChevronIsNotConvex(ch: seq<Vector>)
    requires |ch| == 4
    requires ch[0] == Vector(1.0, 0.0) && ch[1] == Vector(2.0, 2.0)
    requires ch[2] == Vector(1.0, 1.0) && ch[3] == Vector(0.0, 2.0)
    ensures !Convexity.IsConvex(ch)
  {
    assert !Convexity.TurnsMatchFrom(ch, 2, Vector(-1.0, -1.0), true);
    assert !Convexity.TurnsMatchFrom(ch, 1, Vector(1.0, 2.0), true);
  }

  /** A rectangle with an extra vertex in the middle of its bottom edge is
      rejected when listed counter-clockwise: the straight turn has cross
      product 0, which is not positive like the others. */
  lemma CounterClockwiseCollinearRejected(ccw: seq<Vector>)
    requires |ccw| == 5
    requires ccw[0] == Vector(0.0, 0.0) && ccw[1] == Vector(1.0, 0.0) && ccw[2] == Vector(2.0, 0.0)
    requires ccw[3] == Vector(2.0, 2.0) && ccw[4] == Vector(0.0, 2.0)
    ensures !Convexity.IsConvex(ccw)
  {
    assert !Convexity.TurnsMatchFrom(ccw, 1, Vector(1.0, 0.0), true);
  }

  /** The same rectangle listed clockwise is accepted: there every turn,
      the straight one included, is not positive. */
  lemma ClockwiseCollinearAccepted(cw: seq<Vector>)
    requires |cw| == 5
    requires cw[0] == Vector(0.0, 0.0) && cw[1] == Vector(0.0, 2.0) && cw[2] == Vector(2.0, 2.0)
    requires cw[3] == Vector(2.0, 0.0) && cw[4] == Vector(1.0, 0.0)
    ensures Convexity.IsConvex(cw)
  {
    assert Convexity.TurnsMatchFrom(cw, 4, Vector(-1.0, 0.0), false);
    assert Convexity.TurnsMatchFrom(cw, 3, Vector(0.0, -2.0), false);
    assert Convexity.TurnsMatchFrom(cw, 2, Vector(2.0, 0.0), false);
    assert Convexity.TurnsMatchFrom(cw, 1, Vector(0.0, 2.0), false);
    assert Convexity.TurnsMatchFrom(cw, 0, Vector(-1.0, 0.0), false);
  }

  /** The two-vertex "diamond" collider of the interactive test is accepted,
      its bounding box spans its two points and its center is their middle. */
  lemma SegmentColliderAccepted(vs: seq<Vector>)
    requires |vs| == 2 && vs[0] == Vector(10.0, 10.0) && vs[1] == Vector(50.0, 50.0)
    ensures NewCollider(vs).Ok?
    ensures NewCollider(vs).value.boundSmall == Vector(10.0, 10.0)
    ensures NewCollider(vs).value.boundBig == Vector(50.0, 50.0)
    ensures NewCollider(vs).value.center == Vector(30.0, 30.0)
  {
    Convexity.IsConvexIff(vs);
    var b := Collision.Box(Vector(10.0, 10.0), Vector(50.0, 50.0));
    assert Collision.ScanBounds(vs, 2, b) == b;
    assert Collision.BoundingBox(vs) == b;
  }
}
