/** Package mech's polygon collider (mech/collider.go): the shared collider
    over golang/geo points, whose position comes from the embedded `Body`,
    with golang/geo's counter-clockwise `Ortho` as the edge axis and
    `Collides`/`WillCollide` dispatching on the dynamic type of the other
    collider. */
module Mech {

  import opened R2
  import opened Outcomes
  import Convexity
  import Collision

  const NotConvexMessage: string := "PolyCollider vertices were not convex."

  /** The dynamic type behind a `Collider` interface value.  A
      `PolyCollider` value has the interface's method; so does a pointer to
      one, which is what `NewPolyCollider` returns. */
  datatype Dynamic = PolyValue(poly: Collision.Collider) | PolyPointer(target: Collision.Collider)

  /** A verdict, or the message `log.Fatal` exits with. */
  datatype Verdict = Answer(collides: bool) | Fatal(message: string)

  function NewPolyCollider(vs: seq<Vector>): (r: Result<Collision.Collider, Collision.NotConvex>)
    requires |vs| >= 1
    ensures r.Err? <==> !Convexity.IsConvex(vs)
    ensures r.Err? ==> r.error.message == "PolyCollider vertices were not convex." && r.error.vertices == vs
    ensures r.Ok? ==> Collision.Constructed(r.value) && r.value.vertices == vs
    ensures r.Ok? ==> r.value.position == Zero && r.value.velocity == Zero
  {
    Collision.NewCollider(vs, NotConvexMessage)
  }

  /** Every collider a dispatch can reach has at least one vertex. */
  predicate Usable(other: Dynamic)
  {
    match other
    case PolyValue(p) => |p.vertices| >= 1
    case PolyPointer(_) => true
  }

  /** `Collides`: a `PolyCollider` value gets the box test and the
      separating-axis test both ways; any other dynamic type is fatal.  The
      failed type assertion inside the matching case cannot happen and is
      left out. */
  function Collides(poly: Collision.Collider, other: Dynamic): (r: Verdict)
    requires |poly.vertices| >= 1 && Usable(other)
    ensures r.Fatal? <==> !other.PolyValue?
    ensures r.Fatal? ==> r.message == "fixme"
    ensures other.PolyValue? ==>
      (r.collides <==> && Collision.BBoxCollides(poly, other.poly)
                       && Collision.NoEdgeSplits(poly, other.poly, Collision.CounterClockwise)
                       && Collision.NoEdgeSplits(other.poly, poly, Collision.CounterClockwise))
  {
    match other
    case PolyValue(o) => Answer(Collision.Collides(poly, o, Collision.CounterClockwise))
    case PolyPointer(_) => Fatal("fixme")
  }

  /** `WillCollide`: the velocity sums are dropped, so a `PolyCollider`
      value gets the verdict of `Collides` at the current positions; any
      other dynamic type is fatal. */
  function WillCollide(poly: Collision.Collider, other: Dynamic, timeSteps: int): (r: Verdict)
    requires |poly.vertices| >= 1 && Usable(other)
    ensures r.Fatal? <==> !other.PolyValue?
    ensures r.Fatal? ==> r.message == "fixme"
    ensures other.PolyValue? ==> r == Collides(poly, other)
  {
    match other
    case PolyValue(o) =>
      Collides(poly, PolyValue(o))
    case PolyPointer(_) => Fatal("fixme")
  }

  /** What `NewPolyCollider` returns cannot be passed on: as a pointer it
      reaches the fatal branch of both dispatches. */
  lemma ConstructedPointerIsFatal(poly: Collision.Collider, vs: seq<Vector>, timeSteps: int)
    requires |poly.vertices| >= 1 && |vs| >= 1 && NewPolyCollider(vs).Ok?
    ensures Collides(poly, PolyPointer(NewPolyCollider(vs).value)) == Fatal("fixme")
    ensures WillCollide(poly, PolyPointer(NewPolyCollider(vs).value), timeSteps) == Fatal("fixme")
  {
  }

  /** On two `PolyCollider` values the verdict agrees with package
      mechanism's, even though the axes point the other way. */
  lemma {:induction false} CollidesAgreesWithClockwise(poly: Collision.Collider, o: Collision.Collider)
    requires |poly.vertices| >= 1 && |o.vertices| >= 1
    ensures Collides(poly, PolyValue(o)) == Answer(Collision.Collides(poly, o, Collision.Clockwise))
  {
    Collision.CollidesRuleIndependent(poly, o);
  }

  lemma {:induction false} CollidesSymmetric(poly: Collision.Collider, o: Collision.Collider)
    requires |poly.vertices| >= 1 && |o.vertices| >= 1
    ensures Collides(poly, PolyValue(o)) == Collides(o, PolyValue(poly))
  {
    Collision.CollidesSymmetric(poly, o, Collision.CounterClockwise);
  }
}
