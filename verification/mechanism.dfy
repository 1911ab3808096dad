/** Package mechanism's collider (mechanism/collider.go): the shared
    collider over r2 vectors with its own `Position` and `Velocity`, the
    `Blur` stub and `WillCollide`. */
module Mechanism {

  import opened R2
  import opened Outcomes
  import Convexity
  import Collision

  const NotConvexMessage: string := "Collider vertices were not convex."

  function NewCollider(vs: seq<Vector>): (r: Result<Collision.Collider, Collision.NotConvex>)
    requires |vs| >= 1
    ensures r.Err? <==> !Convexity.IsConvex(vs)
    ensures r.Err? ==> r.error.message == "Collider vertices were not convex." && r.error.vertices == vs
    ensures r.Ok? ==> Collision.Constructed(r.value) && r.value.vertices == vs
    ensures r.Ok? ==> r.value.boundSmall.x <= r.value.boundBig.x && r.value.boundSmall.y <= r.value.boundBig.y
    ensures r.Ok? ==> r.value.position == Zero && r.value.velocity == Zero
  {
    Collision.NewCollider(vs, NotConvexMessage)
  }

  /** The `Blur` stub returns the zero collider, whatever it is given. */
  function Blur(c: Collision.Collider, time: real): (r: Collision.Collider)
    ensures r.vertices == [] && r.center == Zero && r.boundSmall == Zero && r.boundBig == Zero
    ensures r.position == Zero && r.velocity == Zero
    ensures !Collision.Constructed(r)
  {
    Collision.Collider([], Zero, Zero, Zero, Zero, Zero)
  }

  /** A verdict, or the run-time panic of `i % 0` when `GetVertexPos` is
      called on a collider without vertices. */
  datatype Outcome = Answer(collides: bool) | Panic

  /** `Collides`, with r2's clockwise `Orthogonal` as the edge axis.  A
      collider without vertices (the one `Blur` returns) is accepted: the box
      test runs first; `satCollides` of an empty collider has no edge to try
      and succeeds; otherwise the edge loop of the non-empty one projects
      vertex 0 of the empty one, which panics. */
  function Collides(c: Collision.Collider, o: Collision.Collider): (r: Outcome)
    ensures !Collision.BBoxCollides(c, o) ==> r == Answer(false)
    ensures r == Panic <==> Collision.BBoxCollides(c, o) && (|c.vertices| == 0) != (|o.vertices| == 0)
    ensures |c.vertices| == 0 && |o.vertices| == 0 ==> r == Answer(Collision.BBoxCollides(c, o))
    ensures |c.vertices| >= 1 && |o.vertices| >= 1 ==>
      && r.Answer?
      && (r.collides <==> && Collision.BBoxCollides(c, o)
                          && Collision.NoEdgeSplits(c, o, Collision.Clockwise)
                          && Collision.NoEdgeSplits(o, c, Collision.Clockwise))
  {
    if !Collision.BBoxCollides(c, o) then Answer(false)
    else if |c.vertices| == 0 && |o.vertices| == 0 then Answer(true)
    else if |c.vertices| == 0 || |o.vertices| == 0 then Panic
    else Answer(Collision.Collides(c, o, Collision.Clockwise))
  }

  /** A blurred collider is a single point at the origin: it misses every
      collider whose world box leaves out the origin, meets another empty
      one that covers it, and panics against any other. */
  lemma BlurredCollides(c: Collision.Collider, time: real, o: Collision.Collider)
    ensures Collides(Blur(c, time), o) ==
      if !Collision.InBox(Collision.WorldBox(o), Zero) then Answer(false)
      else if |o.vertices| == 0 then Answer(true)
      else Panic
  {
  }

  /** `WillCollide` adds each velocity to a copy of each position and then
      drops the sums, so it tests the colliders where they are now: the
      outcome is that of the same colliders at rest. */
  function WillCollide(c: Collision.Collider, o: Collision.Collider, timeSteps: int): (r: Outcome)
    ensures r == Collides(c.(velocity := Zero), o.(velocity := Zero))
    ensures !Collision.BBoxCollides(c, o) ==> r == Answer(false)
  {
    AtRest(c, o);
    Collides(c, o)
  }

  lemma AtRest(c: Collision.Collider, o: Collision.Collider)
    ensures Collides(c.(velocity := Zero), o.(velocity := Zero)) == Collides(c, o)
  {
    if |c.vertices| >= 1 && |o.vertices| >= 1 {
      Collision.CollidesSamePlacement(c, c.(velocity := Zero), o, o.(velocity := Zero), Collision.Clockwise);
    }
  }

  /** Neither the velocities nor the number of time steps affect `WillCollide`. */
  lemma WillCollideIgnoresMotion(c: Collision.Collider, o: Collision.Collider, v: Vector, w: Vector, t1: int, t2: int)
    ensures WillCollide(c.(velocity := v), o.(velocity := w), t1) == WillCollide(c, o, t2)
  {
    assert c.(velocity := v).(velocity := Zero) == c.(velocity := Zero);
    assert o.(velocity := w).(velocity := Zero) == o.(velocity := Zero);
  }

  /** The outcome, panic included, does not depend on the order of the colliders. */
  lemma CollidesSymmetric(c: Collision.Collider, o: Collision.Collider)
    ensures Collides(c, o) == Collides(o, c)
  {
    Collision.BBoxCollidesSymmetric(c, o);
    if |c.vertices| >= 1 && |o.vertices| >= 1 {
      Collision.CollidesSymmetric(c, o, Collision.Clockwise);
    }
  }
}
