/** The convexity test `isConvex`, shared verbatim by collider.go,
    mechanism/collider.go and mech/collider.go. */
module Convexity {

  import opened R2

  /** The k-th edge of the closed polygon, from vertex k to vertex k+1
      (the last edge closes the loop back to vertex 0). */
  function Edge(vs: seq<Vector>, k: nat): Vector
    requires k < |vs|
  {
    Sub(vs[(k + 1) % |vs|], vs[k])
  }

  /** The turn at vertex k: the cross product of the edge arriving at vertex k
      with the edge leaving it. */
  function Turn(vs: seq<Vector>, k: nat): real
    requires k < |vs|
  {
    Cross(Edge(vs, (k + |vs| - 1) % |vs|), Edge(vs, k))
  }

  predicate AllTurnsPositive(vs: seq<Vector>)
  {
    forall k: nat :: k < |vs| ==> Turn(vs, k) > 0.0
  }

  predicate AllTurnsNonPositive(vs: seq<Vector>)
  {
    forall k: nat :: k < |vs| ==> Turn(vs, k) <= 0.0
  }

  /** `isConvex`.  Up to three vertices always pass.  Otherwise the baseline
      is whether the turn from the second-to-last edge to the closing edge is
      strictly positive, and the scan walks the remaining cyclic edge pairs,
      failing at the first pair whose "strictly positive" verdict differs. */
  function IsConvex(vs: seq<Vector>): bool
  {
    if |vs| <= 3 then true
    else
      var n := |vs|;
      var closing := Sub(vs[0], vs[n - 1]);
      var positive := Cross(Sub(vs[n - 1], vs[n - 2]), closing) > 0.0;
      TurnsMatchFrom(vs, 0, closing, positive)
  }

  /** The loop of `isConvex` from index `i` on; `prev` is the edge the
      previous iteration computed. */
  function TurnsMatchFrom(vs: seq<Vector>, i: nat, prev: Vector, positive: bool): bool
    requires 4 <= |vs| && i <= |vs| - 1
    decreases |vs| - i
  {
    if i == |vs| - 1 then true
    else
      var next := Sub(vs[i + 1], vs[i]);
      if (Cross(prev, next) > 0.0) != positive then false
      else TurnsMatchFrom(vs, i + 1, next, positive)
  }

  lemma ModSmall(a: nat, n: nat)
    requires a < n
    ensures a % n == a && (a + n) % n == a
  {
  }

  /** The edge leaving vertex k, away from the wrap-around. */
  lemma EdgeInterior(vs: seq<Vector>, k: nat)
    requires k + 1 < |vs|
    ensures Edge(vs, k) == Sub(vs[k + 1], vs[k])
  {
    ModSmall(k + 1, |vs|);
  }

  /** The turn at a vertex other than vertex 0 uses the edge before it. */
  lemma TurnInterior(vs: seq<Vector>, k: nat)
    requires 1 <= k < |vs|
    ensures Turn(vs, k) == Cross(Edge(vs, k - 1), Edge(vs, k))
  {
    ModSmall(k - 1, |vs|);
    assert k + |vs| - 1 == (k - 1) + |vs|;
  }

  lemma TurnFirst(vs: seq<Vector>)
    requires 1 <= |vs|
    ensures Turn(vs, 0) == Cross(Edge(vs, |vs| - 1), Edge(vs, 0))
  {
    ModSmall(|vs| - 1, |vs|);
  }

  lemma {:induction false} TurnsMatchFromIff(vs: seq<Vector>, i: nat, prev: Vector, positive: bool)
    requires 4 <= |vs| && i <= |vs| - 1
    requires prev == Edge(vs, if i == 0 then |vs| - 1 else i - 1)
    ensures TurnsMatchFrom(vs, i, prev, positive)
            <==> forall k: nat :: i <= k < |vs| - 1 ==> (Turn(vs, k) > 0.0) == positive
    decreases |vs| - i
  {
    if i < |vs| - 1 {
      EdgeInterior(vs, i);
      if i == 0 {
        TurnFirst(vs);
      } else {
        TurnInterior(vs, i);
      }
      TurnsMatchFromIff(vs, i + 1, Edge(vs, i), positive);
    }
  }

  /** What `isConvex` decides: at most three vertices, or every cyclic turn
      strictly positive, or every cyclic turn non-positive.  A zero turn
      (collinear neighbouring edges) therefore passes a clockwise polygon and
      fails a counter-clockwise one. */
  lemma IsConvexIff(vs: seq<Vector>)
    ensures IsConvex(vs) <==> |vs| <= 3 || AllTurnsPositive(vs) || AllTurnsNonPositive(vs)
  {
    var n := |vs|;
    if n >= 4 {
      ModSmall(0, n);
      ModSmall(n - 1, n);
      assert (n - 1 + 1) % n == 0;
      EdgeInterior(vs, n - 2);
      TurnInterior(vs, n - 1);
      var positive := Turn(vs, n - 1) > 0.0;
      TurnsMatchFromIff(vs, 0, Edge(vs, n - 1), positive);
      if IsConvex(vs) {
        assert forall k: nat :: k < n ==> (Turn(vs, k) > 0.0) == positive;
      }
    }
  }
}
