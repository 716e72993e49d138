/** The nearest-vertex index the snap operator builds over the target mesh.
    Only the result of a nearest query is modelled, not the tree: a query
    answers with a vertex of minimal distance to the query point, or with
    nothing when the index holds no vertex at all. */
module KdIndex {
  import opened Geometry

  /** One answer of a nearest query: the vertex position, its insertion index
      and its squared distance to the query point. */
  datatype Hit = Hit(co: Vec3, index: nat, dist2: real)

  /** `i` is the index of a vertex no other vertex is strictly closer to `q` than. */
  ghost predicate IsNearest(pts: seq<Vec3>, q: Vec3, i: int) {
    0 <= i < |pts| && forall j :: 0 <= j < |pts| ==> Dist2(pts[i], q) <= Dist2(pts[j], q)
  }

  /** The lowest index of a nearest vertex: every earlier vertex is strictly
      farther, no vertex is strictly closer. */
  function NearestIndex(pts: seq<Vec3>, q: Vec3): (i: nat)
    requires |pts| > 0
    ensures IsNearest(pts, q, i)
    ensures forall j :: 0 <= j < i ==> Dist2(pts[i], q) < Dist2(pts[j], q)
  {
    if |pts| == 1 then 0
    else
      var last := |pts| - 1;
      var i := NearestIndex(pts[..last], q);
      if Dist2(pts[last], q) < Dist2(pts[i], q) then last else i
  }

  /** The query of the index: nothing on an empty index, otherwise the first
      nearest vertex with its index and squared distance. */
  function Find(pts: seq<Vec3>, q: Vec3): (r: Option<Hit>)
    ensures r.None? <==> |pts| == 0
    ensures r.Some? ==> IsNearest(pts, q, r.value.index)
                        && r.value.co == pts[r.value.index]
                        && r.value.dist2 == Dist2(r.value.co, q)
  {
    if |pts| == 0 then None
    else
      var i := NearestIndex(pts, q);
      Some(Hit(pts[i], i, Dist2(pts[i], q)))
  }

  /** A loop over every vertex in insertion order, keeping the first
      strictly closer vertex. `Find` is the same scan written as a recursion
      over prefixes, so this proves the loop and the recursion agree, tie-break
      included; `IsNearest` is the independent statement both satisfy. */
  method FindLinear(pts: seq<Vec3>, q: Vec3) returns (r: Option<Hit>)
    ensures r == Find(pts, q)
  {
    if |pts| == 0 {
      return None;
    }
    var best := 0;
    var k := 1;
    while k < |pts|
      invariant 1 <= k <= |pts|
      invariant best == NearestIndex(pts[..k], q)
    {
      assert pts[..k + 1][..k] == pts[..k];
      if Dist2(pts[k], q) < Dist2(pts[best], q) {
        best := k;
      }
      k := k + 1;
    }
    assert pts[..k] == pts;
    r := Some(Hit(pts[best], best, Dist2(pts[best], q)));
  }

  /** A query point that is itself a vertex of the index is answered with a
      vertex at that very position, at distance zero. */
  lemma FindExactVertex(pts: seq<Vec3>, q: Vec3)
    requires q in pts
    ensures Find(pts, q).Some? && Find(pts, q).value.co == q && Find(pts, q).value.dist2 == 0.0
  {
    var k :| 0 <= k < |pts| && pts[k] == q;
    var i := NearestIndex(pts, q);
    assert Dist2(pts[i], q) <= Dist2(q, q);
    NoCloserThanItself(pts[i], q);
  }

  /** A point at least as close to `q` as `q` itself is `q`. */
  lemma NoCloserThanItself(best: Vec3, q: Vec3)
    requires Dist2(best, q) <= Dist2(q, q)
    ensures best == q
  {
    assert Dist2(q, q) == 0.0;
    Dist2ZeroIffEqual(best, q);
  }
}
