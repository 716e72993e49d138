/** The "Snap Curve to Mesh" operator: every Bezier control point of a curve
    moves onto the nearest vertex of an offset copy of a target mesh, and both
    of its handles are rescaled about the point's new position.

    All positions live in one frame: the operator applies every object
    transform first, so for objects without a parent both world matrices
    are the identity when the snap runs. */
module RopeAttacher {
  import opened Geometry
  import KdIndex

  /** A Bezier control point: its position and its two handle positions. */
  datatype BezierPoint = BezierPoint(co: Vec3, handleLeft: Vec3, handleRight: Vec3)

  /** One spline of a curve. A Bezier spline keeps its control points in
      `bezierPoints`; poly and NURBS splines keep theirs in `points`, which the
      snap never reads nor writes. */
  datatype Spline = Spline(bezierPoints: seq<BezierPoint>, points: seq<Vec3>)

  datatype Curve = Curve(splines: seq<Spline>)

  /** Why the operator fails. The nearest-vertex query on an index with no
      vertex answers with nothing, and the operator fails at its first Bezier
      point; before that, an unset mesh or curve object fails at its first
      use. */
  datatype SnapError = NoTargetVertices | NoMeshObject | NoCurveObject

  datatype Result<T> = Ok(value: T) | Err(error: SnapError)

  /** Default of the operator's scale property. */
  const DefaultScale: real := 1.0

  /** A handle rescaled about `anchor`: scale 1 leaves it in place;
      `RescaleDistance` gives the general case and `HandleScaleExtremes`
      scale 0. */
  function RescaleHandle(anchor: Vec3, h: Vec3, scale: real): (r: Vec3)
    ensures scale == 1.0 ==> r == h
  {
    Add(anchor, Scale(scale, Sub(h, anchor)))
  }

  /** Snaps one control point. The anchor is replaced before the handles are
      computed, so each handle is rescaled about the NEW anchor: its offset
      from the new anchor becomes `scale` times its old offset from the new
      anchor. */
  function SnapPoint(targets: seq<Vec3>, scale: real, p: BezierPoint): (r: BezierPoint)
    requires |targets| > 0
    ensures r.co in targets
    ensures forall v :: v in targets ==> Dist2(r.co, p.co) <= Dist2(v, p.co)
    ensures Sub(r.handleLeft, r.co) == Scale(scale, Sub(p.handleLeft, r.co))
    ensures Sub(r.handleRight, r.co) == Scale(scale, Sub(p.handleRight, r.co))
  {
    var hit := KdIndex.Find(targets, p.co).value;
    BezierPoint(hit.co, RescaleHandle(hit.co, p.handleLeft, scale), RescaleHandle(hit.co, p.handleRight, scale))
  }

  /** Snaps the control points of one spline, one by one and in order. */
  function SnapPoints(targets: seq<Vec3>, scale: real, ps: seq<BezierPoint>): (r: seq<BezierPoint>)
    requires |targets| > 0
    ensures |r| == |ps|
    ensures forall j :: 0 <= j < |ps| ==> r[j] == SnapPoint(targets, scale, ps[j])
  {
    if |ps| == 0 then []
    else [SnapPoint(targets, scale, ps[0])] + SnapPoints(targets, scale, ps[1..])
  }

  function SnapSpline(targets: seq<Vec3>, scale: real, s: Spline): (r: Spline)
    requires |targets| > 0
    ensures r.points == s.points
    ensures |r.bezierPoints| == |s.bezierPoints|
    ensures forall j :: 0 <= j < |s.bezierPoints| ==> r.bezierPoints[j] == SnapPoint(targets, scale, s.bezierPoints[j])
  {
    s.(bezierPoints := SnapPoints(targets, scale, s.bezierPoints))
  }

  /** Snaps every spline, in order. */
  function SnapSplines(targets: seq<Vec3>, scale: real, ss: seq<Spline>): (r: seq<Spline>)
    requires |targets| > 0
    ensures |r| == |ss|
    ensures forall i :: 0 <= i < |ss| ==> r[i] == SnapSpline(targets, scale, ss[i])
  {
    if |ss| == 0 then []
    else [SnapSpline(targets, scale, ss[0])] + SnapSplines(targets, scale, ss[1..])
  }

  predicate HasBezierPoint(c: Curve) {
    exists i :: 0 <= i < |c.splines| && |c.splines[i].bezierPoints| > 0
  }

  /** The snap over a whole curve. It fails exactly when some Bezier point
      needs a nearest vertex and the target has none; otherwise the curve
      keeps its shape (same splines, same point counts, same order, plain
      points untouched) and every Bezier point is snapped. */
  function SnapCurve(targets: seq<Vec3>, scale: real, c: Curve): (r: Result<Curve>)
    ensures r.Err? <==> |targets| == 0 && HasBezierPoint(c)
    ensures r.Err? ==> r.error == NoTargetVertices
    ensures r.Ok? ==> |r.value.splines| == |c.splines|
    ensures r.Ok? ==> forall i :: 0 <= i < |c.splines| ==>
                        r.value.splines[i].points == c.splines[i].points
                        && |r.value.splines[i].bezierPoints| == |c.splines[i].bezierPoints|
    ensures r.Ok? && |targets| > 0 ==>
              forall i, j :: 0 <= i < |c.splines| && 0 <= j < |c.splines[i].bezierPoints| ==>
                r.value.splines[i].bezierPoints[j] == SnapPoint(targets, scale, c.splines[i].bezierPoints[j])
    ensures r.Ok? && |targets| == 0 ==> r.value == c
  {
    if |targets| == 0 then
      if HasBezierPoint(c) then Err(NoTargetVertices) else Ok(c)
    else
      Ok(Curve(SnapSplines(targets, scale, c.splines)))
  }

  /** Every Bezier point of a curve lies on a vertex of the target. */
  ghost predicate OnTarget(targets: seq<Vec3>, c: Curve) {
    forall i, j :: 0 <= i < |c.splines| && 0 <= j < |c.splines[i].bezierPoints| ==>
      c.splines[i].bezierPoints[j].co in targets
  }

  /** After a successful snap every Bezier point sits on a target vertex, and
      no target vertex is strictly closer to where the point was. */
  lemma SnapLandsOnNearestVertex(targets: seq<Vec3>, scale: real, c: Curve)
    requires SnapCurve(targets, scale, c).Ok?
    ensures OnTarget(targets, SnapCurve(targets, scale, c).value)
    ensures forall i, j, v :: 0 <= i < |c.splines| && 0 <= j < |c.splines[i].bezierPoints| && v in targets ==>
              Dist2(SnapCurve(targets, scale, c).value.splines[i].bezierPoints[j].co, c.splines[i].bezierPoints[j].co)
              <= Dist2(v, c.splines[i].bezierPoints[j].co)
  {
  }

  /** With scale 1 a handle keeps its absolute position; with scale 0 it
      collapses onto the new anchor. */
  lemma HandleScaleExtremes(targets: seq<Vec3>, p: BezierPoint)
    requires |targets| > 0
    ensures SnapPoint(targets, DefaultScale, p).handleLeft == p.handleLeft
    ensures SnapPoint(targets, DefaultScale, p).handleRight == p.handleRight
    ensures SnapPoint(targets, 0.0, p).handleLeft == SnapPoint(targets, 0.0, p).co
    ensures SnapPoint(targets, 0.0, p).handleRight == SnapPoint(targets, 0.0, p).co
  {
  }

  /** A control point already on a target vertex does not move. */
  lemma SnapFixesVertex(targets: seq<Vec3>, scale: real, p: BezierPoint)
    requires p.co in targets
    ensures SnapPoint(targets, scale, p).co == p.co
  {
    KdIndex.FindExactVertex(targets, p.co);
  }

  /** Snapping with scale 1 a curve whose Bezier points all lie on target
      vertices gives the curve back unchanged. */
  lemma SnapIdempotentOnTarget(targets: seq<Vec3>, c: Curve)
    requires OnTarget(targets, c)
    ensures SnapCurve(targets, 1.0, c) == Ok(c)
  {
    if HasBezierPoint(c) {
      var i :| 0 <= i < |c.splines| && |c.splines[i].bezierPoints| > 0;
      assert c.splines[i].bezierPoints[0].co in targets;
    }
    if |targets| > 0 {
      var r := SnapCurve(targets, 1.0, c).value;
      forall i | 0 <= i < |c.splines|
        ensures r.splines[i] == c.splines[i]
      {
        var s := c.splines[i];
        forall j | 0 <= j < |s.bezierPoints|
          ensures r.splines[i].bezierPoints[j] == s.bezierPoints[j]
        {
          SnapFixesVertex(targets, 1.0, s.bezierPoints[j]);
          HandleScaleExtremes(targets, s.bezierPoints[j]);
        }
        assert r.splines[i].bezierPoints == s.bezierPoints;
      }
      assert r.splines == c.splines;
    }
  }

  /** Snapping twice is snapping once with the product of the two scales:
      the second snap leaves every anchor where it is and scales each handle
      offset again. */
  lemma SnapTwice(targets: seq<Vec3>, s1: real, s2: real, c: Curve)
    requires SnapCurve(targets, s1, c).Ok?
    ensures SnapCurve(targets, s2, SnapCurve(targets, s1, c).value) == SnapCurve(targets, s1 * s2, c)
  {
    var once := SnapCurve(targets, s1, c).value;
    if |targets| == 0 {
      assert once == c;
    } else {
      SnapLandsOnNearestVertex(targets, s1, c);
      var twice := SnapCurve(targets, s2, once).value;
      var direct := SnapCurve(targets, s1 * s2, c).value;
      forall i | 0 <= i < |c.splines|
        ensures twice.splines[i] == direct.splines[i]
      {
        forall j | 0 <= j < |c.splines[i].bezierPoints|
          ensures twice.splines[i].bezierPoints[j] == direct.splines[i].bezierPoints[j]
        {
          SnapPointTwice(targets, s1, s2, c.splines[i].bezierPoints[j]);
        }
        assert twice.splines[i].bezierPoints == direct.splines[i].bezierPoints;
      }
      assert twice.splines == direct.splines;
    }
  }

  lemma SnapPointTwice(targets: seq<Vec3>, s1: real, s2: real, p: BezierPoint)
    requires |targets| > 0
    ensures SnapPoint(targets, s2, SnapPoint(targets, s1, p)) == SnapPoint(targets, s1 * s2, p)
  {
    var once := SnapPoint(targets, s1, p);
    SnapFixesVertex(targets, s2, once);
    var co := once.co;
    assert SnapPoint(targets, s1 * s2, p).co == co;
    RescaleTwice(co, p.handleLeft, s1, s2);
    RescaleTwice(co, p.handleRight, s1, s2);
  }

  /** Rescaling a handle by `s` multiplies its squared distance to the
      anchor by `s * s`. */
  lemma RescaleDistance(anchor: Vec3, h: Vec3, s: real)
    ensures Dist2(RescaleHandle(anchor, h, s), anchor) == s * s * Dist2(h, anchor)
  {
  }

  lemma RescaleTwice(anchor: Vec3, h: Vec3, s1: real, s2: real)
    ensures RescaleHandle(anchor, RescaleHandle(anchor, h, s1), s2) == RescaleHandle(anchor, h, s1 * s2)
  {
  }

  /** The scene state the operator reads: the curve to snap, the mesh to
      snap it to, and the two scalar properties. Either object may be unset
      until the user picks one. */
  datatype Scene = Scene(curve: Option<Curve>, mesh: Option<seq<Vec3>>, offset: real, scale: real)

  /** The operator as a whole. It first copies the mesh, so an unset mesh
      fails before anything else; an unset curve fails next, when it is
      selected. The target vertices are those of the private copy pushed
      out by `offset` along its normals; that push is the host's
      extrude-and-shrink/fatten operation, passed in here as `offsetSurface`.
      The caller's mesh, offset and scale come back untouched; only the
      curve changes. */
  function Execute(scene: Scene, offsetSurface: (seq<Vec3>, real) -> seq<Vec3>): (r: Result<Scene>)
    ensures scene.mesh.None? ==> r == Err(NoMeshObject)
    ensures scene.mesh.Some? && scene.curve.None? ==> r == Err(NoCurveObject)
    ensures scene.mesh.Some? && scene.curve.Some? ==>
              (r.Err? <==> |offsetSurface(scene.mesh.value, scene.offset)| == 0 && HasBezierPoint(scene.curve.value))
    ensures r.Ok? ==> r.value.mesh == scene.mesh && r.value.offset == scene.offset && r.value.scale == scene.scale
    ensures r.Ok? ==> scene.mesh.Some? && scene.curve.Some? && r.value.curve.Some?
                      && SnapCurve(offsetSurface(scene.mesh.value, scene.offset), scene.scale, scene.curve.value)
                         == Ok(r.value.curve.value)
  {
    match (scene.mesh, scene.curve)
    case (None, _) => Err(NoMeshObject)
    case (Some(_), None) => Err(NoCurveObject)
    case (Some(mesh), Some(curve)) =>
      var targets := offsetSurface(mesh, scene.offset);
      match SnapCurve(targets, scene.scale, curve)
      case Ok(c) => Ok(scene.(curve := Some(c)))
      case Err(e) => Err(e)
  }

  /** Running the operator again on its own result, with the scene's scale
      unchanged, snaps each point onto the vertex it already sits on and
      rescales the handles once more: the curve is the one a single run with
      the scale squared produces. */
  lemma ExecuteTwice(scene: Scene, offsetSurface: (seq<Vec3>, real) -> seq<Vec3>)
    requires Execute(scene, offsetSurface).Ok?
    ensures Execute(Execute(scene, offsetSurface).value, offsetSurface).Ok?
    ensures Execute(Execute(scene, offsetSurface).value, offsetSurface).value.curve
            == Execute(scene.(scale := scene.scale * scene.scale), offsetSurface).value.curve
  {
    var s := scene.scale;
    var targets := offsetSurface(scene.mesh.value, scene.offset);
    var once := Execute(scene, offsetSurface).value;
    var c1 := once.curve.value;
    assert SnapCurve(targets, s, scene.curve.value) == Ok(c1);
    SnapTwice(targets, s, s, scene.curve.value);
    var direct := SnapCurve(targets, s * s, scene.curve.value);
    assert direct.Ok?;
    var squared := scene.(scale := s * s);
    assert Execute(once, offsetSurface).value.curve == Some(direct.value);
    assert Execute(squared, offsetSurface).value.curve == Some(direct.value);
    assert squared == scene.(scale := scene.scale * scene.scale);
  }
}
