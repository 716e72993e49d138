/** The blend-shape export script: for every MoCapX pose it turns the pose
    on, duplicates the head mesh under a name derived from the pose, places
    the duplicate on a grid of ten heads per row, and turns the pose off
    again. The host's scene commands are recorded as a trace of events. */
module BlendShapeLayout {
  import opened Geometry

  /** Where the first duplicate goes, and the gaps between neighbours. */
  const Origin: Vec3 := Vec3(200.0, 0.0, 0.0)
  const SpacingH: real := 5.0
  const SpacingV: real := 10.0
  const HeadsPerRow: nat := 10

  /** A world-space bounding box in the host's order:
      x-min, y-min, z-min, x-max, y-max, z-max. */
  datatype BoundingBox = BoundingBox(xMin: real, yMin: real, zMin: real, xMax: real, yMax: real, zMax: real)

  /** The head's extent along each axis. The depth is computed but never
      used by the layout. */
  datatype HeadSize = HeadSize(sizeX: real, sizeY: real, sizeZ: real)

  /** The head's extents; a box whose minimum does not exceed its maximum
      has a non-negative extent on that axis. */
  function SizeOf(b: BoundingBox): (s: HeadSize)
    ensures b.xMin <= b.xMax ==> s.sizeX >= 0.0
    ensures b.yMin <= b.yMax ==> s.sizeY >= 0.0
    ensures b.zMin <= b.zMax ==> s.sizeZ >= 0.0
  {
    HeadSize(b.xMax - b.xMin, b.yMax - b.yMin, b.zMax - b.zMin)
  }

  /** The scene commands the script issues. */
  datatype Event =
    | SetWeight(pose: string, weight: real)
    | Duplicate(source: string, name: string)
    | Translate(node: string, pos: Vec3)

  function DuplicateName(head: string, pose: string): string {
    head + "_" + pose
  }

  /** The grid slot of the k-th duplicate (counting from 0), in closed form:
      column k mod 10 to the right of the origin, row k div 10 above it. */
  function HeadPosition(k: nat, size: HeadSize): Vec3 {
    Vec3(Origin.x + (k % HeadsPerRow) as real * (size.sizeX + SpacingH),
         0.0,
         (k / HeadsPerRow) as real * (size.sizeZ + SpacingV))
  }

  /** The script's placement state: where the next duplicate goes and how
      many have been placed. */
  datatype Cursor = Cursor(pos: Vec3, count: nat)

  function StepH(size: HeadSize): Vec3 {
    Vec3(size.sizeX + SpacingH, 0.0, 0.0)
  }

  function StepV(size: HeadSize): Vec3 {
    Vec3(0.0, 0.0, size.sizeZ + SpacingV)
  }

  /** One placement step as the script performs it: move right by one head
      and a gap; after every tenth head go back to the origin's x and y but
      raise the CURRENT z by one head and a gap, so rows stack up. */
  function Advance(c: Cursor, size: HeadSize): Cursor {
    var moved := Add(c.pos, StepH(size));
    var count := c.count + 1;
    if count % HeadsPerRow == 0 then
      Cursor(Vec3(Origin.x + StepV(size).x, Origin.y + StepV(size).y, moved.z + StepV(size).z), count)
    else
      Cursor(moved, count)
  }

  /** The state after `k` placements. */
  function CursorAfter(k: nat, size: HeadSize): Cursor {
    if k == 0 then Cursor(Origin, 0) else Advance(CursorAfter(k - 1, size), size)
  }

  /** One step of the script moves the cursor from the k-th grid slot to the
      (k+1)-th. */
  lemma AdvanceToNextSlot(k: nat, size: HeadSize)
    ensures Advance(Cursor(HeadPosition(k, size), k), size) == Cursor(HeadPosition(k + 1, size), k + 1)
  {
    var w := size.sizeX + SpacingH;
    var h := size.sizeZ + SpacingV;
    var col, row := k % HeadsPerRow, k / HeadsPerRow;
    if (k + 1) % HeadsPerRow == 0 {
      assert col == 9 && (k + 1) / HeadsPerRow == row + 1;
      assert (row + 1) as real * h == row as real * h + h;
    } else {
      assert (k + 1) % HeadsPerRow == col + 1 && (k + 1) / HeadsPerRow == row;
      assert (col + 1) as real * w == col as real * w + w;
    }
  }

  /** The running state the script keeps always equals the closed form. */
  lemma {:induction false} CursorClosedForm(k: nat, size: HeadSize)
    ensures CursorAfter(k, size) == Cursor(HeadPosition(k, size), k)
  {
    if k > 0 {
      CursorClosedForm(k - 1, size);
      AdvanceToNextSlot(k - 1, size);
    } else {
      assert HeadPosition(0, size) == Origin;
    }
  }

  /** Right after every tenth head the cursor is back at x = 200, one row
      higher than the row just filled. */
  lemma RowWrap(k: nat, size: HeadSize)
    requires k > 0 && k % HeadsPerRow == 0
    ensures CursorAfter(k, size).pos.x == 200.0
    ensures CursorAfter(k, size).pos.z == CursorAfter(k - 1, size).pos.z + size.sizeZ + SpacingV
  {
    CursorClosedForm(k, size);
    CursorClosedForm(k - 1, size);
    AdvanceToNextSlot(k - 1, size);
  }

  /** The four events the script issues for the k-th pose, in order. */
  ghost predicate PoseEvents(poses: seq<string>, head: string, size: HeadSize, events: seq<Event>, k: nat)
    requires k < |poses| && 4 * k + 3 < |events|
  {
    var name := DuplicateName(head, poses[k]);
    events[4 * k] == SetWeight(poses[k], 1.0)
    && events[4 * k + 1] == Duplicate(head, name)
    && events[4 * k + 2] == Translate(name, HeadPosition(k, size))
    && events[4 * k + 3] == SetWeight(poses[k], 0.0)
  }

  /** The whole trace: four events per pose, poses in list order. */
  ghost predicate IsLayoutTrace(poses: seq<string>, head: string, size: HeadSize, events: seq<Event>) {
    |events| == 4 * |poses|
    && forall k :: 0 <= k < |poses| ==> PoseEvents(poses, head, size, events, k)
  }

  /** Appending the k-th pose's four events to the trace of the first k
      poses gives the trace of the first k + 1. */
  lemma LayoutTraceExtend(poses: seq<string>, head: string, size: HeadSize, events: seq<Event>, k: nat, step: seq<Event>)
    requires k < |poses| && IsLayoutTrace(poses[..k], head, size, events)
    requires step == [SetWeight(poses[k], 1.0), Duplicate(head, DuplicateName(head, poses[k])),
                      Translate(DuplicateName(head, poses[k]), HeadPosition(k, size)), SetWeight(poses[k], 0.0)]
    ensures IsLayoutTrace(poses[..k + 1], head, size, events + step)
  {
    var ps, es := poses[..k + 1], events + step;
    forall j | 0 <= j < k + 1
      ensures PoseEvents(ps, head, size, es, j)
    {
      if j < k {
        assert PoseEvents(poses[..k], head, size, events, j);
      }
    }
  }

  /** The head's depth is computed but never used: the whole trace is the
      same whatever `sizeY` is. */
  lemma LayoutIgnoresDepth(poses: seq<string>, head: string, size: HeadSize, events: seq<Event>, y: real)
    ensures IsLayoutTrace(poses, head, size, events) <==> IsLayoutTrace(poses, head, size.(sizeY := y), events)
  {
    forall k | 0 <= k < |poses| && 4 * k + 3 < |events|
      ensures PoseEvents(poses, head, size, events, k) <==> PoseEvents(poses, head, size.(sizeY := y), events, k)
    {
      assert HeadPosition(k, size) == HeadPosition(k, size.(sizeY := y));
    }
  }

  /** The script itself. An empty pose list issues no command at all. */
  method LayoutHeads(poses: seq<string>, head: string, bbox: BoundingBox) returns (events: seq<Event>)
    ensures IsLayoutTrace(poses, head, SizeOf(bbox), events)
  {
    var size := SizeOf(bbox);
    var cursor := Cursor(Origin, 0);
    events := [];
    var k := 0;
    while k < |poses|
      invariant 0 <= k <= |poses|
      invariant cursor == Cursor(HeadPosition(k, size), k)
      invariant IsLayoutTrace(poses[..k], head, size, events)
    {
      var pose := poses[k];
      var name := DuplicateName(head, pose);
      var slot := cursor.pos;
      var step := [SetWeight(pose, 1.0), Duplicate(head, name), Translate(name, slot), SetWeight(pose, 0.0)];
      LayoutTraceExtend(poses, head, size, events, k, step);
      events := events + step;
      AdvanceToNextSlot(k, size);
      cursor := Advance(cursor, size);
      k := k + 1;
    }
    assert poses[..k] == poses;
  }

  /** The pose weights after replaying a trace; events other than weight
      changes leave them alone. */
  function Replay(w: map<string, real>, events: seq<Event>): map<string, real> {
    if |events| == 0 then w
    else
      var before := Replay(w, events[..|events| - 1]);
      match events[|events| - 1]
      case SetWeight(p, x) => before[p := x]
      case _ => before
  }

  /** The names of the duplicates a trace creates, in order. */
  function DuplicatedNames(events: seq<Event>): seq<string> {
    if |events| == 0 then []
    else
      var before := DuplicatedNames(events[..|events| - 1]);
      match events[|events| - 1]
      case Duplicate(_, name) => before + [name]
      case _ => before
  }

  lemma LayoutTracePrefix(poses: seq<string>, head: string, size: HeadSize, events: seq<Event>, n: nat)
    requires IsLayoutTrace(poses, head, size, events) && n <= |poses|
    ensures IsLayoutTrace(poses[..n], head, size, events[..4 * n])
  {
    forall k | 0 <= k < n
      ensures PoseEvents(poses[..n], head, size, events[..4 * n], k)
    {
      assert PoseEvents(poses, head, size, events, k);
    }
  }

  /** Replaying the last pose's four events: only that pose's weight
      changes, and it ends at 0; the duplicate is made while it is 1. */
  lemma ReplayLastPose(poses: seq<string>, head: string, size: HeadSize, events: seq<Event>, w: map<string, real>)
    requires IsLayoutTrace(poses, head, size, events) && |poses| > 0
    ensures var n := |poses| - 1;
            Replay(w, events) == Replay(w, events[..4 * n])[poses[n] := 0.0]
            && poses[n] in Replay(w, events[..4 * n + 2])
            && Replay(w, events[..4 * n + 2])[poses[n]] == 1.0
  {
    var n := |poses| - 1;
    assert PoseEvents(poses, head, size, events, n);
    var e := events;
    assert e[..4 * n + 3] == e[..|e| - 1];
    assert e[..4 * n + 3][..4 * n + 2] == e[..4 * n + 2];
    assert e[..4 * n + 2][..4 * n + 1] == e[..4 * n + 1];
    assert e[..4 * n + 1][..4 * n] == e[..4 * n];
    var w0 := Replay(w, e[..4 * n]);
    assert Replay(w, e[..4 * n + 1]) == w0[poses[n] := 1.0];
    assert Replay(w, e[..4 * n + 2]) == w0[poses[n] := 1.0];
    assert Replay(w, e[..4 * n + 3]) == w0[poses[n] := 1.0];
    assert Replay(w, e) == w0[poses[n] := 1.0][poses[n] := 0.0];
  }

  /** After the script every pose weight is 0, and the weight of anything
      that is not a pose is what it was before. */
  lemma {:induction false} FinalWeights(poses: seq<string>, head: string, size: HeadSize, events: seq<Event>, w: map<string, real>)
    requires IsLayoutTrace(poses, head, size, events)
    ensures forall p :: p in poses ==> p in Replay(w, events) && Replay(w, events)[p] == 0.0
    ensures forall p :: p !in poses ==> (p in Replay(w, events) <==> p in w)
    ensures forall p :: p !in poses && p in w ==> Replay(w, events)[p] == w[p]
  {
    if |poses| > 0 {
      var n := |poses| - 1;
      LayoutTracePrefix(poses, head, size, events, n);
      FinalWeights(poses[..n], head, size, events[..4 * n], w);
      ReplayLastPose(poses, head, size, events, w);
      assert poses == poses[..n] + [poses[n]];
    }
  }

  /** While the k-th duplicate is made, the k-th pose's weight is 1. */
  lemma WeightOnWhileDuplicating(poses: seq<string>, head: string, size: HeadSize, events: seq<Event>, w: map<string, real>, k: nat)
    requires IsLayoutTrace(poses, head, size, events) && k < |poses|
    ensures events[4 * k + 1] == Duplicate(head, DuplicateName(head, poses[k]))
    ensures poses[k] in Replay(w, events[..4 * k + 2])
    ensures Replay(w, events[..4 * k + 2])[poses[k]] == 1.0
  {
    assert PoseEvents(poses, head, size, events, k);
    LayoutTracePrefix(poses, head, size, events, k + 1);
    ReplayLastPose(poses[..k + 1], head, size, events[..4 * (k + 1)], w);
    assert events[..4 * (k + 1)][..4 * k + 2] == events[..4 * k + 2];
  }

  /** Exactly one duplicate per pose, in list order, named after its pose. */
  lemma {:induction false} OneDuplicatePerPose(poses: seq<string>, head: string, size: HeadSize, events: seq<Event>)
    requires IsLayoutTrace(poses, head, size, events)
    ensures |DuplicatedNames(events)| == |poses|
    ensures forall k :: 0 <= k < |poses| ==> DuplicatedNames(events)[k] == DuplicateName(head, poses[k])
  {
    if |poses| > 0 {
      var n := |poses| - 1;
      var e := events;
      LayoutTracePrefix(poses, head, size, events, n);
      OneDuplicatePerPose(poses[..n], head, size, e[..4 * n]);
      assert PoseEvents(poses, head, size, events, n);
      assert e[..4 * n + 3] == e[..|e| - 1];
      assert e[..4 * n + 3][..4 * n + 2] == e[..4 * n + 2];
      assert e[..4 * n + 2][..4 * n + 1] == e[..4 * n + 1];
      assert e[..4 * n + 1][..4 * n] == e[..4 * n];
      var before := DuplicatedNames(e[..4 * n]);
      assert DuplicatedNames(e[..4 * n + 1]) == before;
      assert DuplicatedNames(e[..4 * n + 2]) == before + [DuplicateName(head, poses[n])];
      assert DuplicatedNames(e[..4 * n + 3]) == before + [DuplicateName(head, poses[n])];
      assert DuplicatedNames(e) == before + [DuplicateName(head, poses[n])];
    }
  }
}
