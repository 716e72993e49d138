# Rope snap and blend-shape grid: a Dafny model

This project models the two parts of the K_DccPyToolkit scripts that are
sequential logic rather than calls into a host application. The models are
proved correct against their contracts.

1. **Snap Curve to Mesh** (`bpy/RopeAttacher.py`). A nearest-vertex index is
   built over the vertices of an offset copy of a target mesh. Then every
   Bezier control point of every spline of a curve moves onto its nearest
   target vertex. Both of the point's handles are rescaled by `scale` about
   the point's new position. The index is modelled only by what its query
   answers (`KdIndex`): a vertex at minimal squared Euclidean distance, or
   nothing on an empty index. The snap itself is a set of pure functions
   over sequences of real 3D points (`RopeAttacher`).
2. **Blend-shape head layout** (`mpy/OutputBsFromMoCapX.py`). For each
   MoCapX pose, the script sets the pose weight to 1, duplicates the head
   as `<head>_<pose>`, moves the copy to the next grid slot and sets the
   weight back to 0. Slots advance by one head width plus 5 along x. After
   every tenth head, x returns to 200 and z rises by one head height plus
   10 (`BlendShapeLayout`). The scene commands are recorded as a trace of
   events. The method that builds this trace follows the script's running
   cursor step by step. Its loop invariant proves that the cursor matches
   the closed form `x = 200 + (k mod 10)(sizeX + 5)`, `y = 0`,
   `z = (k div 10)(sizeZ + 10)`.

The handles are rescaled exactly as the code does it. Line 70 of
`bpy/RopeAttacher.py` overwrites `point.co` before lines 71-72 read it, so a
handle `h` becomes `co' + scale*(h - co')`, where `co'` is the NEW anchor.
Rescaling about the old anchor would give `co' + scale*(h - co_old)`; the
code does not do that. `SnapPoint` and `SnapTwice` state the consequence:
the second snap of an already-snapped point leaves the anchor where it is
and multiplies the handle offsets again.

Files: `geometry.dfy` (vectors, squared distance), `kd_index.dfy`
(nearest query), `rope_attacher.dfy` (the snap operator),
`blend_shape_layout.dfy` (the Maya script).

## Model

| member | source | states |
|---|---|---|
| KdIndex.NearestIndex | bpy/RopeAttacher.py:52-67 | on a non-empty vertex list, the query answers with an index no vertex is strictly closer than, and every earlier index is strictly farther (lowest-index tie-break) |
| KdIndex.Find | bpy/RopeAttacher.py:52-67 | the query answers nothing exactly when the index is empty; otherwise it returns a nearest vertex, that vertex's index and the squared distance to it |
| KdIndex.FindLinear | bpy/RopeAttacher.py:55-67 | a loop over the vertices in insertion order that keeps the first strictly closer one gives the same answer as `Find`, which is the same scan written as a recursion over prefixes; both satisfy `IsNearest` |
| KdIndex.FindExactVertex | bpy/RopeAttacher.py:67 | a query point that is itself a vertex is answered with a vertex at that position, at distance 0 |
| RopeAttacher.RescaleHandle | bpy/RopeAttacher.py:71-72 | scale 1 leaves a handle where it was |
| RopeAttacher.RescaleDistance | bpy/RopeAttacher.py:71-72 | a rescaled handle's squared distance to the anchor is scale² times the old one |
| RopeAttacher.SnapPoint | bpy/RopeAttacher.py:64-72 | the new position is a target vertex; no target vertex is strictly closer to the old position; each handle's offset from the NEW anchor is `scale` times its old offset from the new anchor |
| RopeAttacher.SnapPoints | bpy/RopeAttacher.py:64-72 | a spline's Bezier points are snapped one for one, in order, keeping their count |
| RopeAttacher.SnapSpline | bpy/RopeAttacher.py:62-72 | a spline's plain (non-Bezier) points are untouched; its Bezier points are snapped one for one |
| RopeAttacher.SnapSplines | bpy/RopeAttacher.py:62-72 | every spline is snapped, in order, keeping the spline count |
| RopeAttacher.SnapCurve | bpy/RopeAttacher.py:52-72 | fails exactly when the target has no vertex and the curve has a Bezier point; otherwise keeps spline count, order, point counts and plain points, and snaps every Bezier point; with no target vertex and no Bezier point the curve comes back unchanged |
| RopeAttacher.SnapLandsOnNearestVertex | bpy/RopeAttacher.py:55-70 | after a successful snap every Bezier point lies on a target vertex, and no target vertex is strictly closer to its old position |
| RopeAttacher.HandleScaleExtremes | bpy/RopeAttacher.py:70-72 | with the default scale 1 (set at line 115) both handles keep their absolute positions; with scale 0 both collapse onto the new anchor |
| RopeAttacher.SnapFixesVertex | bpy/RopeAttacher.py:67-70 | a point already on a target vertex keeps its position |
| RopeAttacher.SnapIdempotentOnTarget | bpy/RopeAttacher.py:62-72 | snapping with scale 1 a curve whose Bezier points all lie on target vertices returns it unchanged |
| RopeAttacher.RescaleTwice | bpy/RopeAttacher.py:71-72 | rescaling a handle by s1 and then s2 about the same anchor is rescaling it by s1*s2 |
| RopeAttacher.SnapPointTwice | bpy/RopeAttacher.py:64-72 | snapping a point with s1 and then with s2 is snapping it once with s1*s2 |
| RopeAttacher.SnapTwice | bpy/RopeAttacher.py:62-72 | snapping a curve with s1 and then with s2 is snapping it once with s1*s2 |
| RopeAttacher.Execute | bpy/RopeAttacher.py:12-89 | an unset mesh object fails first (the copy at line 16), then an unset curve object (the select at line 24); with both set, the operator snaps the curve to the vertices of an offset copy of the mesh and fails exactly when the snap does; the world-space vertex positions of the caller's mesh, the offset and the scale come back unchanged |
| RopeAttacher.ExecuteTwice | bpy/RopeAttacher.py:12-89 | running the operator a second time on its own result, with the same scale, gives the curve a single run with the scale squared gives |
| BlendShapeLayout.SizeOf | mpy/OutputBsFromMoCapX.py:12-15 | an axis whose box minimum does not exceed its maximum gets a non-negative head extent |
| BlendShapeLayout.LayoutIgnoresDepth | mpy/OutputBsFromMoCapX.py:14-35 | `sizeY` is computed but never used: the command trace is the same for every value of it |
| BlendShapeLayout.AdvanceToNextSlot | mpy/OutputBsFromMoCapX.py:27-32 | one step of the script's position update moves the cursor from the k-th grid slot to the (k+1)-th, row wrap included |
| BlendShapeLayout.CursorClosedForm | mpy/OutputBsFromMoCapX.py:6-32 | after k heads the running position is x = 200 + (k mod 10)(sizeX+5), y = 0, z = (k div 10)(sizeZ+10), and the count is k |
| BlendShapeLayout.RowWrap | mpy/OutputBsFromMoCapX.py:30-32 | right after every tenth head x is exactly 200 and z is one head height plus 10 above the previous slot |
| BlendShapeLayout.LayoutTraceExtend | mpy/OutputBsFromMoCapX.py:20-35 | one loop iteration appends exactly the current pose's four commands to the trace |
| BlendShapeLayout.LayoutHeads | mpy/OutputBsFromMoCapX.py:19-35 | four commands per pose in list order: weight 1, duplicate as head_pose, move to the k-th slot in closed form, weight 0; no command for an empty pose list |
| BlendShapeLayout.LayoutTracePrefix | mpy/OutputBsFromMoCapX.py:20-35 | the first 4n commands are the trace of the first n poses |
| BlendShapeLayout.FinalWeights | mpy/OutputBsFromMoCapX.py:22-35 | after the script every pose weight is 0.0, and no other weight changes |
| BlendShapeLayout.WeightOnWhileDuplicating | mpy/OutputBsFromMoCapX.py:22-24 | the k-th duplicate is made while the k-th pose's weight is 1.0 |
| BlendShapeLayout.OneDuplicatePerPose | mpy/OutputBsFromMoCapX.py:19-24 | exactly one duplicate per pose, in list order, named head_pose |

## Left out

- The host operators around the snap are not modelled: object copy and link, `transform_apply`, edit-mode toggles, `origin_set` to bounds (bpy/RopeAttacher.py:77) and object deletion. They are host-kernel behaviour. The copy-then-delete policy shows only as `Execute` returning the caller's mesh vertex positions unchanged.
- RopeAttacher.Execute: the model keeps only the mesh's world-space vertex positions, not the object. Lines 24-25 of bpy/RopeAttacher.py add the curve and the copy to the selection without clearing it first, so `transform_apply` at line 26 also bakes the location, rotation and scale of every object already selected, the caller's mesh object included, into its data. When the operator fails after the copy is linked at line 18, the deletion at lines 84-86 is skipped and the copy stays in the scene.
- RopeAttacher.Execute: failures of the host operators at bpy/RopeAttacher.py:16-41 (a refused `transform_apply`, mode switch or mesh edit) are not modelled. Only the two unset-object failures are.
- The extrude/shrink-fatten offset and the inverted-selection delete (bpy/RopeAttacher.py:33-41) are the host's mesh kernel. They are the parameter `offsetSurface` of `Execute`.
- The `matrix_world` products (bpy/RopeAttacher.py:47, 56, 66, 70) are not modelled. For objects without a parent, `transform_apply` at line 26 leaves both world matrices at the identity, so one frame is used.
- Parented objects are not modelled. `transform_apply` bakes only an object's own location, rotation and scale, and `Object.copy()` at line 16 keeps the mesh's parent, so a parented mesh keeps a world matrix M that is not the identity. Line 47 then transforms the vertices by M and line 56 applies M again, so the index holds M·M·v; a parented curve likewise keeps its own world matrix at lines 66 and 70.
- KdIndex.NearestIndex: the index's internal tree is not modelled. Among equally near vertices, which one `mathutils.kdtree` returns is unspecified. The model picks the lowest index, and the snap's contracts promise only "a nearest vertex". A different tie-break changes the snapped anchor, and with it both handles, which are rescaled about the chosen vertex.
- RopeAttacher.SnapPoint: assumes every handle is of type FREE, so the three writes at bpy/RopeAttacher.py:70-72 are plain field updates. In Blender each write triggers the spline's handle recalculation: AUTO and VECTOR handles are recomputed (for them `scale` has no effect), ALIGNED pairs are re-aligned, and a later point's write can move an earlier point's automatic handles again. That recalculation is host behaviour and is not modelled.
- KdIndex.Find: the query's distance is Euclidean in the source. The model returns the squared distance, which orders vertices the same way.
- RopeAttacher.SnapCurve: the source raises a host TypeError when the first Bezier point finds no vertex. That happens because the index's query answers with nothing. The model returns `Err(NoTargetVertices)` instead. Any changes the host made before the exception are not modelled.
- All coordinates and the Maya script's origin and spacings are exact reals, so IEEE float rounding is not modelled.
- The Maya commands are not modelled, beyond recording `duplicate`, `xform` and `setAttr` as events. The pose list (`cmds.ls`) and the bounding box (`exactWorldBoundingBox`) are inputs. The duplicate's name is assumed to be the requested one, since Maya may rename on a clash.
- `bpy/RopeWrap.py`, `MeshFaceToBoard.py`, `bpy/modules/KrusUtilities.py`, `bpy/OperatorTemplate.py`, and the panels and property registration are not part of this model, because they are host-operator orchestration.
- `bpy/SmoothNormalToUV.py` and `bpy/UnifyNormals.py` are not part of this model. Each does its own arithmetic in Python: SmoothNormalToUV.py:146-151 projects each loop normal onto a tangent frame and normalises it, and UnifyNormals.py:71 remaps normals to colours. But their inputs come from the host, through `calc_tangents` (SmoothNormalToUV.py:111) and the DATA_TRANSFER modifier, and their arithmetic is on normalised floats, which exact reals do not model.
