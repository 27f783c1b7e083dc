# lightjs ray tracer, modelled in Dafny

This project models the 2D optics sandbox in `js/lightjs`. It covers the tracer and the scene objects it works with.

- **Rays.** A ray finds the nearest point where it meets a scene object. That object returns new rays, which become the ray's children and are traced in turn.
- **Scene objects.**
  - Plane mirrors, voids (which absorb rays) and thin lenses.
  - Polygonal and rectangular glass blocks, and circular glass blocks.
  - Curved (arc) mirrors.
- **Light sources.** A single ray source, a point light (a fan of rays) and a beam (parallel rays along a segment).
- **Editing.** For each object, the editor operations: the hit test that says which handle the mouse is on, and the move, rotate and resize operations.
- **Helpers.** The rectangle and circle predicates, and the small angle, midpoint and copy helpers.

The model is split into modules that follow the source files:

| module | file | source |
|---|---|---|
| `Geometry` | geometry.dfy | vectors (`Vec` values and the p5 `Vector` objects the source shares), colours, the scene's surfaces, and the transcendental functions as a `Trig` parameter |
| `Misc` | misc.dfy | miscellaneous.js, plus JavaScript's truncating `%` and `int()` |
| `Shapes` | shapes.dfy | shapes.js |
| `Arcs` | arcs.dfy | arc.js |
| `Rays` | rays.dfy | ray.js, and the `returnRay` of every scene object |
| `Blocks` | blocks.dfy | blocks.js |
| `Optics` | optics.dfy | `Line`, `Mirror`, `Void` and `Lens` of optics.js |
| `Sources` | sources.dfy | sources.js |

The model uses two forms.

- **Pure code stays pure.** Expressions, `map`/`reduce` and recursion become functions over values. Examples:
  - segment intersection;
  - the forward test and reflection;
  - the Fresnel split;
  - polygon edges and the centroid;
  - the shape predicates;
  - `fixAngles` and `dupProp`.
- **Code that updates objects stays imperative.** It becomes classes whose methods change fields in place. Examples:
  - `Ray.handle` (clear, search, push children, recurse, set `calcWarning`);
  - `setIntensity`;
  - the blocks' `updateLines`, `setPos` and `morph`;
  - the sources' `resetRays`/`reposRays` loops;
  - every `morph`/`setDir`.

Each such method states its new state, and that state is tied to a specification function whose properties are proved.

Sharing between objects is modelled where the source relies on it:

- A ray holds its origin, direction and colour as objects (`Vector`, `Color`).
- A ray source's single ray is the source's own `pos` and `dir`, so turning the source turns the ray.
- A point light's rays share its position and colour.
- A beam's rays share its direction and colour but own their origins, which `reposRays` moves in place.
- A lens's outgoing ray shares the parent's colour object. Every other new ray gets a copy.

`calcWarning` is a field of a `TraceContext` object.

The source's numbers are JavaScript doubles. The model uses unbounded reals, and:

- the thresholds `den === 0`, `1e-5`, `1e-6` and `isNaN(asin(…))` are exact conditions;
- sine, cosine, arcsine, arccosine, square root, `heading`, `rotate`, `normalize` and `angleBetween` are the functions of a `Trig` record passed in as a parameter, and the model states no property of them;
- where the source needs a vector's length (`mag()`), the caller passes the length in, with the precondition that it is the non-negative root of the squared length.

## Model

| member | source | states |
|---|---|---|
| Misc.Trunc | js/lightjs/sources.js:229 | the quotient of JavaScript's `%` rounds toward zero: the result is within one of the argument, on the argument's side of zero |
| Misc.P5Int | js/lightjs/sources.js:123 | p5's `int()` of a number is `n \| 0`: a signed 32-bit integer that differs from the number rounded toward zero by a whole multiple of 2^32 |
| Misc.P5IntInRange | js/lightjs/sources.js:123 | for a number within the signed 32-bit range, `int()` is plain rounding toward zero |
| Misc.P5IntWraps | js/lightjs/sources.js:123 | from 2^31 up a positive number can come back negative: `int(2^31)` is -2^31 |
| Misc.JsRem | js/lightjs/sources.js:229 | JavaScript's `%` has the sign of the dividend and is smaller in size than the divisor |
| Misc.QuotientBounds | js/lightjs/sources.js:229 | the truncated quotient times the divisor lies within one divisor of the dividend, on the dividend's side |
| Misc.FixAngle | js/lightjs/miscellaneous.js:4-6 | for an angle of at least -2π the result lies in [0, 2π); for any angle it differs from the argument by a whole number of turns |
| Misc.FixAngles | js/lightjs/miscellaneous.js:4-6 | as many results as arguments, in the same order, each the normalised argument |
| Misc.FixAngleInRange | js/lightjs/miscellaneous.js:4-6 | an angle already in [0, 2π) is left unchanged |
| Misc.FixAngleIdempotent | js/lightjs/miscellaneous.js:4-6 | normalising a normalised angle changes nothing |
| Misc.FixAnglesIdempotent | js/lightjs/miscellaneous.js:4-6 | `fixAngles` applied to its own output returns the same values |
| Misc.FixAngleBelowRange | js/lightjs/miscellaneous.js:4-6 | below -2π the result is still negative, so the range holds only from -2π up |
| Misc.Mid | js/lightjs/miscellaneous.js:17-19 | the step from `a` to the midpoint equals the step from the midpoint to `b` |
| Misc.MidSymmetricEquidistant | js/lightjs/miscellaneous.js:17-19 | the midpoint does not depend on the order of its points and is equally far from both |
| Misc.Sign | js/lightjs/miscellaneous.js:22-24 | 1 exactly for positive numbers, -1 exactly for negative numbers, 0 exactly for 0 |
| Misc.SignTimesAbs | js/lightjs/miscellaneous.js:22-24 | the sign times the absolute value gives back the number |
| Misc.DupProp | js/lightjs/miscellaneous.js:9-14 | an array is copied to an array of the same length, and only an array to an array. A vector is copied to an equal vector. A colour is rebuilt with as many levels, each a whole number from 0 to 255. Anything else is returned as it is |
| Misc.DupPropIsCopy | js/lightjs/miscellaneous.js:9-14 | when every colour inside holds whole levels from 0 to 255, as every p5 colour does, the copy equals the original at every depth of nesting, including where the falsy-copy fallback applies |
| Shapes.DistSq | js/lightjs/shapes.js:121-123 | the squared distance is never negative |
| Shapes.DistSqSymmetricZero | js/lightjs/shapes.js:121-123 | the squared distance is symmetric in its two points, and zero exactly when they coincide |
| Shapes.RectContains | js/lightjs/shapes.js:36-38 | the four comparisons say that the point is within `w` horizontally and within `h` vertically of the centre, edges included |
| Shapes.Shape.Area | js/lightjs/shapes.js:63-65 | a rectangle with non-negative half-extents has non-negative area, and so does every circle |
| Shapes.RectangleArea | js/lightjs/shapes.js:63-65 | a rectangle's area is its full width times its full height, 2w·2h |
| Shapes.DoIntersect | js/lightjs/shapes.js:15-18 | there is no answer exactly when the second shape is neither a rectangle nor a circle |
| Shapes.RectOverlap | js/lightjs/shapes.js:50-53 | two rectangles overlap exactly when their centres are no further apart on each axis than the sum of their half-extents, so the test is symmetric |
| Shapes.CircleOverlapSymmetric | js/lightjs/shapes.js:87-89 | the circle-circle test gives the same answer whichever circle is asked |
| Shapes.ContainsIsDegenerateOverlap | js/lightjs/shapes.js:77-84 | containing a point is overlapping a zero-size rectangle or a zero-radius circle at that point |
| Shapes.CircleRectBandsMiss | js/lightjs/shapes.js:92-98 | because the ternary binds looser than `\|\|`, both circle-rectangle tests are false whenever the centre is within either band of the rectangle, including a centre inside the rectangle |
| Shapes.CircleRectCorner | js/lightjs/shapes.js:41-47 | for a non-negative radius the test holds exactly when the centre is outside both bands and the nearest corner is within the circle, and the rectangle's test agrees with the circle's |
| Arcs.WithinArcSound | js/lightjs/arc.js:55-61 | for a normalised start angle, every accepted heading lies between the start and the end of the arc, up to whole turns |
| Arcs.WithinArcComplete | js/lightjs/arc.js:55-61 | every heading on an arc with normalised start and span is accepted, unless the arc ends exactly on a full turn |
| Arcs.WithinArcMissesFullTurnEnd | js/lightjs/arc.js:55-61 | an arc that ends exactly on a full turn rejects its own end angle |
| Arcs.Arc.constructor | js/lightjs/arc.js:2-13 | centre, radius and angles are as given, and the handles are at the start and end angles at distance `r` |
| Arcs.Arc.Contains | js/lightjs/arc.js:38-52 | 'rotate' exactly on the start handle, then 'resize' exactly on the end handle, and otherwise a yes/no answer |
| Arcs.Arc.ContainsOnArc | js/lightjs/arc.js:38-52 | a yes away from the handles means the point is within the stroke of the circle and on the arc at its heading |
| Arcs.Arc.Morph | js/lightjs/arc.js:64-83 | three cases. 'rotate' sets the start angle to the normalised heading of the target, in [0, 2π) and a whole number of turns from it, and keeps the span and radius. 'resize' sets the span to the normalised angle from the start and the radius to the target's distance. Anything else moves the centre to the target less its grab offset |
| Arcs.Arc.Duplicate | js/lightjs/arc.js:104-108 | a new arc with the same centre, radius and angles |
| Arcs.Build | js/lightjs/arc.js:93-102 | no arc exactly when there is no build point; otherwise an arc at the first point, with the point's distance as radius, the reversed normalised heading as start angle, and a span of 0.1 |
| Rays.CollWithLine | js/lightjs/ray.js:97-112 | no hit when the segment and the ray are parallel. A hit exactly when the crossing is strictly inside the segment and strictly ahead of the origin. The point is the same whether measured along the segment or along the ray |
| Rays.LinesMeet | js/lightjs/ray.js:103-108 | the two parameters Cramer's rule gives name one point on both lines |
| Rays.WithinSegmentSigns | js/lightjs/ray.js:115-118 | the forward test holds exactly when, on each axis where the direction is not zero, the point is not behind the origin |
| Rays.WithinSegmentHalfLine | js/lightjs/ray.js:115-118 | on the ray's own line, the test accepts exactly the points at a non-negative parameter |
| Rays.ReflectUnit | js/lightjs/ray.js:121-125 | for a unit surface vector, reflection keeps the component along the surface, negates the one across it, keeps the length, and undoes itself |
| Geometry.CopyLevels | js/lightjs/ray.js:124 | `color(...levels)` stores as many levels as it is given, each a whole number from 0 to 255 within ½ of the given level clamped to [0, 255] |
| Geometry.CopyLevelsStored | js/lightjs/ray.js:124 | copying a colour whose levels are already whole numbers from 0 to 255 gives the same levels, so copying a copy changes nothing |
| Geometry.CopyRoundsIntensity | js/lightjs/ray.js:124 | the copy is not exact for an intensity that is not a whole number: alpha 1.4 is copied as 1 |
| Rays.ReflectRay | js/lightjs/ray.js:121-125 | the new ray starts at the parent's end, along the reflected direction, with a new colour holding the parent's levels clamped to [0, 255] and rounded, and no children |
| Rays.LensAim | js/lightjs/optics.js:96-104 | the vector the lens computes leads from the point of incidence to the focal point of the incoming direction |
| Rays.LensFocus | js/lightjs/optics.js:96-104 | rays of one direction leave the lens aimed at one focal point: towards it when the focal length is positive, away from it when negative, with no direction at focal length 0 |
| Rays.FootPerpendicular | js/lightjs/ray.js:160-163 | for a unit direction, `getNormal` is the foot of the perpendicular from `p` onto the line through `a` |
| Rays.CirclePoints | js/lightjs/ray.js:84-94 | two points. When the line passes within the threshold of the centre, both are the same vector `-r·dir`, because the source reuses one vector object |
| Rays.CircleThroughCentre | js/lightjs/ray.js:84-94 | a unit ray from a circle's centre reports only `-r·dir`, measured from the canvas origin rather than from the centre |
| Rays.Ahead | js/lightjs/ray.js:76 | the points kept are exactly those that pass the forward test |
| Rays.OnArc | js/lightjs/ray.js:73-75 | the points kept are exactly those whose heading from the centre is on the arc |
| Rays.EdgeHits | js/lightjs/ray.js:66 | at most one point per edge, and a point is reported exactly when some edge's intersection is that point |
| Rays.DoesCollide | js/lightjs/ray.js:64-82 | a line surface gives its one hit or nothing. A circle or an arc gives at most two points, all ahead of the ray. A polygon gives at most one point per edge |
| Rays.CircleCandidates | js/lightjs/ray.js:68-72 | no point, or the two points of `getCircleIntersectPts` |
| Rays.LineSurfaceHit | js/lightjs/ray.js:78-79 | a point a mirror, void or lens reports is strictly inside it and strictly ahead of the ray, on the ray's line |
| Rays.CandidateTable | js/lightjs/ray.js:33-34 | one row per object, in scene order, with that object's collision points |
| Rays.NearestUnique | js/lightjs/ray.js:36-41 | the selected hit is unique: ties go to the first object and point searched |
| Rays.FindClosest | js/lightjs/ray.js:28-45 | the search finds the candidate further than the self-hit threshold that is nearest and first among equals, or reports that no point is a candidate |
| Rays.ReflectanceBounds | js/lightjs/ray.js:139-140 | for an index above 0 and cos i in [0, 1], the Schlick reflectance lies in [0, 1] and the refracted and reflected shares add up to the incoming intensity |
| Rays.IntoNeverTotal | js/lightjs/ray.js:130-132 | entering a medium of index at least 1, the arcsine is always defined, so 'into' never falls back to reflection |
| Rays.Split | js/lightjs/ray.js:142-149 | at most two rays, each with four colour levels whose hue is the parent's, clamped and rounded |
| Rays.SplitKeepRule | js/lightjs/ray.js:142-149 | the refracted ray is sent, and sent first, exactly when its share (1-R)·I is at least 1. The reflected ray is sent, and sent last, exactly when R·I is at least 1. Each carries the rounded copy of the parent's levels with its share as intensity, and nothing else is sent |
| Rays.RefractOutgoing | js/lightjs/ray.js:128-151 | at most two outgoing rays, each with four colour levels whose hue is the parent's, clamped and rounded |
| Rays.RefractTotal | js/lightjs/ray.js:133-135 | leaving the medium with no refraction angle gives only the reflected ray, with the incoming colour clamped and rounded as `color(...levels)` stores it |
| Rays.RefractSplit | js/lightjs/ray.js:139-149 | every kept ray has intensity at least 1 and the parent's hue, clamped and rounded. Two kept rays share the incoming intensity exactly, and one kept ray carries no more than it |
| Rays.CircleTangentUnit | js/lightjs/blocks.js:188-190 | at a point of the circle, the block's surface vector is a unit vector across the radius |
| Rays.Emitted | js/lightjs/blocks.js:66-70 | only a polygonal block throws. Every returned ray has four colour levels. A ray that shares the parent's colour has the parent's levels, and a ray with a colour of its own has the parent's hue clamped and rounded |
| Rays.MirrorEmitsReflection | js/lightjs/optics.js:138-141 | a mirror returns exactly one ray, with the parent's colour levels clamped and rounded, the reflected direction and, for a unit mirror, the parent's speed |
| Rays.Ray.constructor | js/lightjs/ray.js:3-8 | the ray holds the given origin, direction and colour objects, with no end and no children |
| Rays.Ray.SetIntensity | js/lightjs/ray.js:153-156 | only the alpha level changes, to the intensity, and the answer is whether the intensity is at least 1 |
| Rays.Ray.Handle | js/lightjs/ray.js:24-61 | with no candidate hit there is no end and no child. Otherwise the end is the nearest hit, and the children are exactly the rays the hit object returns, in order, each traced while `calcWarning` is clear. A polygon hit throws after recording the end. `calcWarning` is never cleared. When the call ends with the flag clear, the record it returns describes the whole tree below the ray: its root is the ray, its kids start at the children, and at every generation down to `fuel - 1` the hit is the nearest one and the next generation is exactly what the hit object emits |
| Rays.Ray.Seek | js/lightjs/ray.js:25-61 | the children and the end are cleared before the search. With no candidate there is no end and no child, and otherwise the nearest hit is followed. The kids' records start at the children and, with the flag clear, each is a complete trace one generation less deep |
| Rays.Ray.TreeTraced | js/lightjs/ray.js:24-61 | a completed trace whose children's records are complete traces one generation less deep gives a record of this ray that is itself a complete trace |
| Rays.Ray.Follow | js/lightjs/ray.js:48-59 | the end is the hit point. The call throws exactly when the object does. Otherwise the children are the returned rays, traced completely unless `calcWarning` ends up set, and their records start at them and are complete traces one generation less deep |
| Rays.Ray.TraceChildren | js/lightjs/ray.js:51-58 | the children are the returned rays in order. If the flag was set on entry, none is traced. If it stays clear, all are traced and each one's record is a complete trace one generation less deep |
| Rays.Ray.TraceChild | js/lightjs/ray.js:52-57 | one more child is pushed, and it is traced unless the flag was already set. A child whose trace throws sets the flag. With the flag clear, the child's record is a complete trace one generation less deep |
| Rays.Refract | js/lightjs/ray.js:128-151 | the new rays are those `RefractOutgoing` describes, with the parent's colour clamped and rounded: distinct and new, each with its own colour, all starting at the parent's end |
| Rays.SplitRay | js/lightjs/ray.js:142-149 | the rays `setIntensity` keeps are exactly those of `Split`, the refracted one first |
| Rays.ReturnRay | js/lightjs/optics.js:138-160 | every surface records the hit as the ray's end and returns the rays `Emitted` describes, or throws for a polygon. A lens's ray holds the parent's colour object, and every other ray has a new one holding the clamped and rounded copy |
| Blocks.Edge | js/lightjs/blocks.js:24-25 | an edge starts at its first vertex and ends at the next, with the normalised displacement as direction |
| Blocks.Next | js/lightjs/blocks.js:24 | the next index wraps from the last vertex to the first and otherwise adds one |
| Blocks.CreateSegments | js/lightjs/blocks.js:22-27 | one segment per vertex. Segment `i` runs from vertex `i` to the next vertex, the last one closing the polygon back to vertex 0 |
| Blocks.SegmentsClose | js/lightjs/blocks.js:22-27 | the edges form a closed loop: their displacements add up to zero |
| Blocks.OpenEdges | js/lightjs/blocks.js:22-27 | the first `k` displacements lead from vertex 0 to vertex `k` |
| Blocks.Centroid | js/lightjs/blocks.js:29-33 | the centroid times the number of vertices is the sum of the vertices: it is their mean |
| Blocks.Translate | js/lightjs/blocks.js:75-78 | every vertex is moved by the same offset |
| Blocks.SumTranslate | js/lightjs/blocks.js:75-78 | moving n vertices by `d` moves their sum by n·d |
| Blocks.CentroidTranslate | js/lightjs/blocks.js:72-80 | moving every vertex by `d` moves the centroid by `d` |
| Blocks.CollTranslate | js/lightjs/ray.js:97-112 | moving a segment and a ray's origin together by `d` keeps whether they meet, and moves the meeting point by `d` |
| Blocks.EdgeHitsTranslate | js/lightjs/blocks.js:62-63 | moving the edges and the ray's origin together keeps the number of crossings |
| Blocks.CreateSegmentsTranslate | js/lightjs/blocks.js:22-27 | the edges of moved vertices are the moved edges |
| Blocks.InsideTranslate | js/lightjs/blocks.js:57-64 | a block and a point moved together give the same inside test answer |
| Blocks.VertexAt | js/lightjs/blocks.js:60 | the index of the first vertex within 8 of the point, or -1 exactly when there is none |
| Blocks.RectangleStaysRectangle | js/lightjs/blocks.js:115 | a new rectangle's corners form an axis-aligned rectangle. A 'resize' keeps vertex 0, moves the opposite corner to the target and the two others onto its lines, and the result is still axis-aligned |
| Blocks.PolygonalBlock.constructor | js/lightjs/blocks.js:2-20 | the block holds its vertices with edges in sync and its centroid as position |
| Blocks.PolygonalBlock.UpdateLines | js/lightjs/blocks.js:47-55 | afterwards every edge is again the one from its vertex to the next, and there are as many edges as before |
| Blocks.PolygonalBlock.SetPos | js/lightjs/blocks.js:72-80 | the position becomes the target, every vertex moves by the same offset, and the edges are back in sync. A block whose position was its centroid keeps it so |
| Blocks.PolygonalBlock.Morph | js/lightjs/blocks.js:82-90 | 'none' changes nothing. A vertex index replaces only that vertex and keeps the position. Any other tag moves the whole block to the target less its grab offset. For a rectangle, 'resize' does the rectangle resize of blocks.js:121-127 |
| Blocks.PolygonalBlock.Contains | js/lightjs/blocks.js:57-64 | for the mouse, the index of the vertex under it. Otherwise whether a rightward ray crosses an odd number of edges |
| Blocks.PolygonalBlock.Duplicate | js/lightjs/blocks.js:105-110 | a new block on equal vertices with the same index, edges in sync, positioned at the centroid |
| Blocks.Build | js/lightjs/blocks.js:92-103 | a block exactly when the path has more than two points and its first point is within 10 of the holder. Its vertices are the path, with index 1.5 |
| Blocks.NewRectBlock | js/lightjs/blocks.js:114-119 | a rectangle block whose vertices are its four corners in order, an axis-aligned rectangle |
| Blocks.BuildRect | js/lightjs/blocks.js:133-137 | a 5 by 5 rectangle block at the holder with index 1.5 |
| Blocks.CircularBlock.constructor | js/lightjs/blocks.js:141-157 | centre, radius and index are as given, and the resize handle is at (r, 0) |
| Blocks.CircularBlock.Contains | js/lightjs/blocks.js:170-176 | 'resize' exactly when the mouse is on the handle. Otherwise whether the point is in the circle |
| Blocks.CircularBlock.Morph | js/lightjs/blocks.js:178-186 | 'resize' puts the handle at the target and makes the radius its distance, so the target lies on the new circle. Anything else moves the centre to the target less its grab offset |
| Blocks.CircularBlock.Duplicate | js/lightjs/blocks.js:202-206 | a new block with the same centre, radius and index |
| Blocks.BuildCircular | js/lightjs/blocks.js:196-200 | a block of radius 10 and index 1.5 at the holder |
| Optics.Line.constructor | js/lightjs/optics.js:3-10 | start and displacement are as given, the direction is the normalised displacement, and the length is its magnitude |
| Optics.Line.Contains | js/lightjs/optics.js:40-48 | 'resizeB' exactly within 6 of the start, then 'resize' exactly within 6 of the end. Otherwise, and exactly then, a yes/no answer: whether the distances to the two ends add up to the length within half the stroke |
| Optics.Line.ContainsSegmentPoints | js/lightjs/optics.js:40-48 | every point of the segment away from the handles is accepted, with distances adding up to exactly the length |
| Optics.Line.SetPos | js/lightjs/optics.js:35-37 | the start becomes the given point |
| Optics.Line.SetDir | js/lightjs/optics.js:51-58 | nothing changes when the normalised direction to the target is zero. Otherwise the direction is that one, and either the far end lands on the target with the new length, or the length is kept along the new direction |
| Optics.Line.Morph | js/lightjs/optics.js:61-76 | 'rotate' turns the line and keeps its length. 'resize' moves the far end onto the target. 'resizeB' and anything else move the start to the target less its grab offset, and 'resizeB' keeps the displacement |
| Optics.Line.Duplicate | js/lightjs/optics.js:122-126 | a new lens with the same start, displacement and focal length |
| Optics.Line.AsSurface | js/lightjs/optics.js:130-160 | every line element is a well-formed surface of the scene |
| Optics.Build | js/lightjs/optics.js:116-120 | a new 5 by 5 diagonal element at the holder, a little over 7 long |
| Sources.HandleRays | js/lightjs/sources.js:26-28 | the rays are traced in order up to the first one that throws. The rays before it are traced, and while `calcWarning` stays clear each one's record is its whole trace tree to the fuel depth. The ray that threw hit a polygon, and the rays after it are untouched |
| Sources.HandleAt | js/lightjs/sources.js:27 | tracing one ray leaves the other rays of the source, and the traces already done with their whole trees, as they were. The new ray's record is its whole trace tree while `calcWarning` stays clear |
| Sources.RaySource.constructor | js/lightjs/sources.js:33-49 | one ray, holding the source's own position, direction and colour objects, with the direction at the given angle |
| Sources.RaySource.Contains | js/lightjs/sources.js:64-69 | 'rotate' exactly on the direction handle 20 ahead. Otherwise whether the point is within the source's radius |
| Sources.RaySource.SetDir | js/lightjs/sources.js:71-74 | the direction becomes the normalised direction to the target unless that is zero, which it is when the target is the position. The ray follows because it shares the object |
| Sources.RaySource.Morph | js/lightjs/sources.js:76-82 | 'rotate' and 'resize' turn the source towards the target. Anything else moves it to the target less its grab offset. Either way the one ray moves with it |
| Sources.RaySource.Handle | js/lightjs/sources.js:26-28 | the source's one ray is traced, with its whole trace tree recorded while `calcWarning` stays clear, or it hit a polygon and has no children |
| Sources.FanSpansCircle | js/lightjs/sources.js:113-119 | the fan starts at angle 0 and ends exactly at a full turn, in equal steps of 2π/freq: freq + 1 rays |
| Sources.PointLight.constructor | js/lightjs/sources.js:87-111 | the light is at the given point with the given frequency and colour, and its rays are the fan |
| Sources.PointLight.ResetRays | js/lightjs/sources.js:113-119 | the rays are new: one per step from 0 up to and including a full turn, each at the light's position object with the light's colour object. With frequency 0 there is a single ray at angle 0 |
| Sources.PointLight.NewRay | js/lightjs/sources.js:117 | a new ray at the light's position and colour, along the given angle |
| Sources.PointLight.Morph | js/lightjs/sources.js:121-128 | 'rotate' and 'resize' set the frequency to `int()` of the squared distance over 100 and rebuild the fan. Below 2^31 that is the truncated quotient. A quotient that wraps to a negative number makes `resetRays` loop forever, which the model reports as `hangs`, leaving the light as it was. Anything else moves the light, and its rays move with it |
| Sources.PointLight.Handle | js/lightjs/sources.js:26-28 | the rays are traced in order up to the first one that throws. Each traced ray's record is its whole trace tree while `calcWarning` stays clear. The ray that threw hit a polygon, and the rays after it are untouched |
| Sources.BeamParamInRange | js/lightjs/sources.js:249-256 | every ray `resetRays` builds starts at a fraction between 0 and 1 of the way along the beam |
| Sources.Trimmed | js/lightjs/sources.js:228-230 | the new length is positive and at most the distance. It is either the distance or its largest whole multiple of `freq`, within one `freq` of the distance |
| Sources.Beam.constructor | js/lightjs/sources.js:146-175 | direction at the angle, the beam a quarter turn from it with the given length, and no rays |
| Sources.Beam.ResetRays | js/lightjs/sources.js:249-256 | new rays, one per step of 100/freq from 0 up to and including the length. Each starts on the beam, at a position of its own, sharing the beam's direction and colour |
| Sources.Beam.BuildRays | js/lightjs/sources.js:250-255 | the loop builds exactly `BeamCount` distinct rays with distinct origins, ray `k` at the `k`-th step along the beam |
| Sources.Beam.NewRay | js/lightjs/sources.js:253 | a new ray at the given step along the beam with the beam's direction and colour |
| Sources.Beam.ReposRays | js/lightjs/sources.js:241-247 | the same rays, each origin moved in place onto its step along the current beam |
| Sources.Beam.Contains | js/lightjs/sources.js:202-212 | 'rotate' exactly within 6 of the start, then 'resize' exactly within 6 of the end. Otherwise, and exactly then, a yes/no answer: whether the distances add up to the length within half the stroke |
| Sources.Beam.SetPos | js/lightjs/sources.js:214-217 | the start becomes the target less the offset, and every ray origin follows onto the beam |
| Sources.Beam.SetDir | js/lightjs/sources.js:219-239 | nothing changes for a zero displacement, the direction included. Turning keeps the length and repositions the rays. Resizing takes the trimmed new length and rebuilds the rays. The direction is a quarter turn back from the beam |
| Sources.Beam.Morph | js/lightjs/sources.js:272-283 | 'rotate' and 'resize' keep the start and do what `setDir` does without and with morphing: nothing at distance 0, otherwise the direction a quarter turn back from the new displacement, turning keeping the length and the rays, resizing taking the trimmed length and rebuilding the rays. Anything else moves the beam and keeps its displacement, length, direction and rays. Every ray stays on the beam |
| Sources.Beam.Handle | js/lightjs/sources.js:198-200 | the rays are traced in order up to the first one that throws. Each traced ray's record is its whole trace tree while `calcWarning` stays clear. The ray that threw hit a polygon, and the rays after it are untouched |
| Sources.Beam.Duplicate | js/lightjs/sources.js:265-270 | a new beam at the same start with the same length and step, a colour copied through `color()`, and its rays built. Its direction and displacement are rebuilt from the heading of the direction and the length, not copied |
| Sources.BeamRaysOnBeam | js/lightjs/sources.js:241-256 | whatever has been done to a beam, each of its rays starts on the beam segment |

## Left out

- Rendering. Every `render`, `drawHandles`, the handle drawing, and the colours and stroke styles are p5 canvas output.
- The editor and its events: the mouse holder, `properties` callbacks, arrow keys, deleting objects, `setScale` and `toggleGrid`. These are DOM and UI state.
- Pushes onto the global `objects` and `sources` arrays. The `build` and `duplicate` methods return the new object, and the caller would add it to the scene.
- `RaySource.build`/`duplicate`, `PointLight.build`/`duplicate` and `Beam.build`. Each is one constructor call followed by a push onto `sources`. The build takes the holder's colour levels or opaque white. The duplicates copy the colour through `color()`, and `RaySource.duplicate` takes the angle from `dir.heading()`. A built beam has no rays until it is first resized or its frequency is edited.
- `Filter`. Neither `Filter` nor `Line` has a static `build`, so the editor's `mouse.building.build(mouse)` throws for them and a filter is never placed. A filter in the scene would also make the trace throw a TypeError, since it has no `returnRay`. Scene surfaces do not include it.
- The tools (ruler and protractor), which are measurement overlays.
- Floating point. Reals replace doubles, and the `1e-5`, `1e-6` and `den === 0` tests are exact.
- The transcendental functions. Sine, cosine, arcsine, arccosine, square root, `heading`, `rotate`, `normalize` and `angleBetween` are parameters with no stated properties. So the model proves no Snell's-law or angle facts. Refracted, circle-hit and lens directions are stated only in terms of these functions.
- Rays.LensDir: a ray that meets a lens exactly along its surface (cosine 0) makes the source divide by zero and compute with infinities. That direction is a parameter of the model.
- Rays.DoesCollide: for a circle or an arc, the two points away from the centre come from `acos` and `rotate`. The contract states only that there are at most two and that they are ahead of the ray.
- Polygon refraction. `PolygonalBlock.returnRay` reads `pt.line`, which `collWithLine` never sets, so it throws after recording the end. The model keeps the throw and has no polygon refraction direction.
- Rays.Ray.Handle: the depth of the recursion is bounded by a `fuel` parameter. Running out of fuel throws, as the call that overflows the JavaScript stack does. Deeper traces are not modelled.
- Rays.Ray.Handle: block surfaces need a positive refractive index (`Surface.WellFormed`). The editor keeps it between 1 and 3.5, and an index of -1 would make the Fresnel formula divide by zero.
- `Ray`'s constructor with a numeric direction (an angle), which no modelled code uses.
- Sources.Beam.SetDir: the shift-key angle snapping is not modelled. It tests `heading() % QUARTER_PI === 0` on doubles, and the model has no `heading` properties.
- Sources.Beam.SetDir: `Valid()` and `Placed()` are required. These are the invariants every constructor and operation of the beam keeps.
- Beam's first `setPos(x, y)` (sources.js:194-196). The later `setPos(target, off)` in the same class body replaces it, so it can never be called.
- The `resizer` tolerance of `Line.contains`. No line ever sets `resizer`, so the tolerance is always 6.
- Optics.Line.Duplicate: only the lens has `duplicate`. Mirror and void lines have none.
- A non-numeric frequency (NaN from `parseInt`) for the point light and the beam. Frequencies are natural numbers and positive reals.
- Misc.DupProp: the copies are new objects in the source, which a value model cannot show. The contract states the shape of the copy, not equality: only the lemma Misc.DupPropIsCopy states equality, and only for values whose colours hold stored levels.
- Misc.DupPropIsCopy: only values whose colours hold whole levels from 0 to 255 come back equal. A colour value with other levels comes back clamped and rounded, as `color(levels)` stores it.
- Sources.PointLight.Morph: when `int()` wraps the frequency to a negative number, the source's `resetRays` loop never ends. The model reports this as `hangs` and leaves the light unchanged, without modelling the endless loop.
- Rays.Ray.Handle: the record ties the heap to the trace one generation at a time. The kids' records start at the children's own origins, directions and colours. Below that, each record describes its ray as that ray's own `handle` left it.
- The colour of a point light or beam when its `fill` is missing. The constructors take the colour as given.
