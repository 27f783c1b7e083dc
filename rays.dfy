/** The ray tracer of ray.js: where a ray meets a segment, a circle or an arc, which hit
    is the nearest, what each kind of surface sends on (a reflection, a refraction split by
    a Fresnel estimate, a lens deflection, nothing), and the recursive trace that builds a
    ray's tree of children. The surfaces' own `returnRay` methods (optics.js, blocks.js,
    arc.js) are modelled here because they all act on a ray. */
module Rays {
  import opened Geometry
  import opened Misc
  import opened Shapes
  import opened Arcs

  /** Hits closer than this (squared distance) to the ray's origin are ignored, so a ray
      leaving a surface does not hit that surface again at its own start. */
  const SelfHitEps: real := 0.000001
  /** A squared distance of the circle's centre from the ray's line at most this puts the
      line through the centre. */
  const DegenerateEps: real := 0.00001

  // ---------------------------------------------------------------------------------
  // Ray against segment

  /** `collWithLine(obj)`, with the source's coordinates x1..y4 (the segment's two ends,
      the ray's origin and origin plus direction) and its determinant `den`. */
  function CollWithLine(seg: Segment, pos: Vec, dir: Vec): (r: Option<Vec>)
    ensures Cross(seg.displacement, dir) == 0.0 ==> r.None?
    ensures r.Some? <==>
      Cross(seg.displacement, dir) != 0.0 &&
      0.0 < SegParam(seg, pos, dir) < 1.0 && RayParam(seg, pos, dir) > 0.0
    ensures r.Some? ==>
      && r.value == Add(seg.pos, Scale(seg.displacement, SegParam(seg, pos, dir)))
      && r.value == Add(pos, Scale(dir, RayParam(seg, pos, dir)))
  {
    var x1, y1 := seg.pos.x, seg.pos.y;
    var x2, y2 := x1 + seg.displacement.x, y1 + seg.displacement.y;
    var x3, y3 := pos.x, pos.y;
    var x4, y4 := x3 + dir.x, y3 + dir.y;
    var den := (x1 - x2) * (y3 - y4) - (y1 - y2) * (x3 - x4);
    if den == 0.0 then None
    else
      var t := ((x1 - x3) * (y3 - y4) - (y1 - y3) * (x3 - x4)) / den;
      var u := -((x1 - x2) * (y1 - y3) - (y1 - y2) * (x1 - x3)) / den;
      assert den == Cross(seg.displacement, dir);
      assert t == SegParam(seg, pos, dir) && u == RayParam(seg, pos, dir);
      if t > 0.0 && t < 1.0 && u > 0.0 then
        LinesMeet(seg.pos, seg.displacement, pos, dir);
        Some(Vec(x1 + t * (x2 - x1), y1 + t * (y2 - y1)))
      else None
  }

  /** Where along the segment (0 at its start, 1 at its end) the two lines cross, by
      Cramer's rule. */
  function SegParam(seg: Segment, pos: Vec, dir: Vec): real
    requires Cross(seg.displacement, dir) != 0.0
  {
    Cross(Sub(pos, seg.pos), dir) / Cross(seg.displacement, dir)
  }

  /** Where along the ray, in units of its direction, the two lines cross. */
  function RayParam(seg: Segment, pos: Vec, dir: Vec): real
    requires Cross(seg.displacement, dir) != 0.0
  {
    Cross(Sub(pos, seg.pos), seg.displacement) / Cross(seg.displacement, dir)
  }

  /** The two parameters name the same point of the plane. */
  lemma LinesMeet(p: Vec, d: Vec, q: Vec, r: Vec)
    requires Cross(d, r) != 0.0
    ensures var w := Sub(q, p);
      Add(p, Scale(d, Cross(w, r) / Cross(d, r))) == Add(q, Scale(r, Cross(w, d) / Cross(d, r)))
  {
    var w, c := Sub(q, p), Cross(d, r);
    var a, b := Cross(w, r), Cross(w, d);
    var t, u := a / c, b / c;
    assert t * c == a && u * c == b;
    assert (t * d.x - u * r.x) * c == a * d.x - b * r.x == w.x * c;
    assert (t * d.y - u * r.y) * c == a * d.y - b * r.y == w.y * c;
    CancelMul(t * d.x - u * r.x, w.x, c);
    CancelMul(t * d.y - u * r.y, w.y, c);
  }

  // ---------------------------------------------------------------------------------
  // Ahead of the ray

  /** `withinSegment(pt)`: on each axis where the direction moves, the point is not behind
      the origin. */
  function WithinSegment(pos: Vec, dir: Vec, pt: Vec): bool
  {
    (dir.x == 0.0 || (if dir.x > 0.0 then pt.x >= pos.x else pt.x <= pos.x)) &&
    (dir.y == 0.0 || (if dir.y > 0.0 then pt.y >= pos.y else pt.y <= pos.y))
  }

  /** The test as a sign condition: the offset of the point agrees in sign with the
      direction on both axes (a zero direction component constrains nothing). */
  lemma WithinSegmentSigns(pos: Vec, dir: Vec, pt: Vec)
    ensures WithinSegment(pos, dir, pt) <==>
      (pt.x - pos.x) * dir.x >= 0.0 && (pt.y - pos.y) * dir.y >= 0.0
  {
    SameSign(pt.x - pos.x, dir.x);
    SameSign(pt.y - pos.y, dir.y);
  }

  lemma SameSign(a: real, b: real)
    ensures a * b >= 0.0 <==> b == 0.0 || (b > 0.0 && a >= 0.0) || (b < 0.0 && a <= 0.0)
  {
    var c := a * b;
    if b > 0.0 && a < 0.0 { MulPos(-a, b, -c); }
    if b < 0.0 && a > 0.0 { MulPos(a, -b, -c); }
    if b > 0.0 && a >= 0.0 { MulNonNeg(a, b, c); }
    if b < 0.0 && a <= 0.0 { MulNonNeg(-a, -b, c); }
  }

  /** Every point of the forward half-line passes the test, and no point strictly behind
      the origin does. */
  lemma WithinSegmentHalfLine(pos: Vec, dir: Vec, u: real)
    requires dir != Zero
    ensures WithinSegment(pos, dir, Add(pos, Scale(dir, u))) <==> u >= 0.0
  {
    var p := Add(pos, Scale(dir, u));
    WithinSegmentSigns(pos, dir, p);
    var sx, sy := dir.x * dir.x, dir.y * dir.y;
    assert (p.x - pos.x) * dir.x == u * sx;
    assert (p.y - pos.y) * dir.y == u * sy;
    SquareNonNeg(dir.x, sx);
    SquareNonNeg(dir.y, sy);
    if u >= 0.0 {
      MulNonNeg(u, sx, u * sx);
      MulNonNeg(u, sy, u * sy);
    } else if dir.x != 0.0 {
      SquarePos(dir.x, sx);
      MulPos(-u, sx, -(u * sx));
    } else {
      SquarePos(dir.y, sy);
      MulPos(-u, sy, -(u * sy));
    }
  }

  // ---------------------------------------------------------------------------------
  // Reflection

  /** The direction `Ray.reflect` gives a ray with direction `d` at a surface along `s`:
      `2(d·s)s - d`. */
  function Reflect(d: Vec, s: Vec): Vec
  {
    var dd := 2.0 * (d.x * s.x + d.y * s.y);
    Vec(s.x * dd - d.x, s.y * dd - d.y)
  }

  /** For a unit surface vector the reflection keeps the component along the surface,
      negates the one across it, keeps the length, and undoes itself. */
  lemma ReflectUnit(d: Vec, s: Vec)
    requires MagSq(s) == 1.0
    ensures Dot(Reflect(d, s), s) == Dot(d, s)
    ensures Cross(Reflect(d, s), s) == -Cross(d, s)
    ensures MagSq(Reflect(d, s)) == MagSq(d)
    ensures Reflect(Reflect(d, s), s) == d
  {
    var r, k := Reflect(d, s), Dot(d, s);
    ReflectComponents(d, s, k, r);
    Lagrange(r, s);
    Lagrange(d, s);
    SameSquares(Dot(r, s), k, Cross(r, s), Cross(d, s));
    ReflectAgain(d, s, k, r);
  }

  /** The reflection `2ks - d`, taken apart along and across a unit `s`. */
  lemma ReflectComponents(d: Vec, s: Vec, k: real, r: Vec)
    requires MagSq(s) == 1.0 && k == Dot(d, s) && r == Reflect(d, s)
    ensures r == Sub(Scale(s, 2.0 * k), d)
    ensures Dot(r, s) == k && Cross(r, s) == -Cross(d, s)
  {
    assert Dot(r, s) == 2.0 * k * MagSq(s) - k;
  }

  lemma SameSquares(a: real, b: real, c: real, e: real)
    requires a == b && c == -e
    ensures a * a + c * c == b * b + e * e
  {
  }

  /** Reflecting `2ks - d` again gives `2ks - (2ks - d)`. */
  lemma ReflectAgain(d: Vec, s: Vec, k: real, r: Vec)
    requires r == Sub(Scale(s, 2.0 * k), d) && Dot(r, s) == k
    ensures Reflect(r, s) == d
  {
    var dd := 2.0 * (r.x * s.x + r.y * s.y);
    assert dd == 2.0 * k;
    assert r.x == s.x * dd - d.x && r.y == s.y * dd - d.y;
  }

  // ---------------------------------------------------------------------------------
  // The thin lens

  /** The centre of a lens segment, `O` in `Lens.returnRay`. */
  function LensCentre(seg: Segment): Vec
  {
    Add(seg.pos, Scale(seg.displacement, 0.5))
  }

  /** The cosine of the angle between the ray and the lens's normal. */
  function LensCos(seg: Segment, rayDir: Vec, m: Trig): real
  {
    m.cos(m.angleBetween(seg.dir, rayDir) - HalfPi)
  }

  /** The point every ray with direction `rayDir` is sent towards, `O + OP`: the
      centre plus the incoming direction stretched to `f / cos` of the incidence. */
  function FocalPoint(seg: Segment, f: real, rayDir: Vec, m: Trig): Vec
    requires LensCos(seg, rayDir, m) != 0.0
  {
    Add(LensCentre(seg), Scale(rayDir, f / LensCos(seg, rayDir, m)))
  }

  /** `OP - (pt - O)`, the vector from the point of incidence to the focal point,
      computed in the source's order. */
  function LensAim(seg: Segment, f: real, rayDir: Vec, pt: Vec, m: Trig): (r: Vec)
    requires LensCos(seg, rayDir, m) != 0.0
    ensures Add(pt, r) == FocalPoint(seg, f, rayDir, m)
  {
    Sub(Scale(rayDir, f / LensCos(seg, rayDir, m)), Sub(pt, LensCentre(seg)))
  }

  /** The direction `Lens.returnRay` gives the new ray: the normalised aim at the focal
      point, times the sign of the focal length. */
  function LensDir(seg: Segment, f: real, rayDir: Vec, pt: Vec, m: Trig): Vec
  {
    if LensCos(seg, rayDir, m) == 0.0 then m.grazingLensDir(seg, f, rayDir, pt)
    else Scale(m.normalize(LensAim(seg, f, rayDir, pt, m)), Sign(f))
  }

  /** Parallel rays meet at one point. Every ray with the same direction, wherever it
      crosses the lens, leaves it aimed at the same focal point: towards it for a
      converging lens, directly away from it for a diverging one, and with no direction
      at all for a focal length of 0. */
  lemma LensFocus(seg: Segment, f: real, rayDir: Vec, pt: Vec, m: Trig)
    requires LensCos(seg, rayDir, m) != 0.0
    ensures var aim := Sub(FocalPoint(seg, f, rayDir, m), pt);
      && (f > 0.0 ==> LensDir(seg, f, rayDir, pt, m) == m.normalize(aim))
      && (f < 0.0 ==> LensDir(seg, f, rayDir, pt, m) == Scale(m.normalize(aim), -1.0))
      && (f == 0.0 ==> LensDir(seg, f, rayDir, pt, m) == Zero)
  {
    var aim := LensAim(seg, f, rayDir, pt, m);
    assert aim == Sub(FocalPoint(seg, f, rayDir, m), pt);
  }


  /** |v|²|s|² = (v·s)² + (v×s)². */
  lemma Lagrange(v: Vec, s: Vec)
    ensures MagSq(v) * MagSq(s) == Dot(v, s) * Dot(v, s) + Cross(v, s) * Cross(v, s)
  {
  }

  // ---------------------------------------------------------------------------------
  // Ray against circle and arc

  /** `getNormal(p, a, ab)`: the point `a + ((p - a)·ab) ab`. */
  function Foot(p: Vec, a: Vec, ab: Vec): Vec
  {
    Add(Scale(ab, Dot(Sub(p, a), ab)), a)
  }

  /** For a unit direction this is the foot of the perpendicular from `p` onto the line
      through `a`: it lies on the line and `p` is straight across from it. */
  lemma FootPerpendicular(p: Vec, a: Vec, ab: Vec)
    requires MagSq(ab) == 1.0
    ensures Dot(Sub(p, Foot(p, a, ab)), ab) == 0.0
    ensures Foot(p, a, ab) == Add(a, Scale(ab, Dot(Sub(p, a), ab)))
  {
    var k := Dot(Sub(p, a), ab);
    assert Dot(Sub(p, Foot(p, a, ab)), ab) == k - k * MagSq(ab);
  }

  /** `getCircleIntersectPts(obj, dSq, normal)`. When the line passes through the centre
      the source builds both points in one vector object: it adds the centre, negates,
      and adds the centre again, so both entries are that object. Otherwise the foot of
      the perpendicular is turned by ±acos(d/r) about the centre. */
  function CirclePoints(dir: Vec, centre: Vec, r: real, dSq: real, normal: Vec, m: Trig)
    : (pts: seq<Vec>)
    requires dSq <= r * r
    ensures |pts| == 2
    ensures dSq <= DegenerateEps ==> pts[0] == pts[1] == Scale(dir, -r)
  {
    if dSq <= DegenerateEps then
      var v := Add(Scale(dir, r), centre);
      var w := Add(Scale(v, -1.0), centre);
      [w, w]
    else
      var a := m.acos(m.sqrt(dSq) / r);
      var baseDir := Scale(m.normalize(Sub(normal, centre)), r);
      [Add(m.rotate(baseDir, a), centre), Add(m.rotate(baseDir, -a), centre)]
  }

  /** The points of `pts` that pass the forward test, in order. */
  function Ahead(pos: Vec, dir: Vec, pts: seq<Vec>): (r: seq<Vec>)
    ensures forall p :: p in r <==> p in pts && WithinSegment(pos, dir, p)
    ensures |r| <= |pts|
  {
    if pts == [] then []
    else (if WithinSegment(pos, dir, pts[0]) then [pts[0]] else []) + Ahead(pos, dir, pts[1..])
  }

  /** The points of `pts` whose heading from the centre lies on the arc, in order. */
  function OnArc(centre: Vec, angleS: real, angleD: real, pts: seq<Vec>, m: Trig): (r: seq<Vec>)
    ensures forall p :: p in r <==> p in pts && WithinArc(angleS, angleD, m.heading(Sub(p, centre)))
    ensures |r| <= |pts|
  {
    if pts == [] then []
    else
      (if WithinArc(angleS, angleD, m.heading(Sub(pts[0], centre))) then [pts[0]] else [])
      + OnArc(centre, angleS, angleD, pts[1..], m)
  }

  /** The hits of a ray on a polygon's edges, edge by edge, misses dropped. */
  function EdgeHits(segs: seq<Segment>, pos: Vec, dir: Vec): (r: seq<Vec>)
    ensures |r| <= |segs|
    ensures forall p :: p in r <==> exists k :: 0 <= k < |segs| && CollWithLine(segs[k], pos, dir) == Some(p)
  {
    if segs == [] then []
    else
      var rest := EdgeHits(segs[1..], pos, dir);
      assert forall k :: 1 <= k < |segs| ==> segs[k] == segs[1..][k - 1];
      match CollWithLine(segs[0], pos, dir)
      case Some(p) => [p] + rest
      case None => rest
  }

  /** `doesCollide(obj)`: a polygon's edge hits, the forward hits on a circle (on an arc,
      those on its angular range as well) once the line comes within the radius of the
      centre, or a line surface's single hit. */
  function DoesCollide(pos: Vec, dir: Vec, s: Surface, m: Trig): (r: seq<Vec>)
    ensures s.Polygon? ==> |r| <= |s.segments|
    ensures s.Circular? || s.ArcMirror? ==> |r| <= 2 && forall p :: p in r ==> WithinSegment(pos, dir, p)
    ensures s.Mirror? || s.Void? || s.Lens? ==>
      match CollWithLine(s.seg, pos, dir)
      case Some(p) => r == [p]
      case None => r == []
  {
    match s
    case Polygon(segs, _) => EdgeHits(segs, pos, dir)
    case Circular(c, radius, _) => Ahead(pos, dir, CircleCandidates(pos, dir, c, radius, m))
    case ArcMirror(c, radius, angleS, angleD) =>
      Ahead(pos, dir, OnArc(c, angleS, angleD, CircleCandidates(pos, dir, c, radius, m), m))
    case Mirror(seg) => HitList(CollWithLine(seg, pos, dir))
    case Void(seg) => HitList(CollWithLine(seg, pos, dir))
    case Lens(seg, _) => HitList(CollWithLine(seg, pos, dir))
  }

  /** The two points of the circle on the ray's line, once the foot of the perpendicular
      from the centre lies within the radius; no points otherwise. */
  function CircleCandidates(pos: Vec, dir: Vec, c: Vec, radius: real, m: Trig): (r: seq<Vec>)
    ensures |r| == 0 || |r| == 2
  {
    var normal := Foot(c, pos, dir);
    var dSq := MagSq(Sub(normal, c));
    if dSq <= radius * radius then CirclePoints(dir, c, radius, dSq, normal, m) else []
  }

  function HitList(hit: Option<Vec>): seq<Vec>
  {
    match hit
    case Some(p) => [p]
    case None => []
  }

  /** A line surface is hit strictly between its ends and strictly ahead of the ray. */
  lemma LineSurfaceHit(pos: Vec, dir: Vec, s: Surface, m: Trig, p: Vec)
    requires s.Mirror? || s.Void? || s.Lens?
    requires p in DoesCollide(pos, dir, s, m)
    ensures Cross(s.seg.displacement, dir) != 0.0
    ensures 0.0 < SegParam(s.seg, pos, dir) < 1.0 && RayParam(s.seg, pos, dir) > 0.0
    ensures p == Add(pos, Scale(dir, RayParam(s.seg, pos, dir)))
  {
  }

  /** When a unit-direction ray passes through a circle's centre, the points reported are
      both `-r·dir`: measured from the canvas origin rather than from the centre. */
  lemma CircleThroughCentre(pos: Vec, dir: Vec, radius: real, n: real, m: Trig)
    ensures var r := DoesCollide(pos, dir, Circular(pos, radius, n), m);
      forall p :: p in r ==> p == Scale(dir, -radius)
  {
    var rr := radius * radius;
    SquareNonNeg(radius, rr);
    FootAtOrigin(pos, dir);
    var pts := CircleCandidates(pos, dir, pos, radius, m);
    assert pts == CirclePoints(dir, pos, radius, 0.0, pos, m);
  }

  lemma FootAtOrigin(pos: Vec, dir: Vec)
    ensures Foot(pos, pos, dir) == pos
    ensures MagSq(Sub(Foot(pos, pos, dir), pos)) == 0.0
  {
    assert Dot(Sub(pos, pos), dir) == 0.0;
    assert Scale(dir, 0.0) == Zero;
  }

  // ---------------------------------------------------------------------------------
  // The nearest hit

  /** The candidate points of every object of the scene, object by object. */
  function CandidateTable(pos: Vec, dir: Vec, objects: seq<Surface>, m: Trig): (t: seq<seq<Vec>>)
    ensures |t| == |objects|
    ensures forall o :: 0 <= o < |objects| ==> t[o] == DoesCollide(pos, dir, objects[o], m)
  {
    seq(|objects|, o requires 0 <= o < |objects| => DoesCollide(pos, dir, objects[o], m))
  }

  /** `p5.Vector.sub(this.pos, pt).magSq()`. */
  function DistSqFrom(pos: Vec, p: Vec): real
  {
    MagSq(Sub(pos, p))
  }

  /** Point `j` of object `o` is far enough from the origin to count. */
  predicate Candidate(pos: Vec, table: seq<seq<Vec>>, o: int, j: int)
  {
    0 <= o < |table| && 0 <= j < |table[o]| && DistSqFrom(pos, table[o][j]) > SelfHitEps
  }

  /** (o1, j1) comes before (o2, j2) in the order the scene is searched. */
  predicate Before(o1: int, j1: int, o2: int, j2: int)
  {
    o1 < o2 || (o1 == o2 && j1 < j2)
  }

  /** Point `j` of object `o` is the hit `handle` selects: a candidate no further than any
      other and strictly nearer than every candidate searched before it. */
  ghost predicate IsNearestAt(pos: Vec, table: seq<seq<Vec>>, o: int, j: int)
  {
    && Candidate(pos, table, o, j)
    && (forall o2, j2 | Candidate(pos, table, o2, j2) ::
          DistSqFrom(pos, table[o][j]) <= DistSqFrom(pos, table[o2][j2]))
    && (forall o2, j2 | Candidate(pos, table, o2, j2) && Before(o2, j2, o, j) ::
          DistSqFrom(pos, table[o][j]) < DistSqFrom(pos, table[o2][j2]))
  }

  ghost predicate NoCandidate(pos: Vec, table: seq<seq<Vec>>)
  {
    forall o, j :: !Candidate(pos, table, o, j)
  }

  /** The selected hit is determined: ties go to the first candidate searched. */
  lemma NearestUnique(pos: Vec, table: seq<seq<Vec>>, o1: int, j1: int, o2: int, j2: int)
    requires IsNearestAt(pos, table, o1, j1) && IsNearestAt(pos, table, o2, j2)
    ensures o1 == o2 && j1 == j2
  {
  }

  /** The search loops of `handle`: objects in order, their points in order, keeping the
      first point of smallest squared distance above the self-hit threshold. */
  method FindClosest(pos: Vec, table: seq<seq<Vec>>) returns (found: bool, o: int, j: int)
    ensures found ==> IsNearestAt(pos, table, o, j)
    ensures !found ==> NoCandidate(pos, table)
  {
    found, o, j := false, 0, 0;
    var record := 0.0;
    var a := 0;
    while a < |table|
      invariant 0 <= a <= |table|
      invariant found ==> Candidate(pos, table, o, j) && o < a && record == DistSqFrom(pos, table[o][j])
      invariant SearchedUpTo(pos, table, found, o, j, a, 0)
    {
      var b := 0;
      while b < |table[a]|
        invariant 0 <= b <= |table[a]|
        invariant found ==> Candidate(pos, table, o, j) && Before(o, j, a, b) && record == DistSqFrom(pos, table[o][j])
        invariant SearchedUpTo(pos, table, found, o, j, a, b)
      {
        var d := DistSqFrom(pos, table[a][b]);
        if (!found || d < record) && d > SelfHitEps {
          found, o, j, record := true, a, b, d;
        }
        b := b + 1;
      }
      a := a + 1;
    }
  }

  /** The loop invariant of the search: among the candidates searched before (a, b), the
      kept one is nearest and strictly nearer than those searched before it; without a
      kept one there was no candidate. */
  ghost predicate SearchedUpTo(pos: Vec, table: seq<seq<Vec>>, found: bool, o: int, j: int, a: int, b: int)
    requires found ==> 0 <= o < |table| && 0 <= j < |table[o]|
  {
    && (!found ==> forall o2, j2 | Candidate(pos, table, o2, j2) :: !Before(o2, j2, a, b))
    && (found ==> forall o2, j2 | Candidate(pos, table, o2, j2) && Before(o2, j2, a, b) ::
          DistSqFrom(pos, table[o][j]) <= DistSqFrom(pos, table[o2][j2]))
    && (found ==> forall o2, j2 | Candidate(pos, table, o2, j2) && Before(o2, j2, o, j) ::
          DistSqFrom(pos, table[o][j]) < DistSqFrom(pos, table[o2][j2]))
  }

  // ---------------------------------------------------------------------------------
  // What a surface sends on

  /** One outgoing ray: its direction and its colour levels ([r, g, b, alpha]). */
  datatype Outgoing = Outgoing(dir: Vec, levels: seq<real>)

  /** The result of `returnRay`: it throws (a polygon reads a field its hit point does not
      have), or it returns these rays; `sharesColor` says they hold the incoming ray's
      colour object itself rather than a copy. */
  datatype Emission = Throws | Emits(rays: seq<Outgoing>, sharesColor: bool)

  /** The Schlick estimate of the reflected fraction at index `n` for cos(i) = `cosI`. */
  function Reflectance(n: real, cosI: real): real
    requires n > 0.0
  {
    var q := (1.0 - n) / (1.0 + n);
    var r0 := q * q;
    var c := 1.0 - cosI;
    r0 + (1.0 - r0) * (c * c * c * c * c)
  }

  /** For an index above 0 and an angle of incidence within a right angle, the reflected
      fraction is a fraction, so the refracted fraction is too and the two share the
      incoming intensity exactly. */
  lemma ReflectanceBounds(n: real, cosI: real, intensity: real)
    requires n > 0.0 && 0.0 <= cosI <= 1.0
    ensures 0.0 <= Reflectance(n, cosI) <= 1.0
    ensures (1.0 - Reflectance(n, cosI)) * intensity + Reflectance(n, cosI) * intensity == intensity
  {
    var q := (1.0 - n) / (1.0 + n);
    assert -1.0 < q < 1.0 by {
      assert q * (1.0 + n) == 1.0 - n;
    }
    var r0 := q * q;
    SquareNonNeg(q, r0);
    MulLeOne(Abs(q), Abs(q), r0);
    var c := 1.0 - cosI;
    var c2, c4 := c * c, c * c * c * c;
    MulLeOne(c, c, c2);
    MulLeOne(c2, c2, c4);
    var c5 := c * c * c * c * c;
    MulLeOne(c4, c, c5);
    MulLeOne(c5, 1.0 - r0, (1.0 - r0) * c5);
  }

  /** An angle whose sine is `x` exists exactly when |x| <= 1; otherwise `asin` gives NaN. */
  predicate AsinDefined(x: real)
  {
    -1.0 <= x <= 1.0
  }

  /** Entering a denser medium never loses the refracted ray: the sine of the refraction
      angle stays within [-1, 1]. */
  lemma IntoNeverTotal(sinI: real, n: real)
    requires -1.0 <= sinI <= 1.0 && n >= 1.0
    ensures AsinDefined(sinI / n)
  {
    var q := sinI / n;
    assert q * n == sinI;
    if q > 1.0 { MulPos(q - 1.0, n, (q - 1.0) * n); }
    if q < -1.0 { MulPos(-1.0 - q, n, (-1.0 - q) * n); }
  }

  /** The sine of the refraction angle: Snell's law entering (`into`) or leaving a block
      of index `n`, for an angle of incidence `i`. */
  function RefractSine(into: bool, i: real, n: real, m: Trig): real
    requires n > 0.0
  {
    if into then m.sin(i) / n else m.sin(i) * n
  }

  /** The refracted direction: the surface direction turned towards the normal by the
      complement of the refraction angle, one way entering and the other leaving. */
  function RefractDir(into: bool, s: Vec, i: real, n: real, m: Trig): Vec
    requires n > 0.0
  {
    var angle := HalfPi - m.asin(RefractSine(into, i, n, m));
    m.rotate(s, if into then angle else -angle)
  }

  /** A split at a block's surface: the refracted ray carries (1 - R) of the intensity and
      the reflected ray R, and each is kept only when its intensity is at least 1. */
  function Split(refractDir: Vec, reflectDir: Vec, reflection: real, levels: seq<real>): (r: seq<Outgoing>)
    requires |levels| == 4
    ensures forall k :: 0 <= k < |r| ==> |r[k].levels| == 4
    ensures forall k :: 0 <= k < |r| ==> r[k].levels[..3] == CopyLevels(levels)[..3]
    ensures |r| <= 2
  {
    var refracted := (1.0 - reflection) * levels[3];
    var reflected := reflection * levels[3];
    var copy := CopyLevels(levels);
    (if refracted >= 1.0 then [Outgoing(refractDir, copy[3 := refracted])] else [])
    + (if reflected >= 1.0 then [Outgoing(reflectDir, copy[3 := reflected])] else [])
  }

  /** A proof step: `Split` with its two shares given as arguments. */
  lemma SplitParts(refractDir: Vec, reflectDir: Vec, reflection: real, levels: seq<real>,
                   refracted: real, reflected: real)
    requires |levels| == 4
    requires refracted == (1.0 - reflection) * levels[3] && reflected == reflection * levels[3]
    ensures Split(refractDir, reflectDir, reflection, levels)
      == (if refracted >= 1.0 then [Outgoing(refractDir, CopyLevels(levels)[3 := refracted])] else [])
       + (if reflected >= 1.0 then [Outgoing(reflectDir, CopyLevels(levels)[3 := reflected])] else [])
  {
  }

  /** The keep rule of a split, read off its result: the refracted share is sent, and
      sent first, exactly when it is at least 1; the reflected share is sent, and sent
      last, exactly when it is at least 1; and nothing else is sent. */
  lemma SplitKeepRule(refractDir: Vec, reflectDir: Vec, reflection: real, levels: seq<real>)
    requires |levels| == 4
    ensures var r := Split(refractDir, reflectDir, reflection, levels);
      var refracted, reflected := (1.0 - reflection) * levels[3], reflection * levels[3];
      && (refracted >= 1.0 <==>
            |r| > 0 && r[0] == Outgoing(refractDir, CopyLevels(levels)[3 := refracted]))
      && (reflected >= 1.0 <==>
            |r| > 0 && r[|r| - 1] == Outgoing(reflectDir, CopyLevels(levels)[3 := reflected]))
      && |r| == (if refracted >= 1.0 then 1 else 0) + (if reflected >= 1.0 then 1 else 0)
  {
    var r := Split(refractDir, reflectDir, reflection, levels);
    var refracted, reflected := (1.0 - reflection) * levels[3], reflection * levels[3];
    var first := Outgoing(refractDir, CopyLevels(levels)[3 := refracted]);
    var second := Outgoing(reflectDir, CopyLevels(levels)[3 := reflected]);
    assert first.levels[3] == refracted && second.levels[3] == reflected;
    assert r == (if refracted >= 1.0 then [first] else []) + (if reflected >= 1.0 then [second] else []);
  }

  /** `Ray.refract(func, ray, surface, i, object)` as the rays it returns. Leaving the
      medium with no refraction angle gives the reflected ray alone, with the incoming
      intensity; otherwise the rays of the split, with the reflectance of the surface. */
  function RefractOutgoing(into: bool, d: Vec, s: Vec, i: real, n: real, levels: seq<real>, m: Trig)
    : (r: seq<Outgoing>)
    requires n > 0.0 && |levels| == 4
    ensures forall k :: 0 <= k < |r| ==> |r[k].levels| == 4
    ensures forall k :: 0 <= k < |r| ==> r[k].levels[..3] == CopyLevels(levels)[..3]
    ensures |r| <= 2
  {
    if !into && !AsinDefined(RefractSine(into, i, n, m)) then [Outgoing(Reflect(d, s), CopyLevels(levels))]
    else Split(RefractDir(into, s, i, n, m), Reflect(d, s), Reflectance(n, m.cos(i)), levels)
  }

  /** Total internal reflection sends one ray, the reflection, with a copy of the
      incoming colour (whole levels from 0 to 255; see `CopyLevels`). */
  lemma RefractTotal(d: Vec, s: Vec, i: real, n: real, levels: seq<real>, m: Trig)
    requires n > 0.0 && |levels| == 4
    requires !AsinDefined(m.sin(i) * n)
    ensures RefractOutgoing(false, d, s, i, n, levels, m) == [Outgoing(Reflect(d, s), CopyLevels(levels))]
  {
  }

  /** Whatever is kept of a split, the kept intensities add up to at most the incoming
      one, and to exactly it when both parts are kept; every kept part has intensity at
      least 1. */
  lemma RefractSplit(into: bool, d: Vec, s: Vec, i: real, n: real, levels: seq<real>, m: Trig)
    requires n > 0.0 && |levels| == 4 && levels[3] >= 0.0 && 0.0 <= m.cos(i) <= 1.0
    requires into || AsinDefined(m.sin(i) * n)
    ensures var r := RefractOutgoing(into, d, s, i, n, levels, m);
      && (forall k :: 0 <= k < |r| ==> r[k].levels[3] >= 1.0 && r[k].levels[..3] == CopyLevels(levels)[..3])
      && (|r| == 2 ==> r[0].levels[3] + r[1].levels[3] == levels[3])
      && (|r| == 1 ==> r[0].levels[3] <= levels[3])
  {
    var reflection := Reflectance(n, m.cos(i));
    var refracted, reflected := (1.0 - reflection) * levels[3], reflection * levels[3];
    ReflectanceBounds(n, m.cos(i), levels[3]);
    MulNonNeg(reflection, levels[3], reflected);
    MulNonNeg(1.0 - reflection, levels[3], refracted);
    var copy := CopyLevels(levels);
    var first := Outgoing(RefractDir(into, s, i, n, m), copy[3 := refracted]);
    var second := Outgoing(Reflect(d, s), copy[3 := reflected]);
    assert first.levels[3] == refracted && first.levels[..3] == copy[..3];
    assert second.levels[3] == reflected && second.levels[..3] == copy[..3];
    SplitParts(RefractDir(into, s, i, n, m), Reflect(d, s), reflection, levels, refracted, reflected);
    assert RefractOutgoing(into, d, s, i, n, levels, m)
      == (if refracted >= 1.0 then [first] else []) + (if reflected >= 1.0 then [second] else []);
  }

  /** The unit tangent `CircularBlock.returnRay` uses at a point of its circle: the radius
      to `pt` turned by a right angle and divided by the radius (p5's `div` by 0 leaves
      the vector as it is). */
  function CircleTangent(centre: Vec, r: real, pt: Vec): Vec
  {
    var d := Sub(pt, centre);
    var t := Vec(-d.y, d.x);
    if r == 0.0 then t else Scale(t, 1.0 / r)
  }

  /** At a point of the circle the tangent is a unit vector across the radius. */
  lemma CircleTangentUnit(centre: Vec, r: real, pt: Vec)
    requires r > 0.0 && MagSq(Sub(pt, centre)) == r * r
    ensures MagSq(CircleTangent(centre, r, pt)) == 1.0
    ensures Dot(CircleTangent(centre, r, pt), Sub(pt, centre)) == 0.0
  {
    var d := Sub(pt, centre);
    var t := Vec(-d.y, d.x);
    assert MagSq(t) == MagSq(d);
    UnitAfterDivide(t, r);
  }

  /** What `closestObj.returnRay(ray, pt)` returns for a ray from `rayPos` along `rayDir`
      with colour `levels`, hitting at `pt`:
      a mirror reflects about its direction (optics.js), a void absorbs, a lens sends one
      ray along the lens direction with the same colour object, a circular block refracts
      about its tangent — out of the block when the midpoint of the ray's origin and the
      hit lies in the circle, into it otherwise — an arc reflects about the normalised
      radius turned by a right angle, and a polygon throws. */
  function Emitted(s: Surface, rayPos: Vec, rayDir: Vec, levels: seq<real>, pt: Vec, m: Trig)
    : (e: Emission)
    requires s.WellFormed() && |levels| == 4
    ensures e.Throws? <==> s.Polygon?
    ensures e.Emits? ==> forall k :: 0 <= k < |e.rays| ==> |e.rays[k].levels| == 4
    ensures e.Emits? && e.sharesColor ==> forall k :: 0 <= k < |e.rays| ==> e.rays[k].levels == levels
    ensures e.Emits? && !e.sharesColor ==>
      forall k :: 0 <= k < |e.rays| ==> e.rays[k].levels[..3] == CopyLevels(levels)[..3]
  {
    match s
    case Mirror(seg) => Emits([Outgoing(Reflect(rayDir, seg.dir), CopyLevels(levels))], false)
    case Void(_) => Emits([], false)
    case Lens(seg, f) => Emits([Outgoing(LensDir(seg, f, rayDir, pt, m), levels)], true)
    case Circular(c, r, n) =>
      var tangent := CircleTangent(c, r, pt);
      var i := HalfPi - m.angleBetween(rayDir, tangent);
      var outOf := CircleContains(c.x, c.y, r, Mid(rayPos, pt).x, Mid(rayPos, pt).y);
      Emits(RefractOutgoing(!outOf, rayDir, tangent, i, n, levels, m), false)
    case ArcMirror(c, _, _, _) =>
      var surface := m.normalize(m.rotate(Sub(pt, c), HalfPi));
      Emits([Outgoing(Reflect(rayDir, surface), CopyLevels(levels))], false)
    case Polygon(_, _) => Throws
  }

  /** A mirror sends exactly one ray, whose direction is the reflection; for a unit
      mirror direction that ray is as long as the incoming direction. */
  lemma MirrorEmitsReflection(seg: Segment, rayPos: Vec, rayDir: Vec, levels: seq<real>, pt: Vec, m: Trig)
    requires |levels| == 4 && MagSq(seg.dir) == 1.0
    ensures var e := Emitted(Mirror(seg), rayPos, rayDir, levels, pt, m);
      e.Emits? && |e.rays| == 1 && e.rays[0].levels == CopyLevels(levels) &&
      MagSq(e.rays[0].dir) == MagSq(rayDir) && Dot(e.rays[0].dir, seg.dir) == Dot(rayDir, seg.dir)
  {
    ReflectUnit(rayDir, seg.dir);
  }

  // ---------------------------------------------------------------------------------
  // Rays as objects

  /** Point `j` of object `o` is the nearest hit of the ray from `pos` along `dir`, and
      `pt` is that point. */
  ghost predicate NearestHit(pos: Vec, dir: Vec, objects: seq<Surface>, m: Trig, o: int, j: int, pt: Vec)
  {
    var table := CandidateTable(pos, dir, objects, m);
    IsNearestAt(pos, table, o, j) && pt == table[o][j]
  }

  predicate AllWellFormed(objects: seq<Surface>)
  {
    forall o :: 0 <= o < |objects| ==> objects[o].WellFormed()
  }

  /** The process-wide `calcWarning` flag: set when tracing a child ray failed, after
      which no further child rays are traced until the flag is cleared. */
  class TraceContext {
    var calcWarning: bool

    constructor ()
      ensures !calcWarning
    {
      calcWarning := false;
    }
  }

  /** The rays `rays` start at the object `start` and carry the directions and colours of
      `outs`, in order. */
  ghost predicate Realises(rays: seq<Ray>, outs: seq<Outgoing>, start: Vector)
    reads set r | r in rays :: r.dir
    reads set r | r in rays :: r.color
  {
    |rays| == |outs| && forall k :: 0 <= k < |rays| ==> RealisesOne(rays[k], outs[k], start)
  }

  /** The ray `r` starts at `start` and carries the direction and colour of `out`. */
  ghost predicate RealisesOne(r: Ray, out: Outgoing, start: Vector)
    reads r.dir, r.color
  {
    r.pos == start && r.dir.Value() == out.dir && r.color.levels == out.levels
  }

  /** The hit a trace found: object `o`, its candidate point `j`, and that point. */
  datatype Hit = Hit(o: int, j: int, pt: Vec)

  /** What a trace recorded at one ray: its origin, direction and colour levels, the hit
      (none when nothing lay ahead), and the records of the rays it returned, in order. */
  datatype Record = Record(pos: Vec, dir: Vec, levels: seq<real>, hit: Option<Hit>, kids: seq<Record>)

  /** One generation of a trace, on recorded values: with no hit there is no candidate
      ahead and no child; otherwise the hit is the nearest one and the children start at
      it with the directions and colours the hit object emits. */
  ghost predicate StepOk(r: Record, objects: seq<Surface>, m: Trig)
    requires AllWellFormed(objects)
  {
    match r.hit
    case None => NoCandidate(r.pos, CandidateTable(r.pos, r.dir, objects, m)) && r.kids == []
    case Some(h) =>
      && |r.levels| == 4
      && NearestHit(r.pos, r.dir, objects, m, h.o, h.j, h.pt)
      && var e := Emitted(objects[h.o], r.pos, r.dir, r.levels, h.pt, m);
         && e.Emits? && |r.kids| == |e.rays|
         && forall k :: 0 <= k < |r.kids| ==>
              r.kids[k].pos == h.pt && r.kids[k].dir == e.rays[k].dir && r.kids[k].levels == e.rays[k].levels
  }

  /** A trace `depth` generations deep: every generation is a `StepOk` one, and the
      records `depth` generations down have no children. */
  ghost predicate TraceOk(r: Record, objects: seq<Surface>, m: Trig, depth: nat)
    requires AllWellFormed(objects)
    decreases depth
  {
    && StepOk(r, objects, m)
    && (depth == 0 ==> r.kids == [])
    && (depth > 0 ==> forall k :: 0 <= k < |r.kids| ==> TraceOk(r.kids[k], objects, m, depth - 1))
  }

  /** A ray: its origin and direction (vector objects it may share with a light source
      or with its parent's hit point), its colour, and what the last trace left: the end
      point and the child rays. */
  class Ray {
    const pos: Vector
    const dir: Vector
    const color: Color
    var children: seq<Ray>
    var end: Vector?
    /** The object and the point of it that the last trace selected, for the proof. */
    ghost var hitObject: int
    ghost var hitPoint: int

    constructor (pos: Vector, dir: Vector, color: Color)
      ensures this.pos == pos && this.dir == dir && this.color == color
      ensures children == [] && end == null
    {
      this.pos := pos;
      this.dir := dir;
      this.color := color;
      children := [];
      end := null;
    }

    /** `setIntensity(intensity)`: the alpha level becomes `intensity`; the ray is worth
        keeping when that is at least 1. */
    method SetIntensity(intensity: real) returns (kept: bool)
      requires color.Valid()
      modifies color
      ensures color.levels == old(color.levels)[3 := intensity]
      ensures color.Valid()
      ensures kept <==> intensity >= 1.0
    {
      color.levels := color.levels[3 := intensity];
      kept := intensity >= 1.0;
    }

    /** The state a completed trace leaves: with no candidate hit, no end and no
        children; otherwise `end` is the nearest hit and the children are exactly the
        rays the hit object returns, in order. */
    ghost predicate Traced(objects: seq<Surface>, m: Trig)
      requires AllWellFormed(objects)
      reads this`end, this`children, this`hitObject, this`hitPoint, pos, dir, color, end
      reads set c | c in children :: c.dir
      reads set c | c in children :: c.color
    {
      var p, d := pos.Value(), dir.Value();
      if end == null then
        NoCandidate(p, CandidateTable(p, d, objects, m)) && children == []
      else
        && |color.levels| == 4
        && NearestHit(p, d, objects, m, hitObject, hitPoint, end.Value())
        && var e := Emitted(objects[hitObject], p, d, color.levels, end.Value(), m);
           e.Emits? && Realises(children, e.rays, end)
    }

    /** The record `t` starts from this ray's origin, direction and colour. */
    ghost predicate Roots(t: Record)
      reads pos, dir, color
    {
      t.pos == pos.Value() && t.dir == dir.Value() && t.levels == color.levels
    }

    /** This ray as it stands, as a record whose children's records are `kids`. */
    ghost function Tree(kids: seq<Record>): (t: Record)
      reads this`end, this`hitObject, this`hitPoint, pos, dir, color, end
      ensures Roots(t) && t.kids == kids
    {
      var hit := if end == null then None else Some(Hit(hitObject, hitPoint, end.Value()));
      Record(pos.Value(), dir.Value(), color.levels, hit, kids)
    }

    /** `t` records the whole trace below this ray, `depth` generations deep: its root is
        this ray as it stands, its kids start from this ray's children, in order, and at
        every generation it is a trace `TraceOk` accepts. */
    ghost predicate TracedTree(t: Record, objects: seq<Surface>, m: Trig, depth: nat)
      requires AllWellFormed(objects)
      reads this`end, this`children, this`hitObject, this`hitPoint, pos, dir, color, end
      reads set c | c in children :: c.pos
      reads set c | c in children :: c.dir
      reads set c | c in children :: c.color
    {
      && t == Tree(t.kids) && |t.kids| == |children|
      && (forall k :: 0 <= k < |children| ==> children[k].Roots(t.kids[k]))
      && TraceOk(t, objects, m, depth)
    }

    /** A completed trace whose children recorded complete traces one generation less
        deep is itself a complete trace: the heap state `Traced` describes is the
        record `StepOk` accepts. */
    lemma TreeTraced(kids: seq<Record>, objects: seq<Surface>, m: Trig, depth: nat)
      requires AllWellFormed(objects)
      requires |kids| == |children| && forall k :: 0 <= k < |children| ==> children[k].Roots(kids[k])
      requires depth == 0 ==> children == []
      requires depth > 0 ==> forall k :: 0 <= k < |kids| ==> TraceOk(kids[k], objects, m, depth - 1)
      ensures Traced(objects, m) ==> TraceOk(Tree(kids), objects, m, depth)
    {
      if Traced(objects, m) && end != null {
        var e := Emitted(objects[hitObject], pos.Value(), dir.Value(), color.levels, end.Value(), m);
        forall k | 0 <= k < |kids|
          ensures kids[k].pos == end.Value() && kids[k].dir == e.rays[k].dir && kids[k].levels == e.rays[k].levels
        {
          assert RealisesOne(children[k], e.rays[k], end);
        }
      }
    }

    /** `handle(objects)`: clear the children and the end, find the nearest hit, let the
        hit object return its rays, and trace each of them in turn unless `calcWarning`
        is set; a child whose trace throws sets `calcWarning`. `fuel` bounds the depth of
        the recursion: at 0 the call throws, as the call that overflows the stack does.
        The result says whether this call threw. */
    method Handle(objects: seq<Surface>, ctx: TraceContext, m: Trig, fuel: nat)
      returns (threw: bool, ghost tree: Record)
      requires AllWellFormed(objects) && color.Valid()
      modifies this`children, this`end, this`hitObject, this`hitPoint, ctx`calcWarning
      decreases fuel, 0
      ensures fuel > 0 ==> forall c :: c in children ==> fresh(c)
      ensures Roots(tree)
      ensures fuel > 0 && !threw && !ctx.calcWarning ==> TracedTree(tree, objects, m, fuel - 1)
      ensures old(ctx.calcWarning) ==> ctx.calcWarning
      ensures fuel == 0 ==> threw && children == old(children) && end == old(end)
      ensures fuel > 0 && !threw ==> Traced(objects, m)
      ensures fuel > 0 && threw ==>
        && children == [] && end != null
        && NearestHit(pos.Value(), dir.Value(), objects, m, hitObject, hitPoint, end.Value())
        && objects[hitObject].Polygon?
      ensures fuel > 0 && !threw && old(ctx.calcWarning) ==>
        forall k :: 0 <= k < |children| ==> children[k].children == [] && children[k].end == null
    {
      tree := Tree([]);
      if fuel > 0 {
        ghost var kids;
        threw, kids := Seek(objects, ctx, m, fuel - 1);
        if !threw && !ctx.calcWarning {
          TreeTraced(kids, objects, m, fuel - 1);
          tree := Tree(kids);
        }
      } else {
        threw := true;
      }
    }

    /** `handle` after its depth check: clear the children and the end, find the nearest
        hit and follow it with `fuel` left for the children. */
    method Seek(objects: seq<Surface>, ctx: TraceContext, m: Trig, fuel: nat)
      returns (threw: bool, ghost kids: seq<Record>)
      requires AllWellFormed(objects) && color.Valid()
      modifies this`children, this`end, this`hitObject, this`hitPoint, ctx`calcWarning
      decreases fuel, 4
      ensures forall c :: c in children ==> fresh(c)
      ensures !threw && !ctx.calcWarning ==> fuel > 0 || children == []
      ensures |kids| == |children| && forall k :: 0 <= k < |children| ==> children[k].Roots(kids[k])
      ensures !threw && !ctx.calcWarning && fuel > 0 ==>
        forall k :: 0 <= k < |kids| ==> TraceOk(kids[k], objects, m, fuel - 1)
      ensures old(ctx.calcWarning) ==> ctx.calcWarning
      ensures !threw ==> Traced(objects, m)
      ensures threw ==>
        && children == [] && end != null
        && NearestHit(pos.Value(), dir.Value(), objects, m, hitObject, hitPoint, end.Value())
        && objects[hitObject].Polygon?
      ensures !threw && old(ctx.calcWarning) ==>
        forall k :: 0 <= k < |children| ==> children[k].children == [] && children[k].end == null
    {
      children := [];
      end := null;
      var p, d := pos.Value(), dir.Value();
      var table := CandidateTable(p, d, objects, m);
      var found, o, j := FindClosest(p, table);
      if found {
        var pt := new Vector(table[o][j]);
        hitObject, hitPoint := o, j;
        assert NearestHit(p, d, objects, m, o, j, pt.Value());
        threw, kids := Follow(objects[o], pt, objects, ctx, m, fuel);
      } else {
        threw, kids := false, [];
      }
    }

    /** What `handle` does with the nearest hit `pt` on `s`: `s.returnRay(this, pt)`
        records the end and returns the rays (or throws), and the loop makes them the
        children, tracing them with `fuel`. */
    method Follow(s: Surface, pt: Vector, objects: seq<Surface>, ctx: TraceContext, m: Trig, fuel: nat)
      returns (threw: bool, ghost kids: seq<Record>)
      requires AllWellFormed(objects) && s.WellFormed() && color.Valid() && children == []
      requires 0 <= hitObject < |objects| && s == objects[hitObject]
      requires NearestHit(pos.Value(), dir.Value(), objects, m, hitObject, hitPoint, pt.Value())
      modifies this`children, this`end, ctx`calcWarning
      decreases fuel, 3
      ensures !threw ==> Traced(objects, m)
      ensures !threw && !ctx.calcWarning ==> fuel > 0 || children == []
      ensures |kids| == |children| && forall k :: 0 <= k < |children| ==> children[k].Roots(kids[k])
      ensures !threw && !ctx.calcWarning && fuel > 0 ==>
        forall k :: 0 <= k < |kids| ==> TraceOk(kids[k], objects, m, fuel - 1)
      ensures forall c :: c in children ==> fresh(c)
      ensures end == pt
      ensures var e := Emitted(s, pos.Value(), dir.Value(), color.levels, pt.Value(), m);
        && (threw <==> e.Throws?)
        && (!threw ==> Realises(children, e.rays, pt))
      ensures threw ==> children == []
      ensures old(ctx.calcWarning) ==> ctx.calcWarning
      ensures old(ctx.calcWarning) ==>
        forall k :: 0 <= k < |children| ==> children[k].children == [] && children[k].end == null
    {
      var rays;
      threw, rays := ReturnRay(s, this, pt, m);
      kids := [];
      if !threw {
        ghost var p, d, levels, q := pos.Value(), dir.Value(), color.levels, pt.Value();
        kids := TraceChildren(rays, objects, ctx, m, fuel);
        assert pos.Value() == p && dir.Value() == d && color.levels == levels && end.Value() == q;
      }
    }

    /** The loop of `handle`: each returned ray in turn becomes a child and, while
        `calcWarning` is clear, is traced; a child whose trace throws sets the flag, and
        the rays after it are pushed but not traced. */
    method TraceChildren(rays: seq<Ray>, objects: seq<Surface>, ctx: TraceContext, m: Trig, fuel: nat)
      returns (ghost kids: seq<Record>)
      requires AllWellFormed(objects)
      requires children == []
      requires forall a :: 0 <= a < |rays| ==>
        rays[a] != this && rays[a].color.Valid() && rays[a].children == [] && rays[a].end == null
      requires forall a, b :: 0 <= a < b < |rays| ==> rays[a] != rays[b]
      modifies this`children, ctx`calcWarning, rays
      decreases fuel, 2
      ensures children == rays && |kids| == |rays|
      ensures !ctx.calcWarning ==> fuel > 0 || rays == []
      ensures forall a :: 0 <= a < |rays| ==> rays[a].Roots(kids[a])
      ensures !ctx.calcWarning && fuel > 0 ==> forall a :: 0 <= a < |kids| ==> TraceOk(kids[a], objects, m, fuel - 1)
      ensures old(ctx.calcWarning) ==> ctx.calcWarning
      ensures old(ctx.calcWarning) ==>
        forall a :: 0 <= a < |rays| ==> rays[a].children == [] && rays[a].end == null
    {
      var k := 0;
      kids := [];
      while k < |rays|
        invariant 0 <= k <= |rays|
        invariant children == rays[..k] && |kids| == k
        invariant forall a :: k <= a < |rays| ==> rays[a].children == [] && rays[a].end == null
        invariant old(ctx.calcWarning) ==> ctx.calcWarning
        invariant old(ctx.calcWarning) ==>
          forall a :: 0 <= a < k ==> rays[a].children == [] && rays[a].end == null
        invariant !ctx.calcWarning ==> fuel > 0 || k == 0
        invariant forall a :: 0 <= a < k ==> rays[a].Roots(kids[a])
        invariant !ctx.calcWarning && fuel > 0 ==> forall a :: 0 <= a < k ==> TraceOk(kids[a], objects, m, fuel - 1)
      {
        ghost var t := TraceChild(rays, k, objects, ctx, m, fuel);
        kids := kids + [t];
        k := k + 1;
      }
    }

    /** One turn of the loop of `handle`: push the `k`th returned ray, then trace it
        unless `calcWarning` is set, setting the flag when its trace throws. */
    method TraceChild(rays: seq<Ray>, k: nat, objects: seq<Surface>, ctx: TraceContext, m: Trig, fuel: nat)
      returns (ghost t: Record)
      requires AllWellFormed(objects)
      requires k < |rays| && children == rays[..k]
      requires rays[k] != this && rays[k].color.Valid()
      requires rays[k].children == [] && rays[k].end == null
      modifies this`children, ctx`calcWarning, rays[k]
      decreases fuel, 1
      ensures !ctx.calcWarning ==> fuel > 0
      ensures rays[k].Roots(t)
      ensures !ctx.calcWarning && fuel > 0 ==> TraceOk(t, objects, m, fuel - 1)
      ensures children == rays[..k + 1]
      ensures old(ctx.calcWarning) ==> ctx.calcWarning && rays[k].children == [] && rays[k].end == null
    {
      children := children + [rays[k]];
      t := rays[k].Tree([]);
      if !ctx.calcWarning {
        var failed;
        failed, t := rays[k].Handle(objects, ctx, m, fuel);
        if failed {
          ctx.calcWarning := true;
        }
      }
    }
  }

  /** `Ray.reflect(ray, surface)`: a new ray from the parent's end point along the
      reflected direction, with a copy of the parent's colour. */
  method ReflectRay(ray: Ray, surface: Vec) returns (child: Ray)
    requires ray.end != null
    ensures fresh(child) && fresh(child.dir) && fresh(child.color)
    ensures child.pos == ray.end
    ensures child.dir.Value() == Reflect(ray.dir.Value(), surface)
    ensures child.color.levels == CopyLevels(ray.color.levels)
    ensures child.children == [] && child.end == null
  {
    var d := new Vector(Reflect(ray.dir.Value(), surface));
    var c := new Color(CopyLevels(ray.color.levels));
    child := new Ray(ray.end, d, c);
  }

  /** `Ray.refract(func, ray, surface, i, object)` for a block of index `n`: the rays of
      `RefractOutgoing`, each new, starting at the parent's end point. */
  method Refract(into: bool, ray: Ray, surface: Vec, i: real, n: real, m: Trig) returns (rays: seq<Ray>)
    requires ray.end != null && ray.color.Valid() && n > 0.0
    ensures Realises(rays, RefractOutgoing(into, ray.dir.Value(), surface, i, n, ray.color.levels, m), ray.end)
    ensures forall k :: 0 <= k < |rays| ==>
      fresh(rays[k]) && fresh(rays[k].color) && rays[k].children == [] && rays[k].end == null
    ensures forall a, b :: 0 <= a < b < |rays| ==> rays[a] != rays[b]
  {
    var x := RefractSine(into, i, n, m);
    if !into && !AsinDefined(x) {
      var r := ReflectRay(ray, surface);
      assert RealisesOne(r, Outgoing(Reflect(ray.dir.Value(), surface), CopyLevels(ray.color.levels)), ray.end);
      return [r];
    }
    rays := SplitRay(ray, RefractDir(into, surface, i, n, m), surface, Reflectance(n, m.cos(i)));
  }

  /** The two new rays of a split, each given its share of the parent's intensity with
      `setIntensity` and kept when that says so: the refracted one first. */
  method SplitRay(ray: Ray, refractDir: Vec, surface: Vec, reflection: real) returns (rays: seq<Ray>)
    requires ray.end != null && ray.color.Valid()
    ensures Realises(rays, Split(refractDir, Reflect(ray.dir.Value(), surface), reflection, ray.color.levels), ray.end)
    ensures forall k :: 0 <= k < |rays| ==>
      fresh(rays[k]) && fresh(rays[k].color) && rays[k].children == [] && rays[k].end == null
    ensures forall a, b :: 0 <= a < b < |rays| ==> rays[a] != rays[b]
  {
    var levels := ray.color.levels;
    ghost var rd := Reflect(ray.dir.Value(), surface);
    ghost var outs := Split(refractDir, rd, reflection, levels);
    var dirV := new Vector(refractDir);
    var col := new Color(CopyLevels(levels));
    var refracted := new Ray(ray.end, dirV, col);
    var reflected := ReflectRay(ray, surface);
    var keepRefracted := refracted.SetIntensity((1.0 - reflection) * levels[3]);
    var keepReflected := reflected.SetIntensity(reflection * levels[3]);
    ghost var first := Outgoing(refractDir, refracted.color.levels);
    ghost var second := Outgoing(rd, reflected.color.levels);
    assert RealisesOne(refracted, first, ray.end);
    assert RealisesOne(reflected, second, ray.end);
    rays := (if keepRefracted then [refracted] else []) + (if keepReflected then [reflected] else []);
    SplitParts(refractDir, rd, reflection, levels, (1.0 - reflection) * levels[3], reflection * levels[3]);
    assert outs == (if keepRefracted then [first] else []) + (if keepReflected then [second] else []);
  }

  /** `closestObj.returnRay(ray, pt)` for each kind of surface: every kind first records
      `pt` as the ray's end; then it returns the rays `Emitted` describes, or throws (a
      polygonal block). A lens's ray holds the parent's colour object; every other new
      ray has a colour of its own. */
  method ReturnRay(s: Surface, ray: Ray, pt: Vector, m: Trig) returns (threw: bool, rays: seq<Ray>)
    requires s.WellFormed() && ray.color.Valid()
    modifies ray`end
    ensures ray.end == pt
    ensures var e := Emitted(s, ray.pos.Value(), ray.dir.Value(), ray.color.levels, pt.Value(), m);
      && (threw <==> e.Throws?)
      && (!threw ==> Realises(rays, e.rays, pt))
      && (!threw && e.sharesColor ==> forall k :: 0 <= k < |rays| ==> rays[k].color == ray.color)
      && (!threw && !e.sharesColor ==> forall k :: 0 <= k < |rays| ==> fresh(rays[k].color))
    ensures forall k :: 0 <= k < |rays| ==>
      fresh(rays[k]) && rays[k].children == [] && rays[k].end == null
    ensures forall a, b :: 0 <= a < b < |rays| ==> rays[a] != rays[b]
  {
    ray.end := pt;
    match s
    case Mirror(seg) =>
      var r := ReflectRay(ray, seg.dir);
      threw, rays := false, [r];
    case Void(_) =>
      threw, rays := false, [];
    case Lens(seg, f) =>
      var d := new Vector(LensDir(seg, f, ray.dir.Value(), pt.Value(), m));
      var r := new Ray(pt, d, ray.color);
      threw, rays := false, [r];
    case Circular(c, radius, n) =>
      var tangent := CircleTangent(c, radius, pt.Value());
      var i := HalfPi - m.angleBetween(ray.dir.Value(), tangent);
      var mid := Mid(ray.pos.Value(), pt.Value());
      var outOf := CircleContains(c.x, c.y, radius, mid.x, mid.y);
      rays := Refract(!outOf, ray, tangent, i, n, m);
      threw := false;
    case ArcMirror(c, _, _, _) =>
      var surface := m.normalize(m.rotate(Sub(pt.Value(), c), HalfPi));
      var r := ReflectRay(ray, surface);
      threw, rays := false, [r];
    case Polygon(_, _) =>
      threw, rays := true, [];
  }
}
