/** The refractive blocks of blocks.js: a polygon whose edge segments are rebuilt from its
    vertex list, the rectangle built on it, and the circular block. */
module Blocks {
  import opened Geometry
  import opened Misc
  import opened Shapes
  import opened Rays

  // ---------------------------------------------------------------------------------
  // Vertex lists and their edges

  /** The edge from `a` to `b` as `new Mirror(a.x, a.y, dx, dy)` builds it: its start,
      its displacement and its normalised direction. */
  function Edge(a: Vec, b: Vec, m: Trig): (s: Segment)
    ensures s.pos == a && Add(s.pos, s.displacement) == b
    ensures s.dir == m.normalize(s.displacement)
  {
    var d := Sub(b, a);
    Segment(a, d, m.normalize(d))
  }

  /** The index after `i` round a polygon of `n` vertices, `(i + 1) % n`. */
  function Next(i: nat, n: nat): (j: nat)
    requires i < n
    ensures j < n && (j == 0 <==> i == n - 1) && (j > 0 ==> j == i + 1)
  {
    if i + 1 < n then i + 1 else 0
  }

  /** `createSegments(vertices)`: one edge per vertex, from it to the next one, the last
      edge closing the polygon back to the first vertex. */
  function CreateSegments(vertices: seq<Vec>, m: Trig): (segs: seq<Segment>)
    ensures |segs| == |vertices|
    ensures forall i :: 0 <= i < |vertices| ==>
      && segs[i].pos == vertices[i]
      && Add(segs[i].pos, segs[i].displacement) == vertices[Next(i, |vertices|)]
      && segs[i].dir == m.normalize(segs[i].displacement)
  {
    seq(|vertices|, i requires 0 <= i < |vertices| => Edge(vertices[i], vertices[Next(i, |vertices|)], m))
  }

  /** The sum of a list of vectors, accumulated from the front as `reduce` does. */
  function SumVec(vs: seq<Vec>): Vec
  {
    if vs == [] then Zero else Add(SumVec(vs[..|vs| - 1]), vs[|vs| - 1])
  }

  /** The sum of the edges' displacements. */
  function SumDisplacements(segs: seq<Segment>): Vec
  {
    if segs == [] then Zero else Add(SumDisplacements(segs[..|segs| - 1]), segs[|segs| - 1].displacement)
  }

  /** The edges of `createSegments` close up: walking along all of them returns to the
      first vertex, so their displacements add up to nothing. */
  lemma {:induction false} SegmentsClose(vertices: seq<Vec>, m: Trig)
    ensures SumDisplacements(CreateSegments(vertices, m)) == Zero
  {
    var segs := CreateSegments(vertices, m);
    var n := |vertices|;
    if n > 0 {
      OpenEdges(vertices, segs, n - 1);
      assert segs[..n - 1] == segs[..n][..n - 1];
      assert segs[..n] == segs;
    }
  }

  /** The first `k` edges (none of them the closing one) lead from the first vertex to
      vertex `k`. */
  lemma {:induction false} OpenEdges(vertices: seq<Vec>, segs: seq<Segment>, k: nat)
    requires |segs| == |vertices| && k < |vertices|
    requires forall i :: 0 <= i < |vertices| ==>
      segs[i].pos == vertices[i] && Add(segs[i].pos, segs[i].displacement) == vertices[Next(i, |vertices|)]
    ensures SumDisplacements(segs[..k]) == Sub(vertices[k], vertices[0])
  {
    if k > 0 {
      OpenEdges(vertices, segs, k - 1);
      assert segs[..k][..k - 1] == segs[..k - 1];
    }
  }

  /** `calculateCentroid(vertices)`: the mean of the vertices (the source divides by the
      count, so an empty list has no centroid). */
  function Centroid(vertices: seq<Vec>): (c: Vec)
    requires |vertices| > 0
    ensures Scale(c, |vertices| as real) == SumVec(vertices)
  {
    var s := SumVec(vertices);
    var k := |vertices| as real;
    assert s.x / k * k == s.x && s.y / k * k == s.y;
    Vec(s.x / k, s.y / k)
  }

  /** One coordinate of the centroid shift: from `a2 k = s + dd k` and `a k = s`. */
  lemma CoordShift(a2: real, a: real, dd: real, s: real, k: real)
    requires k != 0.0 && a2 * k == s + dd * k && a * k == s
    ensures a2 == a + dd
  {
    assert a2 * k == (a + dd) * k;
    CancelMul(a2, a + dd, k);
  }

  /** Every vertex moved by `d`. */
  function Translate(vs: seq<Vec>, d: Vec): (r: seq<Vec>)
    ensures |r| == |vs| && forall i :: 0 <= i < |vs| ==> r[i] == Add(vs[i], d)
  {
    seq(|vs|, i requires 0 <= i < |vs| => Add(vs[i], d))
  }

  /** Moving every vertex by `d` adds `d` once per vertex to the sum. */
  lemma {:induction false} SumTranslate(vs: seq<Vec>, d: Vec)
    ensures SumVec(Translate(vs, d)) == Add(SumVec(vs), Scale(d, |vs| as real))
  {
    if vs != [] {
      var n := |vs|;
      var front := vs[..n - 1];
      SumTranslate(front, d);
      assert Translate(vs, d)[..n - 1] == Translate(front, d);
      ScaleSucc(d, |front| as real);
    }
  }

  lemma ScaleSucc(d: Vec, k: real)
    ensures Scale(d, k + 1.0) == Add(Scale(d, k), d)
  {
    assert d.x * (k + 1.0) == d.x * k + d.x;
    assert d.y * (k + 1.0) == d.y * k + d.y;
  }

  /** Moving every vertex by `d` moves the centroid by `d`. */
  lemma CentroidTranslate(vs: seq<Vec>, d: Vec)
    requires |vs| > 0
    ensures Centroid(Translate(vs, d)) == Add(Centroid(vs), d)
  {
    SumTranslate(vs, d);
    var k := |vs| as real;
    CentroidFromSums(Centroid(vs), Centroid(Translate(vs, d)), SumVec(vs), SumVec(Translate(vs, d)), d, k);
  }

  /** Means whose sums differ by `k` copies of `d` differ by `d`. */
  lemma CentroidFromSums(c: Vec, c2: Vec, s: Vec, s2: Vec, d: Vec, k: real)
    requires k != 0.0 && Scale(c, k) == s && Scale(c2, k) == s2 && s2 == Add(s, Scale(d, k))
    ensures c2 == Add(c, d)
  {
    CoordShift(c2.x, c.x, d.x, s.x, k);
    CoordShift(c2.y, c.y, d.y, s.y, k);
  }

  // ---------------------------------------------------------------------------------
  // The inside test by ray-cast parity

  /** The direction of the test ray of `contains(pt, false)`. */
  const RightDir: Vec := Vec(1.0, 0.0)

  /** A point is inside a polygon with edges `segs` when a ray from it to the right
      crosses an odd number of them. */
  predicate InsideByParity(segs: seq<Segment>, p: Vec)
  {
    |EdgeHits(segs, p, RightDir)| % 2 != 0
  }

  function ShiftSegment(s: Segment, d: Vec): Segment
  {
    Segment(Add(s.pos, d), s.displacement, s.dir)
  }

  function ShiftSegments(segs: seq<Segment>, d: Vec): (r: seq<Segment>)
    ensures |r| == |segs| && forall i :: 0 <= i < |segs| ==> r[i] == ShiftSegment(segs[i], d)
  {
    seq(|segs|, i requires 0 <= i < |segs| => ShiftSegment(segs[i], d))
  }

  /** Intersection does not depend on where the plane's origin is: moving the segment and
      the ray together moves the hit with them. */
  lemma CollTranslate(s: Segment, p: Vec, dir: Vec, d: Vec)
    ensures CollWithLine(ShiftSegment(s, d), Add(p, d), dir).Some? == CollWithLine(s, p, dir).Some?
    ensures CollWithLine(s, p, dir).Some? ==>
      CollWithLine(ShiftSegment(s, d), Add(p, d), dir).value == Add(CollWithLine(s, p, dir).value, d)
  {
    var s2 := ShiftSegment(s, d);
    assert Sub(Add(p, d), s2.pos) == Sub(p, s.pos);
    if Cross(s.displacement, dir) != 0.0 {
      assert SegParam(s2, Add(p, d), dir) == SegParam(s, p, dir);
      assert RayParam(s2, Add(p, d), dir) == RayParam(s, p, dir);
    }
  }

  /** Moving the polygon and the test point together keeps the number of crossings. */
  lemma {:induction false} EdgeHitsTranslate(segs: seq<Segment>, p: Vec, dir: Vec, d: Vec)
    ensures |EdgeHits(ShiftSegments(segs, d), Add(p, d), dir)| == |EdgeHits(segs, p, dir)|
  {
    if segs != [] {
      CollTranslate(segs[0], p, dir, d);
      EdgeHitsTranslate(segs[1..], p, dir, d);
      assert ShiftSegments(segs, d)[1..] == ShiftSegments(segs[1..], d);
    }
  }

  /** The edges of a moved vertex list are the moved edges. */
  lemma CreateSegmentsTranslate(vs: seq<Vec>, d: Vec, m: Trig)
    ensures CreateSegments(Translate(vs, d), m) == ShiftSegments(CreateSegments(vs, m), d)
  {
    var a, b := CreateSegments(Translate(vs, d), m), ShiftSegments(CreateSegments(vs, m), d);
    forall i | 0 <= i < |vs|
      ensures a[i] == b[i]
    {
      assert Sub(Add(vs[Next(i, |vs|)], d), Add(vs[i], d)) == Sub(vs[Next(i, |vs|)], vs[i]);
    }
  }

  /** A polygon moved by `d` contains exactly the points moved by `d` that it contained. */
  lemma InsideTranslate(vs: seq<Vec>, p: Vec, d: Vec, m: Trig)
    ensures InsideByParity(CreateSegments(Translate(vs, d), m), Add(p, d))
        == InsideByParity(CreateSegments(vs, m), p)
  {
    CreateSegmentsTranslate(vs, d, m);
    EdgeHitsTranslate(CreateSegments(vs, m), p, RightDir, d);
  }

  /** `findIndex` over the vertices with `Circle.contains(v.x, v.y, 8, p.x, p.y)`: the
      first vertex within 8 of the point, or -1. */
  function VertexAt(vertices: seq<Vec>, p: Vec): (r: int)
    ensures -1 <= r < |vertices|
    ensures r == -1 <==> forall i :: 0 <= i < |vertices| ==> !NearVertex(vertices[i], p)
    ensures r >= 0 ==> NearVertex(vertices[r], p) && forall i :: 0 <= i < r ==> !NearVertex(vertices[i], p)
  {
    if vertices == [] then -1
    else if NearVertex(vertices[0], p) then 0
    else
      var r := VertexAt(vertices[1..], p);
      assert forall i :: 1 <= i < |vertices| ==> vertices[i] == vertices[1..][i - 1];
      if r == -1 then -1 else r + 1
  }

  predicate NearVertex(v: Vec, p: Vec)
  {
    CircleContains(v.x, v.y, 8.0, p.x, p.y)
  }

  /** The four corners of `new RectBlock(x, y, w, h, n)`, in order round the rectangle. */
  function RectCorners(x: real, y: real, w: real, h: real): seq<Vec>
  {
    [Vec(x, y), Vec(x + w, y), Vec(x + w, y + h), Vec(x, y + h)]
  }

  /** Four vertices forming an axis-aligned rectangle, in order round it. */
  predicate AxisRect(vs: seq<Vec>)
  {
    && |vs| == 4
    && vs[1].y == vs[0].y && vs[2].x == vs[1].x
    && vs[3].y == vs[2].y && vs[3].x == vs[0].x
  }

  /** The rectangle's 'resize': vertex 1 takes the target's x, vertex 2 becomes the target
      and vertex 3 takes the target's y. */
  function Resized(vs: seq<Vec>, t: Vec): seq<Vec>
    requires |vs| == 4
  {
    vs[1 := Vec(t.x, vs[1].y)][2 := t][3 := Vec(vs[3].x, t.y)]
  }

  /** A rectangle starts with its four corners in order, and a resize keeps it an
      axis-aligned rectangle with the same first corner and the target opposite it. */
  lemma RectangleStaysRectangle(x: real, y: real, w: real, h: real, vs: seq<Vec>, t: Vec)
    requires AxisRect(vs)
    ensures AxisRect(RectCorners(x, y, w, h))
    ensures AxisRect(Resized(vs, t))
    ensures Resized(vs, t) == [vs[0], Vec(t.x, vs[0].y), t, Vec(vs[0].x, t.y)]
  {
  }

  /** Whether a morph tag is a number to JavaScript's `isNaN`: vertex indices are, and so
      are booleans; the handle names are not. */
  predicate Numeric(tag: Prop)
  {
    tag.Index? || tag.Flag?
  }

  // ---------------------------------------------------------------------------------
  // The polygonal block

  /** `PolygonalBlock`, and `RectBlock` (`rect`), which differs only in its 'resize'. */
  class PolygonalBlock {
    var vertices: seq<Vec>
    var segments: seq<Segment>
    var pos: Vec
    var n: real
    const rect: bool

    /** The edge segments follow the vertices, as `updateLines` leaves them. */
    predicate Synced(m: Trig)
      reads this
    {
      segments == CreateSegments(vertices, m)
    }

    constructor (vertices: seq<Vec>, n: real, rect: bool, m: Trig)
      requires |vertices| > 0
      ensures this.vertices == vertices && Synced(m) && pos == Centroid(vertices)
      ensures this.n == n && this.rect == rect
    {
      this.vertices := vertices;
      segments := CreateSegments(vertices, m);
      pos := Centroid(vertices);
      this.n := n;
      this.rect := rect;
    }

    /** `updateLines()`: each segment in turn is reset to the edge from its vertex to the
        next. */
    method UpdateLines(m: Trig)
      requires |segments| == |vertices|
      modifies this`segments
      ensures Synced(m)
    {
      var i := 0;
      while i < |segments|
        invariant 0 <= i <= |segments| == |vertices|
        invariant forall k :: 0 <= k < i ==> segments[k] == CreateSegments(vertices, m)[k]
      {
        var v1 := vertices[i];
        var v2 := vertices[Next(i, |vertices|)];
        segments := segments[i := Edge(v1, v2, m)];
        i := i + 1;
      }
    }

    /** `setPos(x, y)`: every vertex moves by the offset from the old position to `p`,
        the position becomes `p`, and the segments are rebuilt. A block whose position
        was its centroid keeps it so. */
    method SetPos(p: Vec, m: Trig)
      requires |segments| == |vertices|
      modifies this`pos, this`vertices, this`segments
      ensures pos == p && vertices == Translate(old(vertices), Sub(p, old(pos))) && Synced(m)
      ensures |old(vertices)| > 0 && old(pos) == Centroid(old(vertices)) ==> pos == Centroid(vertices)
    {
      var diff := Sub(p, pos);
      pos := p;
      var i := 0;
      while i < |vertices|
        invariant 0 <= i <= |vertices| == |old(vertices)| == |segments| && pos == p
        invariant forall k :: 0 <= k < i ==> vertices[k] == Add(old(vertices)[k], diff)
        invariant forall k :: i <= k < |vertices| ==> vertices[k] == old(vertices)[k]
      {
        vertices := vertices[i := Add(vertices[i], diff)];
        i := i + 1;
      }
      assert vertices == Translate(old(vertices), diff);
      UpdateLines(m);
      if |old(vertices)| > 0 && old(pos) == Centroid(old(vertices)) {
        CentroidTranslate(old(vertices), diff);
        assert Add(old(pos), diff) == p;
      }
    }

    /** `morph(target, prop)` with `RectBlock`'s override. On a rectangle 'resize' moves
        vertices 1, 2 and 3 after the target. Otherwise 'none' does nothing; a numeric tag
        replaces vertex `k` (-1, from `contains` finding no vertex, and a boolean only set
        a property of the array, leaving the vertices) and leaves the position; any other
        name moves the block to the target less its grab offset. */
    method Morph(targetPos: Vec, targetDis: Vec, tag: Prop, m: Trig)
      requires |segments| == |vertices|
      requires tag.Index? ==> -1 <= tag.k < |vertices|
      requires rect && tag == Named("resize") ==> |vertices| == 4
      modifies this`pos, this`vertices, this`segments
      ensures rect && tag == Named("resize") ==>
        vertices == Resized(old(vertices), targetPos) && pos == old(pos) && Synced(m)
      ensures !(rect && tag == Named("resize")) && tag == Named("none") ==>
        vertices == old(vertices) && segments == old(segments) && pos == old(pos)
      ensures !(rect && tag == Named("resize")) && Numeric(tag) ==>
        && vertices == (if tag.Index? && tag.k >= 0 then old(vertices)[tag.k := targetPos] else old(vertices))
        && pos == old(pos) && Synced(m)
      ensures !(rect && tag == Named("resize")) && tag != Named("none") && !Numeric(tag) ==>
        pos == Sub(targetPos, targetDis) && vertices == Translate(old(vertices), Sub(pos, old(pos))) && Synced(m)
    {
      if rect && tag == Named("resize") {
        vertices := vertices[1 := Vec(targetPos.x, vertices[1].y)];
        vertices := vertices[2 := targetPos];
        vertices := vertices[3 := Vec(vertices[3].x, targetPos.y)];
        UpdateLines(m);
        return;
      }
      if tag == Named("none") {
        return;
      }
      if Numeric(tag) {
        if tag.Index? && tag.k >= 0 {
          vertices := vertices[tag.k := targetPos];
        }
        UpdateLines(m);
      } else {
        SetPos(Sub(targetPos, targetDis), m);
      }
    }

    /** `contains(pt, isMouse)`: for the mouse, the index of the vertex under it (or -1);
        otherwise whether a ray from the point to the right crosses an odd number of
        edges. */
    function Contains(p: Vec, isMouse: bool): (r: Prop)
      reads this
      ensures isMouse ==> r == Index(VertexAt(vertices, p))
      ensures !isMouse ==> r == Flag(InsideByParity(segments, p))
    {
      if isMouse then Index(VertexAt(vertices, p))
      else Flag(|DoesCollide(p, RightDir, AsSurface(), NoTrig)| % 2 != 0)
    }

    /** The block as a surface of the scene. */
    function AsSurface(): Surface
      reads this
    {
      Polygon(segments, n)
    }

    /** `duplicate()`: a new block on copies of the vertices, with the same index. It is
        built as a `PolygonalBlock` even when this is a rectangle. */
    method Duplicate(m: Trig) returns (copy: PolygonalBlock)
      requires |vertices| > 0
      ensures fresh(copy)
      ensures copy.vertices == vertices && copy.n == n && !copy.rect && copy.Synced(m)
      ensures copy.pos == Centroid(vertices)
    {
      copy := new PolygonalBlock(vertices, n, false, m);
    }
  }

  /** A polygon's test ray meets only straight edges and never consults the
      transcendental operations, so any stand-ins serve for them. */
  const NoTrig: Trig := Trig(x => x, x => x, x => x, x => x, x => x, v => 0.0, (v, a) => v,
    v => v, (u, v) => 0.0, (s, f, d, q) => d)

  /** `PolygonalBlock.build(holder)`: only a build path of more than two points whose
      first point is within 10 of the holder becomes a block, on the points of the path,
      with index 1.5. */
  method Build(history: seq<Vec>, holderPos: Vec, m: Trig) returns (block: PolygonalBlock?)
    ensures block == null <==>
      !(|history| > 2 && CircleContains(history[0].x, history[0].y, 10.0, holderPos.x, holderPos.y))
    ensures block != null ==>
      && fresh(block)
      && block.vertices == history && block.n == 1.5 && !block.rect && block.Synced(m)
      && block.pos == Centroid(history)
  {
    if |history| > 2 {
      var first := history[0];
      if !CircleContains(first.x, first.y, 10.0, holderPos.x, holderPos.y) {
        return null;
      }
    } else {
      return null;
    }
    block := new PolygonalBlock(history, 1.5, false, m);
  }

  /** `new RectBlock(x, y, w, h, n)`: a rectangular block on its four corners. */
  method NewRectBlock(x: real, y: real, w: real, h: real, n: real, m: Trig) returns (block: PolygonalBlock)
    ensures fresh(block)
    ensures block.vertices == RectCorners(x, y, w, h) && AxisRect(block.vertices)
    ensures block.n == n && block.rect && block.Synced(m)
  {
    block := new PolygonalBlock(RectCorners(x, y, w, h), n, true, m);
  }

  /** `RectBlock.build(holder)`: a 5 by 5 rectangle at the holder, with index 1.5. */
  method BuildRect(holderPos: Vec, m: Trig) returns (block: PolygonalBlock)
    ensures fresh(block)
    ensures block.vertices == RectCorners(holderPos.x, holderPos.y, 5.0, 5.0)
    ensures block.n == 1.5 && block.rect && block.Synced(m)
  {
    block := NewRectBlock(holderPos.x, holderPos.y, 5.0, 5.0, 1.5, m);
  }

  // ---------------------------------------------------------------------------------
  // The circular block

  class CircularBlock {
    var pos: Vec
    var r: real
    var n: real
    /** The resize handle, relative to the centre. */
    var resizer: Vec

    constructor (x: real, y: real, r: real, n: real)
      ensures pos == Vec(x, y) && this.r == r && this.n == n && resizer == Vec(r, 0.0)
    {
      pos := Vec(x, y);
      this.r := r;
      this.n := n;
      resizer := Vec(r, 0.0);
    }

    predicate NearResizer(p: Vec)
      reads this
    {
      CircleContains(pos.x + resizer.x, pos.y + resizer.y, 5.0, p.x, p.y)
    }

    /** `contains(pt, isMouse)`: 'resize' for the mouse on the handle, otherwise whether
        the point is in the disc. */
    function Contains(p: Vec, isMouse: bool): (res: Prop)
      reads this
      ensures res == Named("resize") <==> isMouse && NearResizer(p)
      ensures res != Named("resize") ==> res == Flag(CircleContains(pos.x, pos.y, r, p.x, p.y))
    {
      if isMouse && NearResizer(p) then Named("resize")
      else Flag(CircleContains(pos.x, pos.y, r, p.x, p.y))
    }

    /** `morph(target, tag)`: 'resize' puts the handle at the target and makes the radius
        its distance (`mag`), so the target lies on the new circle; anything else moves
        the centre to the target less its grab offset. */
    method Morph(targetPos: Vec, targetDis: Vec, tag: Prop, mag: real)
      requires tag == Named("resize") ==> IsMag(mag, Sub(targetPos, pos))
      modifies this`pos, this`r, this`resizer
      ensures tag == Named("resize") ==>
        && resizer == Sub(targetPos, pos) && r == mag && pos == old(pos)
        && DistSq(pos.x, pos.y, targetPos.x, targetPos.y) == r * r && r >= 0.0
      ensures tag != Named("resize") ==>
        pos == Sub(targetPos, targetDis) && r == old(r) && resizer == old(resizer)
    {
      if tag == Named("resize") {
        var op := Sub(targetPos, pos);
        resizer := op;
        r := mag;
      } else {
        pos := Sub(targetPos, targetDis);
      }
    }

    /** `duplicate()`: a new block with the same centre, radius and index; its handle is
        back at (r, 0). */
    method Duplicate() returns (copy: CircularBlock)
      ensures fresh(copy)
      ensures copy.pos == pos && copy.r == r && copy.n == n && copy.resizer == Vec(r, 0.0)
    {
      copy := new CircularBlock(pos.x, pos.y, r, n);
    }

    function AsSurface(): Surface
      reads this
    {
      Circular(pos, r, n)
    }
  }

  /** `CircularBlock.build(holder)`: radius 10 and index 1.5 at the holder. */
  method BuildCircular(holderPos: Vec) returns (block: CircularBlock)
    ensures fresh(block)
    ensures block.pos == holderPos && block.r == 10.0 && block.n == 1.5
  {
    block := new CircularBlock(holderPos.x, holderPos.y, 10.0, 1.5);
  }
}
