/** The straight optical elements of optics.js: a line segment with its editor handles,
    shared by the mirror, the void (which absorbs rays) and the thin lens. How each of
    them turns a ray is `Rays.Emitted`; this module holds the element itself. */
module Optics {
  import opened Geometry
  import opened Misc
  import opened Shapes
  import opened Rays

  /** Which element a line is; only the lens carries data of its own. */
  datatype LineKind = MirrorKind | VoidKind | LensKind(fLength: real)

  /** `this.resizer || 6`: no line ever sets `resizer`, so the handles always have a
      radius of 6. */
  const HandleTolerance: real := 6.0

  /** The focal length a new lens gets. */
  const DefaultFocalLength: real := 200.0

  /** Between non-negative numbers, order is the order of the squares. */
  lemma SquareMonotone(a: real, b: real)
    requires a >= 0.0 && b >= 0.0
    ensures a <= b <==> a * a <= b * b
  {
    if a < b {
      SquareLess(a, b, a * a, b * b);
    } else if b < a {
      SquareLess(b, a, b * b, a * a);
    }
  }

  /** A non-negative square root is unique. */
  lemma RootUnique(a: real, b: real)
    requires a >= 0.0 && b >= 0.0 && a * a == b * b
    ensures a == b
  {
    SquareMonotone(a, b);
    SquareMonotone(b, a);
  }

  /** Scaling a vector by a non-negative factor scales its length by that factor. */
  lemma ScaledMag(v: Vec, k: real, len: real)
    requires IsMag(len, v) && k >= 0.0
    ensures IsMag(k * len, Scale(v, k))
  {
    MulNonNeg(k, len, k * len);
    assert MagSq(Scale(v, k)) == (k * k) * MagSq(v);
    assert (k * len) * (k * len) == (k * k) * (len * len);
  }

  /** The point a fraction `t` along a displacement of length `len` is `t * len` from
      the start. */
  lemma SegmentPointDistance(a: Vec, v: Vec, len: real, t: real, d: real)
    requires IsMag(len, v) && t >= 0.0 && IsMag(d, Sub(Add(a, Scale(v, t)), a))
    ensures d == t * len
  {
    assert Sub(Add(a, Scale(v, t)), a) == Scale(v, t);
    ScaledMag(v, t, len);
    RootUnique(d, t * len);
  }

  /** … and `(1 - t) * len` from the end. */
  lemma SegmentPointDistanceToEnd(a: Vec, v: Vec, len: real, t: real, d: real)
    requires IsMag(len, v) && t <= 1.0 && IsMag(d, Sub(Add(a, Scale(v, t)), Add(a, v)))
    ensures d == (1.0 - t) * len
  {
    var back := Sub(Add(a, Scale(v, t)), Add(a, v));
    var fwd := Scale(v, 1.0 - t);
    assert back == Vec(-fwd.x, -fwd.y);
    assert MagSq(back) == MagSq(fwd);
    ScaledMag(v, 1.0 - t, len);
    RootUnique(d, (1.0 - t) * len);
  }

  class Line {
    var pos: Vec
    var displacement: Vec
    var dir: Vec
    var length: real
    const strokeWeight: real := 2.0
    const kind: LineKind

    /** `new Mirror(x1, y1, dx, dy)`, `new Void(…)` or `new Lens(…, fLength)`; `mag` is
        the length of the displacement. */
    constructor (x1: real, y1: real, dx: real, dy: real, kind: LineKind, mag: real, m: Trig)
      requires IsMag(mag, Vec(dx, dy))
      ensures pos == Vec(x1, y1) && displacement == Vec(dx, dy)
      ensures dir == m.normalize(displacement) && length == mag && IsMag(length, displacement)
      ensures this.kind == kind
    {
      pos := Vec(x1, y1);
      displacement := Vec(dx, dy);
      dir := m.normalize(Vec(dx, dy));
      length := mag;
      this.kind := kind;
    }

    /** The other end of the segment. */
    function End(): Vec
      reads this
    {
      Add(pos, displacement)
    }

    /** `contains(pt)`, given the point's distances `d1` to the start and `d2` to the end:
        the start handle ('resizeB') first, then the end handle ('resize'), then whether
        the two distances add up to the length within half the stroke. */
    function Contains(p: Vec, d1: real, d2: real): (res: Prop)
      requires IsMag(d1, Sub(p, pos)) && IsMag(d2, Sub(p, End()))
      reads this
      ensures res == Named("resizeB") <==> MagSq(Sub(p, pos)) <= HandleTolerance * HandleTolerance
      ensures res == Named("resize") <==>
        MagSq(Sub(p, pos)) > HandleTolerance * HandleTolerance &&
        MagSq(Sub(p, End())) <= HandleTolerance * HandleTolerance
      ensures res.Flag? <==>
        MagSq(Sub(p, pos)) > HandleTolerance * HandleTolerance &&
        MagSq(Sub(p, End())) > HandleTolerance * HandleTolerance
      ensures res.Flag? ==> (res.b <==> Abs(d1 + d2 - length) <= strokeWeight / 2.0)
    {
      SquareMonotone(d1, HandleTolerance);
      SquareMonotone(d2, HandleTolerance);
      if d1 <= HandleTolerance then Named("resizeB")
      else if d2 <= HandleTolerance then Named("resize")
      else Flag(d1 + d2 >= length - strokeWeight / 2.0 && d1 + d2 <= length + strokeWeight / 2.0)
    }

    /** Every point of the segment away from both handles is on the line: its distances
        to the two ends add up to exactly the length. */
    lemma ContainsSegmentPoints(t: real, d1: real, d2: real)
      requires IsMag(length, displacement) && 0.0 <= t <= 1.0
      requires var p := Add(pos, Scale(displacement, t));
        IsMag(d1, Sub(p, pos)) && IsMag(d2, Sub(p, End()))
      requires d1 > HandleTolerance && d2 > HandleTolerance
      ensures d1 + d2 == length
      ensures Contains(Add(pos, Scale(displacement, t)), d1, d2) == Flag(true)
    {
      var p := Add(pos, Scale(displacement, t));
      SegmentPointDistance(pos, displacement, length, t, d1);
      assert Sub(p, End()) == Sub(Add(pos, Scale(displacement, t)), Add(pos, displacement));
      SegmentPointDistanceToEnd(pos, displacement, length, t, d2);
      assert t * length + (1.0 - t) * length == length;
    }

    /** `setPos(x, y)`. */
    method SetPos(p: Vec)
      modifies this`pos
      ensures pos == p
    {
      pos := p;
    }

    /** `setDir(target, morph)`: nothing when the normalised direction to the target is
        the zero vector; otherwise the direction becomes it and either (`morph`) the far
        end moves onto the target and the length becomes the new distance (`mag`), or the
        length is kept along the new direction. */
    method SetDir(target: Vec, morph: bool, mag: real, m: Trig)
      requires morph ==> IsMag(mag, Sub(target, pos))
      modifies this`dir, this`displacement, this`length
      ensures var nd := m.normalize(Sub(target, pos));
        if nd == Zero then
          dir == old(dir) && displacement == old(displacement) && length == old(length)
        else
          && dir == nd
          && (morph ==> displacement == Sub(target, pos) && length == mag)
          && (!morph ==> displacement == Scale(nd, old(length)) && length == old(length))
      ensures m.normalize(Sub(target, pos)) != Zero ==>
        && (morph ==> End() == target && IsMag(length, displacement))
        && (!morph && MagSq(dir) == 1.0 && old(length) >= 0.0 ==> IsMag(length, displacement))
    {
      var nd := m.normalize(Sub(target, pos));
      if nd == Zero {
        return;
      }
      dir := nd;
      if morph {
        displacement := Sub(target, pos);
        length := mag;
      } else {
        displacement := Scale(dir, length);
        if MagSq(nd) == 1.0 && length >= 0.0 {
          ScaledMag(nd, length, 1.0);
        }
      }
    }

    /** `morph(target, tag)`. 'rotate' turns the line towards the target keeping its
        length; 'resize' moves the far end onto the target; 'resizeB' moves the start to
        the target less its grab offset and then re-aims at the old displacement from
        there, so the line is carried along whole and keeps its displacement; anything
        else only moves the start. `mag` is the length `setDir` measures. */
    method Morph(targetPos: Vec, targetDis: Vec, tag: Prop, mag: real, m: Trig)
      requires tag == Named("resize") ==> IsMag(mag, Sub(targetPos, pos))
      requires tag == Named("resizeB") ==> IsMag(mag, displacement)
      modifies this`pos, this`dir, this`displacement, this`length
      ensures tag == Named("rotate") ==>
        && pos == old(pos)
        && (var nd := m.normalize(Sub(targetPos, pos));
            if nd == Zero then dir == old(dir) && displacement == old(displacement)
            else dir == nd && displacement == Scale(nd, old(length)))
        && length == old(length)
      ensures tag == Named("resize") ==>
        && pos == old(pos)
        && (m.normalize(Sub(targetPos, pos)) == Zero ==>
              dir == old(dir) && displacement == old(displacement) && length == old(length))
        && (m.normalize(Sub(targetPos, pos)) != Zero ==>
              dir == m.normalize(Sub(targetPos, pos)) && End() == targetPos && length == mag)
      ensures tag == Named("resizeB") ==>
        && pos == Sub(targetPos, targetDis)
        && displacement == old(displacement)
        && (m.normalize(displacement) == Zero ==> dir == old(dir) && length == old(length))
        && (m.normalize(displacement) != Zero ==> dir == m.normalize(displacement) && length == mag)
      ensures tag != Named("rotate") && tag != Named("resize") && tag != Named("resizeB") ==>
        && pos == Sub(targetPos, targetDis)
        && dir == old(dir) && displacement == old(displacement) && length == old(length)
    {
      if tag == Named("rotate") {
        SetDir(targetPos, false, mag, m);
      } else if tag == Named("resizeB") {
        pos := Sub(targetPos, targetDis);
        assert Sub(End(), pos) == displacement;
        SetDir(End(), true, mag, m);
      } else if tag == Named("resize") {
        SetDir(targetPos, true, mag, m);
      } else {
        pos := Sub(targetPos, targetDis);
      }
    }

    /** `duplicate()`, which only the lens has: a new lens on the same start and
        displacement with the same focal length. */
    method Duplicate(mag: real, m: Trig) returns (copy: Line)
      requires kind.LensKind? && IsMag(mag, displacement)
      ensures fresh(copy)
      ensures copy.pos == pos && copy.displacement == displacement && copy.kind == kind
      ensures copy.dir == m.normalize(displacement) && copy.length == mag
    {
      copy := new Line(pos.x, pos.y, displacement.x, displacement.y, kind, mag, m);
    }

    /** The element as a surface of the scene. */
    function AsSurface(): (s: Surface)
      reads this
      ensures s.WellFormed()
    {
      var seg := Segment(pos, displacement, dir);
      match kind
      case MirrorKind => Mirror(seg)
      case VoidKind => Void(seg)
      case LensKind(f) => Lens(seg, f)
    }
  }

  /** `Lens._build(holder, Constructor)`, which `Mirror.build`, `Void.build` and
      `Lens.build` share: a 5 by 5 diagonal line at the holder (`mag` is its length), a
      lens with the default focal length. */
  method Build(holderPos: Vec, kind: LineKind, mag: real, m: Trig) returns (line: Line)
    requires IsMag(mag, Vec(5.0, 5.0))
    requires kind.LensKind? ==> kind.fLength == DefaultFocalLength
    ensures fresh(line)
    ensures line.pos == holderPos && line.displacement == Vec(5.0, 5.0) && line.kind == kind
    ensures line.length == mag && 7.0 < mag < 7.1
  {
    line := new Line(holderPos.x, holderPos.y, 5.0, 5.0, kind, mag, m);
    SquareMonotone(mag, 7.0);
    SquareMonotone(mag, 7.1);
  }
}
