/** Plane geometry shared by the whole tracer: coordinate pairs as values, p5's mutable
    vector and colour objects as classes, the segment geometry of a line-shaped surface,
    the scene snapshot a ray is traced against, and the transcendental operations p5
    supplies (which the model takes as given functions rather than defining them). */
module Geometry {

  /** p5's TWO_PI, PI and HALF_PI, as the double values the library uses. */
  const TwoPi: real := 6.283185307179586
  const Pi: real := 3.141592653589793
  const HalfPi: real := 1.5707963267948966

  datatype Option<T> = None | Some(value: T)

  /** An (x, y) pair of coordinates. */
  datatype Vec = Vec(x: real, y: real)

  const Zero: Vec := Vec(0.0, 0.0)

  function Add(a: Vec, b: Vec): Vec { Vec(a.x + b.x, a.y + b.y) }

  function Sub(a: Vec, b: Vec): Vec { Vec(a.x - b.x, a.y - b.y) }

  function Scale(a: Vec, k: real): Vec { Vec(a.x * k, a.y * k) }

  function Dot(a: Vec, b: Vec): real { a.x * b.x + a.y * b.y }

  /** The 2D cross product: the component of `a` perpendicular to `b`, times |b|. */
  function Cross(a: Vec, b: Vec): real { a.x * b.y - a.y * b.x }

  function MagSq(a: Vec): (r: real)
    ensures r >= 0.0
  {
    a.x * a.x + a.y * a.y
  }

  function Abs(a: real): (r: real)
    ensures r >= 0.0 && (r == a || r == -a)
  {
    if a < 0.0 then -a else a
  }

  /** `mag` is the length of `v`: how the model receives a square root it cannot compute. */
  predicate IsMag(mag: real, v: Vec)
  {
    mag >= 0.0 && mag * mag == MagSq(v)
  }

  /** A length is zero exactly for the zero vector, which is why p5's normalize leaves the
      zero vector at magnitude 0 and every other vector at magnitude 1. */
  lemma MagZero(mag: real, v: Vec)
    requires IsMag(mag, v)
    ensures mag == 0.0 <==> v == Zero
  {
    if mag == 0.0 {
      SquaresZero(v.x, v.y, MagSq(v));
    } else {
      SquarePos(mag, MagSq(v));
    }
  }

  /** Dividing a vector by its non-zero length gives a unit vector. */
  lemma UnitAfterDivide(v: Vec, mag: real)
    requires IsMag(mag, v) && mag > 0.0
    ensures MagSq(Scale(v, 1.0 / mag)) == 1.0
  {
    var k := 1.0 / mag;
    assert MagSq(Scale(v, k)) == MagSq(v) * (k * k);
    MulInverse(mag, k);
    assert MagSq(v) * (k * k) == (mag * k) * (mag * k);
  }

  // Small facts about products, each over distinct variables; the solver handles them
  // reliably in this form and the callers instantiate them.

  lemma MulPos(a: real, b: real, c: real)
    requires a > 0.0 && b > 0.0 && c == a * b
    ensures c > 0.0
  {
  }

  lemma MulNonNeg(a: real, b: real, c: real)
    requires a >= 0.0 && b >= 0.0 && c == a * b
    ensures c >= 0.0
  {
    if a > 0.0 && b > 0.0 { MulPos(a, b, c); }
  }

  lemma MulLeOne(a: real, b: real, c: real)
    requires 0.0 <= a <= 1.0 && 0.0 <= b <= 1.0 && c == a * b
    ensures 0.0 <= c <= b
  {
    MulNonNeg(a, b, c);
    MulNonNeg(1.0 - a, b, b - c);
  }

  lemma MulInverse(a: real, k: real)
    requires a != 0.0 && k == 1.0 / a
    ensures a * k == 1.0
  {
  }

  lemma SquarePos(a: real, c: real)
    requires a != 0.0 && c == a * a
    ensures c > 0.0
  {
    if a > 0.0 { MulPos(a, a, c); } else { MulPos(-a, -a, c); }
  }

  lemma SquareNonNeg(a: real, c: real)
    requires c == a * a
    ensures c >= 0.0
  {
    if a != 0.0 { SquarePos(a, c); }
  }

  lemma SquaresZero(a: real, b: real, c: real)
    requires c == a * a + b * b && c == 0.0
    ensures a == 0.0 && b == 0.0
  {
    var p, q := a * a, b * b;
    SquareNonNeg(a, p);
    SquareNonNeg(b, q);
    if a != 0.0 { SquarePos(a, p); }
    if b != 0.0 { SquarePos(b, q); }
  }

  /** Cancelling a non-zero factor. */
  lemma CancelMul(a: real, b: real, d: real)
    requires d != 0.0 && a * d == b * d
    ensures a == b
  {
    var k := 1.0 / d;
    MulInverse(d, k);
    assert a == a * (d * k) == (a * d) * k;
    assert b == b * (d * k) == (b * d) * k;
  }

  /** A mutable p5.Vector. Rays and light sources share these objects, so moving one
      moves every ray that holds it. */
  class Vector {
    var x: real
    var y: real

    constructor (v: Vec)
      ensures Value() == v
    {
      x, y := v.x, v.y;
    }

    function Value(): Vec
      reads this
    {
      Vec(x, y)
    }

    /** p5's `set(x, y)`, which overwrites the coordinates in place. */
    method Set(v: Vec)
      modifies this
      ensures Value() == v
    {
      x, y := v.x, v.y;
    }
  }

  /** A p5.Color; `levels` is its [r, g, b, alpha] array and alpha is the ray's intensity. */
  class Color {
    var levels: seq<real>

    constructor (levels: seq<real>)
      ensures this.levels == levels
    {
      this.levels := levels;
    }

    predicate Valid()
      reads this
    {
      |levels| == 4
    }
  }

  /** `Math.round`: the nearest whole number, a half rounded up. */
  function JsRound(x: real): (r: real)
    ensures r == r.Floor as real
    ensures r - 0.5 <= x < r + 0.5
  {
    (x + 0.5).Floor as real
  }

  function Clamp(x: real, lo: real, hi: real): (r: real)
    requires lo <= hi
    ensures lo <= r <= hi
    ensures lo <= x <= hi ==> r == x
  {
    if x < lo then lo else if x > hi then hi else x
  }

  /** A level as a p5.Color stores it: a whole number from 0 to 255. */
  predicate Stored(x: real)
  {
    0.0 <= x <= 255.0 && x == x.Floor as real
  }

  /** The levels of the colour `color(...levels)` makes: p5 clamps each level to
      [0, 255] and keeps the nearest whole number. */
  function CopyLevels(levels: seq<real>): (r: seq<real>)
    ensures |r| == |levels|
    ensures forall k :: 0 <= k < |r| ==> Stored(r[k])
    ensures forall k :: 0 <= k < |r| ==>
      r[k] - 0.5 <= Clamp(levels[k], 0.0, 255.0) < r[k] + 0.5
  {
    seq(|levels|, k requires 0 <= k < |levels| => JsRound(Clamp(levels[k], 0.0, 255.0)))
  }

  /** Copying a colour whose levels are already stored ones gives the same levels, so
      copying a copy changes nothing. */
  lemma CopyLevelsStored(levels: seq<real>)
    requires forall k :: 0 <= k < |levels| ==> Stored(levels[k])
    ensures CopyLevels(levels) == levels
    ensures CopyLevels(CopyLevels(levels)) == CopyLevels(levels)
  {
    forall k | 0 <= k < |levels|
      ensures CopyLevels(levels)[k] == levels[k]
    {
      var x := levels[k];
      var n := x.Floor;
      assert (x + 0.5).Floor == n;
    }
  }

  /** The copy is not exact for an intensity that is not a whole number: the alpha 1.4
      a weak reflection can carry is copied as 1. */
  lemma CopyRoundsIntensity()
    ensures CopyLevels([255.0, 255.0, 255.0, 1.4]) == [255.0, 255.0, 255.0, 1.0]
  {
    var r := CopyLevels([255.0, 255.0, 255.0, 1.4]);
    assert r[3] == JsRound(1.4);
    assert (1.4 + 0.5).Floor == 1;
    forall k | 0 <= k < 3
      ensures r[k] == 255.0
    {
      assert (255.0 + 0.5).Floor == 255;
    }
  }

  /** What the editor's hit test returns and hands back to `morph`: a handle name
      ('rotate', 'resize', 'resizeB', 'none'), a vertex index, or a plain boolean. */
  datatype Prop = Named(name: string) | Index(k: int) | Flag(b: bool)

  /** The geometry of a line-shaped surface: its start, its displacement to the other
      end and the unit direction stored beside them. */
  datatype Segment = Segment(pos: Vec, displacement: Vec, dir: Vec)

  /** One scene object as the tracer sees it during a trace pass. */
  datatype Surface =
    | Mirror(seg: Segment)
    | Void(seg: Segment)
    | Lens(seg: Segment, fLength: real)
    | Polygon(segments: seq<Segment>, n: real)
    | Circular(centre: Vec, r: real, n: real)
    | ArcMirror(centre: Vec, radius: real, angleS: real, angleD: real)
  {
    /** Every block has a positive refractive index, which the Fresnel split divides by. */
    predicate WellFormed()
    {
      match this
      case Circular(_, _, n) => n > 0.0
      case Polygon(_, n) => n > 0.0
      case _ => true
    }
  }

  /** The transcendental operations p5 and JavaScript provide (sin, cos, asin, acos,
      sqrt, heading, rotate, normalize, angleBetween), and the direction a thin lens
      gives a ray that meets it exactly along its surface, where the source divides by a
      zero cosine and computes with JavaScript's infinities. The model never looks inside
      these. */
  datatype Trig = Trig(
    sin: real -> real,
    cos: real -> real,
    asin: real -> real,
    acos: real -> real,
    sqrt: real -> real,
    heading: Vec -> real,
    rotate: (Vec, real) -> Vec,
    normalize: Vec -> Vec,
    angleBetween: (Vec, Vec) -> real,
    grazingLensDir: (Segment, real, Vec, Vec) -> Vec)
  {
    /** p5.Vector.fromAngle(a). */
    function FromAngle(a: real): Vec
    {
      Vec(cos(a), sin(a))
    }
  }
}
