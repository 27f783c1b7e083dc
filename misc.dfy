/** The small helpers of miscellaneous.js: angle normalisation with JavaScript's
    truncating remainder, the midpoint, the sign function and the deep copy of a
    property value. */
module Misc {
  import opened Geometry

  /** Rounding toward zero, which JavaScript's `%` uses for its quotient. */
  function Trunc(q: real): (r: int)
    ensures q >= 0.0 ==> r as real <= q < r as real + 1.0
    ensures q < 0.0 ==> r as real - 1.0 < q <= r as real
  {
    if q >= 0.0 then q.Floor else -((-q).Floor)
  }

  /** p5's `int(n)` for a number, which is `n | 0`: rounding toward zero, then
      JavaScript's conversion to a signed 32-bit integer, which wraps modulo 2^32. */
  function P5Int(n: real): (r: int)
    ensures -0x8000_0000 <= r < 0x8000_0000
    ensures (Trunc(n) - r) % 0x1_0000_0000 == 0
  {
    var t := Trunc(n) % 0x1_0000_0000;
    if t >= 0x8000_0000 then t - 0x1_0000_0000 else t
  }

  /** Within the 32-bit range `int()` is plain rounding toward zero. */
  lemma P5IntInRange(n: real)
    requires -0x8000_0000 as real <= n < 0x8000_0000 as real
    ensures P5Int(n) == Trunc(n)
  {
    var t := Trunc(n);
    if t < 0 {
      assert (t + 0x1_0000_0000) % 0x1_0000_0000 == t + 0x1_0000_0000;
    }
  }

  /** From 2^31 up a positive number can come back negative. */
  lemma P5IntWraps()
    ensures P5Int(0x8000_0000 as real) == -0x8000_0000
  {
    assert Trunc(0x8000_0000 as real) == 0x8000_0000;
  }

  /** JavaScript's `a % b`: the remainder keeps the sign of the dividend. */
  function JsRem(a: real, b: real): (r: real)
    requires b > 0.0
    ensures a >= 0.0 ==> 0.0 <= r < b
    ensures a < 0.0 ==> -b < r <= 0.0
  {
    var q := Trunc(a / b);
    QuotientBounds(a, b, q);
    a - b * q as real
  }

  /** The truncated quotient brackets the dividend. */
  lemma QuotientBounds(a: real, b: real, q: int)
    requires b > 0.0 && q == Trunc(a / b)
    ensures a >= 0.0 ==> q as real * b <= a < q as real * b + b
    ensures a < 0.0 ==> q as real * b - b < a <= q as real * b
  {
    var d := a / b;
    assert a == d * b;
    var lo, hi := if a >= 0.0 then q as real else q as real - 1.0, if a >= 0.0 then q as real + 1.0 else q as real;
    MulNonNeg(d - lo, b, (d - lo) * b);
    MulNonNeg(hi - d, b, (hi - d) * b);
    if a >= 0.0 {
      MulPos(hi - d, b, (hi - d) * b);
    } else {
      MulPos(d - lo, b, (d - lo) * b);
    }
  }

  /** `b` is `a` turned by a whole number `k` of turns. */
  predicate Turns(k: int, a: real, b: real)
  {
    b - a == k as real * TwoPi
  }

  /** One element of `fixAngles`: `(a + TWO_PI) % TWO_PI`. */
  function FixAngle(a: real): (r: real)
    ensures a >= -TwoPi ==> 0.0 <= r < TwoPi
    ensures exists k: int :: Turns(k, a, r)
  {
    var q := Trunc((a + TwoPi) / TwoPi);
    assert Turns(1 - q, a, a + TwoPi - TwoPi * q as real);
    JsRem(a + TwoPi, TwoPi)
  }

  /** `fixAngles(...angles)`: every argument normalised, count and order kept. */
  function FixAngles(angles: seq<real>): (r: seq<real>)
    ensures |r| == |angles|
    ensures forall i :: 0 <= i < |angles| ==> r[i] == FixAngle(angles[i])
  {
    seq(|angles|, i requires 0 <= i < |angles| => FixAngle(angles[i]))
  }

  /** An angle already in [0, 2π) is left as it is. */
  lemma FixAngleInRange(a: real)
    requires 0.0 <= a < TwoPi
    ensures FixAngle(a) == a
  {
    var q := (a + TwoPi) / TwoPi;
    assert 1.0 <= q < 2.0;
    assert Trunc(q) == 1;
  }

  /** Normalising twice is normalising once, for every angle from -2π up, which covers
      every heading p5 produces. */
  lemma FixAngleIdempotent(a: real)
    requires a >= -TwoPi
    ensures FixAngle(FixAngle(a)) == FixAngle(a)
  {
    FixAngleInRange(FixAngle(a));
  }

  lemma {:induction false} FixAnglesIdempotent(angles: seq<real>)
    requires forall i :: 0 <= i < |angles| ==> angles[i] >= -TwoPi
    ensures FixAngles(FixAngles(angles)) == FixAngles(angles)
  {
    var once := FixAngles(angles);
    forall i | 0 <= i < |angles|
      ensures FixAngles(once)[i] == once[i]
    {
      FixAngleIdempotent(angles[i]);
    }
  }

  /** Below -2π the remainder keeps the dividend's sign, so the result is negative: the
      normalisation only reaches [0, 2π) for inputs from -2π up. */
  lemma FixAngleBelowRange(a: real)
    requires -2.0 * TwoPi < a < -TwoPi
    ensures FixAngle(a) == a + TwoPi < 0.0
  {
    var q := (a + TwoPi) / TwoPi;
    assert -1.0 < q < 0.0;
    assert Trunc(q) == 0;
  }

  /** `mid(a, b)`: the componentwise average. */
  function Mid(a: Vec, b: Vec): (r: Vec)
    ensures Sub(r, a) == Sub(b, r)
  {
    Vec((a.x + b.x) / 2.0, (a.y + b.y) / 2.0)
  }

  /** The midpoint does not depend on the order of its arguments and is as far from
      one as from the other. */
  lemma MidSymmetricEquidistant(a: Vec, b: Vec)
    ensures Mid(a, b) == Mid(b, a)
    ensures MagSq(Sub(Mid(a, b), a)) == MagSq(Sub(Mid(a, b), b))
  {
    var m := Mid(a, b);
    assert Sub(m, b) == Scale(Sub(m, a), -1.0);
  }

  /** `Math.sign`. */
  function Sign(n: real): (r: real)
    ensures r == 1.0 <==> n > 0.0
    ensures r == -1.0 <==> n < 0.0
    ensures r == 0.0 <==> n == 0.0
  {
    if n > 0.0 then 1.0 else if n < 0.0 then -1.0 else 0.0
  }

  /** The sign recombines with the magnitude into the number. */
  lemma SignTimesAbs(n: real)
    ensures Sign(n) * Abs(n) == n
  {
    if n > 0.0 {
      assert Sign(n) == 1.0;
    } else if n < 0.0 {
      assert Sign(n) == -1.0;
    } else {
      assert Sign(n) == 0.0;
    }
  }

  /** The property values `dupProp` meets: numbers, strings, booleans, undefined,
      p5 vectors, p5 colours (their levels) and arrays of these. */
  datatype JsValue =
    | Num(n: real)
    | Str(s: string)
    | Bool(b: bool)
    | Undefined
    | Vect(v: Vec)
    | Colour(levels: seq<real>)
    | Arr(items: seq<JsValue>)

  /** JavaScript truthiness of a value; objects and arrays are always truthy. */
  predicate Truthy(v: JsValue)
  {
    match v
    case Num(n) => n != 0.0
    case Str(s) => s != ""
    case Bool(b) => b
    case Undefined => false
    case _ => true
  }

  /** Every colour in `v`, at any depth, has the levels p5 stores: whole numbers from 0
      to 255. */
  predicate StoredColours(v: JsValue)
    decreases v
  {
    match v
    case Colour(levels) => forall k :: 0 <= k < |levels| ==> Stored(levels[k])
    case Arr(items) => forall i :: 0 <= i < |items| ==> StoredColours(items[i])
    case _ => true
  }

  /** `dupProp`: an array is copied element by element, recursively, with a falsy copy
      replaced by the original element; a vector is copied; a colour is rebuilt with
      `color(levels)`, which stores its levels clamped and rounded; anything else is
      returned as it is. */
  function DupProp(v: JsValue): (r: JsValue)
    ensures r.Arr? <==> v.Arr?
    ensures v.Arr? ==> |r.items| == |v.items|
    ensures v.Vect? ==> r == v
    ensures v.Colour? ==>
      && r.Colour? && |r.levels| == |v.levels|
      && forall k :: 0 <= k < |r.levels| ==> Stored(r.levels[k])
    ensures !v.Arr? && !v.Vect? && !v.Colour? ==> r == v
    decreases v
  {
    match v
    case Arr(items) =>
      Arr(seq(|items|, i requires 0 <= i < |items| =>
        var c := DupProp(items[i]);
        if Truthy(c) then c else items[i]))
    case Vect(p) => Vect(Vec(p.x, p.y))
    case Colour(levels) => Colour(CopyLevels(levels))
    case _ => v
  }

  /** A copy of a value whose colours hold stored levels is indistinguishable from the
      original as a value, at every depth of nesting (the objects it creates are new,
      which a value model cannot show). */
  lemma {:induction false} DupPropIsCopy(v: JsValue)
    requires StoredColours(v)
    ensures DupProp(v) == v
    decreases v
  {
    match v
    case Arr(items) =>
      forall i | 0 <= i < |items|
        ensures DupProp(v).items[i] == items[i]
      {
        DupPropIsCopy(items[i]);
      }
    case Colour(levels) =>
      CopyLevelsStored(levels);
    case _ =>
  }
}
