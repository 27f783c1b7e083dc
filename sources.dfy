/** The light sources of sources.js: the single-ray source, the point light's fan of rays
    and the beam's row of parallel rays. The rays a source emits share its position,
    direction and colour objects where the source passes them on, so moving or turning
    the source moves or turns those rays without rebuilding them. */
module Sources {
  import opened Geometry
  import opened Misc
  import opened Shapes
  import opened Rays
  import opened Optics

  /** The radius of the start and end handles of a beam. */
  const BeamHandle: real := 6.0

  /** A loop that starts at 0 and steps by `inc` reaches a point `k` steps along that is
      within `total` exactly while `k` is within the number of steps that fit. */
  lemma StepBound(k: real, inc: real, total: real, count: real)
    requires inc > 0.0 && inc * count == total
    ensures k * inc <= total <==> k <= count
  {
    if k > count {
      MulPos(k - count, inc, (k - count) * inc);
    } else if k < count {
      MulPos(count - k, inc, (count - k) * inc);
    }
  }

  /** Taking one more step of `inc`. */
  lemma StepNext(k: int, inc: real)
    ensures k as real * inc + inc == (k + 1) as real * inc
  {
  }

  // ---------------------------------------------------------------------------------
  // Handling a source's rays

  /** `PointSource.handle(objects)` (which `Beam.handle` repeats): each ray in turn is
      traced through the scene. An exception from one of them leaves the `forEach`, so
      the rays after it are not traced; `handled` is the number traced before it, and
      `trees` holds the record of each of their traces. */
  method HandleRays(rays: seq<Ray>, objects: seq<Surface>, ctx: TraceContext, m: Trig, fuel: nat)
    returns (threw: bool, handled: nat, ghost trees: seq<Record>)
    requires AllWellFormed(objects)
    requires forall k :: 0 <= k < |rays| ==> rays[k].color.Valid()
    requires forall a, b :: 0 <= a < b < |rays| ==> rays[a] != rays[b]
    modifies (set r | r in rays), ctx
    ensures handled <= |rays| && (threw <==> handled < |rays|)
    ensures fuel > 0 ==> forall k :: 0 <= k < handled ==> rays[k].Traced(objects, m)
    ensures |trees| == handled
    ensures fuel > 0 && !ctx.calcWarning ==>
      forall k :: 0 <= k < handled ==> rays[k].TracedTree(trees[k], objects, m, fuel - 1)
    ensures threw && fuel > 0 ==>
      rays[handled].end != null && rays[handled].children == [] &&
      0 <= rays[handled].hitObject < |objects| && objects[rays[handled].hitObject].Polygon?
    ensures forall k :: handled < k < |rays| ==>
      rays[k].children == old(rays[k].children) && rays[k].end == old(rays[k].end)
  {
    handled := 0;
    threw := false;
    trees := [];
    while handled < |rays|
      invariant 0 <= handled <= |rays| && |trees| == handled
      invariant fuel > 0 ==> forall k :: 0 <= k < handled ==> rays[k].Traced(objects, m)
      invariant fuel > 0 && !ctx.calcWarning ==>
        forall k :: 0 <= k < handled ==> rays[k].TracedTree(trees[k], objects, m, fuel - 1)
      invariant forall k :: 0 <= k < |rays| ==> rays[k].color.Valid()
      invariant forall k :: handled <= k < |rays| ==>
        rays[k].children == old(rays[k].children) && rays[k].end == old(rays[k].end)
    {
      ghost var tree;
      threw, tree := HandleAt(rays, handled, objects, ctx, m, fuel, trees);
      if threw {
        return;
      }
      trees := trees + [tree];
      handled := handled + 1;
    }
  }

  /** One step of the `forEach` of `HandleRays`: tracing ray `i` leaves every other ray
      of the source as it was, including the traces of the rays before it, recorded in
      `trees`; `tree` records the new trace. */
  method HandleAt(rays: seq<Ray>, i: nat, objects: seq<Surface>, ctx: TraceContext, m: Trig, fuel: nat,
                  ghost trees: seq<Record>)
    returns (threw: bool, ghost tree: Record)
    requires AllWellFormed(objects) && i < |rays|
    requires forall k :: 0 <= k < |rays| ==> rays[k].color.Valid()
    requires forall a, b :: 0 <= a < b < |rays| ==> rays[a] != rays[b]
    modifies rays[i], ctx
    ensures forall k :: 0 <= k < |rays| ==> rays[k].color.Valid()
    ensures forall k :: 0 <= k < |rays| && k != i ==>
      rays[k].children == old(rays[k].children) && rays[k].end == old(rays[k].end)
    ensures fuel > 0 ==> forall k :: 0 <= k < i && old(rays[k].Traced(objects, m)) ==> rays[k].Traced(objects, m)
    ensures !threw && fuel > 0 ==> rays[i].Traced(objects, m)
    ensures fuel > 0 ==> forall k :: 0 <= k < i && k < |trees| ==>
      old(rays[k].TracedTree(trees[k], objects, m, fuel - 1)) ==> rays[k].TracedTree(trees[k], objects, m, fuel - 1)
    ensures !threw && fuel > 0 && !ctx.calcWarning ==> rays[i].TracedTree(tree, objects, m, fuel - 1)
    ensures old(ctx.calcWarning) ==> ctx.calcWarning
    ensures threw && fuel > 0 ==>
      rays[i].end != null && rays[i].children == [] &&
      0 <= rays[i].hitObject < |objects| && objects[rays[i].hitObject].Polygon?
  {
    threw, tree := rays[i].Handle(objects, ctx, m, fuel);
  }

  // ---------------------------------------------------------------------------------
  // The single-ray source

  /** `RaySource`: one ray, built on the source's own position, direction and colour. */
  class RaySource {
    const pos: Vector
    const dir: Vector
    const color: Color
    var rays: seq<Ray>
    const r: real := 5.0

    /** The one ray is the source's: its position, direction and colour are the
        source's own objects. */
    predicate Valid()
      reads this, color
    {
      && |rays| == 1 && rays[0].pos == pos && rays[0].dir == dir && rays[0].color == color
      && pos != dir && color.Valid()
    }

    /** `new RaySource(x, y, angle, fill)`. */
    constructor (x: real, y: real, angle: real, fill: Color, m: Trig)
      requires fill.Valid()
      ensures Valid() && fresh(pos) && fresh(dir) && color == fill && fresh(rays[0])
      ensures pos.Value() == Vec(x, y) && dir.Value() == m.FromAngle(angle)
      ensures rays[0].children == [] && rays[0].end == null
    {
      var p := new Vector(Vec(x, y));
      var d := new Vector(m.FromAngle(angle));
      var ray := new Ray(p, d, fill);
      pos, dir, color := p, d, fill;
      rays := [ray];
    }

    /** `contains(pt)`: 'rotate' on the handle 20 along the direction, otherwise whether
        the point is within the source's radius. */
    function Contains(p: Vec): (res: Prop)
      reads pos, dir
      ensures res == Named("rotate") <==> CircleContains(pos.x + dir.x * 20.0, pos.y + dir.y * 20.0, r, p.x, p.y)
      ensures res != Named("rotate") ==> res == Flag(CircleContains(pos.x, pos.y, r, p.x, p.y))
    {
      if CircleContains(pos.x + dir.x * 20.0, pos.y + dir.y * 20.0, r, p.x, p.y) then Named("rotate")
      else Flag(CircleContains(pos.x, pos.y, r, p.x, p.y))
    }

    /** `setDir(target)`: the direction becomes the normalised offset to the target,
        unless that has length 0 (a target on the source with p5's normalize, which
        leaves the zero vector as it is). The ray turns with it. */
    method SetDir(target: Vec, m: Trig)
      requires Valid()
      modifies dir
      ensures Valid() && rays == old(rays)
      ensures var nd := m.normalize(Sub(target, pos.Value()));
        dir.Value() == (if nd != Zero then nd else old(dir.Value()))
      ensures target == pos.Value() && m.normalize(Zero) == Zero ==> dir.Value() == old(dir.Value())
      ensures rays[0].dir.Value() == dir.Value() && rays[0].pos.Value() == pos.Value()
    {
      var nd := m.normalize(Sub(target, pos.Value()));
      if nd != Zero {
        dir.Set(nd);
      }
    }

    /** `morph(target, tag)`: 'rotate' and 'resize' turn the source towards the target;
        anything else moves it to the target less its grab offset. Either way the ray
        is the same object and follows. */
    method Morph(targetPos: Vec, targetDis: Vec, tag: Prop, m: Trig)
      requires Valid()
      modifies pos, dir
      ensures Valid() && rays == old(rays)
      ensures tag == Named("rotate") || tag == Named("resize") ==>
        && pos.Value() == old(pos.Value())
        && var nd := m.normalize(Sub(targetPos, pos.Value()));
           dir.Value() == (if nd != Zero then nd else old(dir.Value()))
      ensures tag != Named("rotate") && tag != Named("resize") ==>
        pos.Value() == Sub(targetPos, targetDis) && dir.Value() == old(dir.Value())
      ensures rays[0].pos.Value() == pos.Value() && rays[0].dir.Value() == dir.Value()
    {
      if tag == Named("rotate") || tag == Named("resize") {
        SetDir(targetPos, m);
      } else {
        pos.Set(Sub(targetPos, targetDis));
      }
    }

    /** `handle(objects)`, inherited from `PointSource`. */
    method Handle(objects: seq<Surface>, ctx: TraceContext, m: Trig, fuel: nat)
      returns (threw: bool, ghost trees: seq<Record>)
      requires Valid() && AllWellFormed(objects)
      modifies rays[0], ctx
      ensures Valid() && rays == old(rays)
      ensures !threw && fuel > 0 ==> rays[0].Traced(objects, m)
      ensures !threw && fuel > 0 && !ctx.calcWarning ==>
        |trees| == 1 && rays[0].TracedTree(trees[0], objects, m, fuel - 1)
      ensures threw && fuel > 0 ==>
        && rays[0].end != null && rays[0].children == []
        && 0 <= rays[0].hitObject < |objects| && objects[rays[0].hitObject].Polygon?
    {
      var handled;
      threw, handled, trees := HandleRays(rays, objects, ctx, m, fuel);
    }
  }

  // ---------------------------------------------------------------------------------
  // The point light

  /** The angle of ray `k` of a point light with `freq` steps round the circle. */
  function FanAngle(k: nat, freq: nat): real
  {
    if freq == 0 then 0.0 else k as real * (TwoPi / freq as real)
  }

  /** How many rays `resetRays` builds: `k * inc <= 2π` holds for `k = 0 … freq`, the last
      of them back at a full turn; with `freq` 0 the step is infinite and only the first
      ray is built. */
  function FanCount(freq: nat): nat
  {
    if freq == 0 then 1 else freq + 1
  }

  /** The fan covers the full circle: its first ray is at angle 0 and its last one at a
      full turn, with equal steps between. */
  lemma FanSpansCircle(freq: nat)
    requires freq > 0
    ensures FanAngle(0, freq) == 0.0 && FanAngle(FanCount(freq) - 1, freq) == TwoPi
    ensures forall k: nat :: k < FanCount(freq) - 1 ==>
      FanAngle(k + 1, freq) - FanAngle(k, freq) == TwoPi / freq as real
  {
    var f := freq as real;
    assert f * (TwoPi / f) == TwoPi;
    forall k: nat | k < FanCount(freq) - 1
      ensures FanAngle(k + 1, freq) - FanAngle(k, freq) == TwoPi / f
    {
      StepNext(k, TwoPi / f);
    }
  }

  class PointLight {
    const pos: Vector
    const color: Color
    var freq: nat
    var rays: seq<Ray>
    const r: real := 4.0

    /** Ray `k` of the fan starts at the light's own position object with the light's
        colour object and a direction object of its own, at the `k`-th angle. */
    ghost predicate FanRay(ray: Ray, k: nat, m: Trig)
      reads this, ray.dir
    {
      ray.pos == pos && ray.color == color && ray.dir != pos && ray.dir.Value() == m.FromAngle(FanAngle(k, freq))
    }

    /** The rays are the fan `resetRays` builds: distinct rays, one per angle. */
    ghost predicate Fan(m: Trig)
      reads this, set k | 0 <= k < |rays| :: rays[k].dir
    {
      && |rays| == FanCount(freq)
      && (forall k :: 0 <= k < |rays| ==> FanRay(rays[k], k, m))
      && (forall a, b :: 0 <= a < b < |rays| ==> rays[a] != rays[b])
    }

    /** `new PointLight(x, y, freq, fill)`, which builds its rays at once. */
    constructor (x: real, y: real, freq: nat, fill: Color, m: Trig)
      ensures pos.Value() == Vec(x, y) && color == fill && this.freq == freq
      ensures Fan(m)
      ensures forall k :: 0 <= k < |rays| ==> fresh(rays[k]) && rays[k].children == [] && rays[k].end == null
    {
      pos := new Vector(Vec(x, y));
      color := fill;
      this.freq := freq;
      rays := [];
      new;
      ResetRays(m);
    }

    /** `resetRays()`: a new ray for every step of `2π / freq` from 0 up to and including
        a full turn, each at the light's position with the light's colour. */
    method ResetRays(m: Trig)
      modifies this`rays
      ensures Fan(m)
      ensures forall k :: 0 <= k < |rays| ==>
        fresh(rays[k]) && fresh(rays[k].dir) && rays[k].children == [] && rays[k].end == null
    {
      rays := [];
      if freq == 0 {
        var ray := NewRay(0.0, m);
        rays := [ray];
        return;
      }
      var inc := TwoPi / freq as real;
      assert inc * freq as real == TwoPi;
      var i := 0.0;
      var k := 0;
      while i <= TwoPi
        invariant 0 <= k <= freq + 1 && |rays| == k && i == k as real * inc
        invariant forall j :: 0 <= j < k ==>
          FanRay(rays[j], j, m) && fresh(rays[j]) && fresh(rays[j].dir) && rays[j].children == [] && rays[j].end == null
        invariant forall a, b :: 0 <= a < b < k ==> rays[a] != rays[b]
        decreases freq + 1 - k
      {
        StepBound(k as real, inc, TwoPi, freq as real);
        var ray := NewRay(i, m);
        assert i == FanAngle(k, freq);
        assert FanRay(ray, k, m);
        rays := rays + [ray];
        StepNext(k, inc);
        i := i + inc;
        k := k + 1;
      }
      StepBound(k as real, inc, TwoPi, freq as real);
    }

    /** `new Ray(this.pos, p5.Vector.fromAngle(angle), this.color)`. */
    method NewRay(angle: real, m: Trig) returns (ray: Ray)
      ensures fresh(ray) && fresh(ray.dir) && ray.children == [] && ray.end == null
      ensures ray.pos == pos && ray.color == color && ray.dir.Value() == m.FromAngle(angle)
    {
      var d := new Vector(m.FromAngle(angle));
      ray := new Ray(pos, d, color);
    }

    /** `morph(target, tag)`: 'rotate' and 'resize' set the number of steps to `int()` of
        a hundredth of the squared distance to the target and rebuild the rays; anything
        else moves the light, and its rays with it. When `int()` wraps to a negative
        number the step of `resetRays` is negative and its loop never ends: the model
        reports that as `hangs` and leaves the light as it was. */
    method Morph(targetPos: Vec, targetDis: Vec, tag: Prop, m: Trig) returns (hangs: bool)
      requires Fan(m)
      modifies this`freq, this`rays, pos
      ensures Fan(m)
      ensures var steps := P5Int(MagSq(Sub(old(pos.Value()), targetPos)) / 100.0);
        tag == Named("rotate") || tag == Named("resize") ==>
        && pos.Value() == old(pos.Value())
        && (hangs <==> steps < 0)
        && (!hangs ==> freq == steps)
        && (hangs ==> freq == old(freq) && rays == old(rays))
      ensures tag == Named("rotate") || tag == Named("resize") ==>
        MagSq(Sub(old(pos.Value()), targetPos)) / 100.0 < 0x8000_0000 as real ==>
        !hangs && freq as real <= MagSq(Sub(old(pos.Value()), targetPos)) / 100.0 < freq as real + 1.0
      ensures tag != Named("rotate") && tag != Named("resize") ==>
        && !hangs
        && pos.Value() == Sub(targetPos, targetDis) && rays == old(rays) && freq == old(freq)
        && forall k :: 0 <= k < |rays| ==> rays[k].pos.Value() == pos.Value()
    {
      hangs := false;
      if tag == Named("rotate") || tag == Named("resize") {
        var q := MagSq(Sub(pos.Value(), targetPos)) / 100.0;
        if q < 0x8000_0000 as real {
          P5IntInRange(q);
        }
        var steps := P5Int(q);
        if steps < 0 {
          return true;
        }
        freq := steps;
        ResetRays(m);
      } else {
        pos.Set(Sub(targetPos, targetDis));
      }
    }

    /** `handle(objects)`, inherited from `PointSource`. */
    method Handle(objects: seq<Surface>, ctx: TraceContext, m: Trig, fuel: nat)
      returns (threw: bool, handled: nat, ghost trees: seq<Record>)
      requires Fan(m) && color.Valid() && AllWellFormed(objects)
      modifies (set r | r in rays), ctx
      ensures handled <= |rays| && (threw <==> handled < |rays|)
      ensures fuel > 0 ==> forall k :: 0 <= k < handled ==> rays[k].Traced(objects, m)
      ensures |trees| == handled
      ensures fuel > 0 && !ctx.calcWarning ==>
        forall k :: 0 <= k < handled ==> rays[k].TracedTree(trees[k], objects, m, fuel - 1)
      ensures threw && fuel > 0 ==>
        rays[handled].end != null && rays[handled].children == [] &&
        0 <= rays[handled].hitObject < |objects| && objects[rays[handled].hitObject].Polygon?
      ensures forall k :: handled < k < |rays| ==>
        rays[k].children == old(rays[k].children) && rays[k].end == old(rays[k].end)
    {
      threw, handled, trees := HandleRays(rays, objects, ctx, m, fuel);
    }
  }

  // ---------------------------------------------------------------------------------
  // The beam

  /** The fraction of the way along the beam at which ray `k` starts: `k * inc / length`
      with `inc = 100 / freq`. */
  function BeamParam(k: nat, freq: real, length: real): real
    requires freq > 0.0 && length > 0.0
  {
    (k as real * (100.0 / freq)) / length
  }

  /** How many rays `resetRays` builds: one for every step of `100 / freq` from 0 up to
      and including the length. */
  function BeamCount(freq: real, length: real): nat
    requires freq > 0.0 && length > 0.0
  {
    var c := (length / (100.0 / freq)).Floor;
    c as nat + 1
  }

  /** Every ray `resetRays` builds starts on the beam: the fraction of the way along it
      lies between 0 and 1. */
  lemma BeamParamInRange(k: nat, freq: real, length: real)
    requires freq > 0.0 && length > 0.0 && k < BeamCount(freq, length)
    ensures 0.0 <= BeamParam(k, freq, length) <= 1.0
  {
    var inc := 100.0 / freq;
    var count := length / inc;
    assert inc * count == length;
    StepBound(k as real, inc, length, count);
    var step := k as real * inc;
    MulNonNeg(k as real, inc, step);
    assert BeamParam(k, freq, length) == step / length;
  }

  /** The point ray `k` of a beam at `p` with displacement `d` starts at. */
  function BeamPoint(p: Vec, d: Vec, k: nat, freq: real, length: real): Vec
    requires freq > 0.0 && length > 0.0
  {
    Add(p, Scale(d, BeamParam(k, freq, length)))
  }

  /** What `Beam.setDir` does to the length under 'resize': the new length `mag`, cut
      down to a whole multiple of `freq` unless that would leave nothing. */
  function Trimmed(mag: real, freq: real): (len: real)
    requires freq > 0.0 && mag > 0.0
    ensures 0.0 < len <= mag
    ensures len == mag ||
      (Trunc(mag / freq) > 0 && len == Trunc(mag / freq) as real * freq && mag < len + freq)
  {
    var adjusted := mag - JsRem(mag, freq);
    if adjusted > 0.0 then
      var q := Trunc(mag / freq);
      QuotientBounds(mag, freq, q);
      assert adjusted == q as real * freq;
      assert q > 0 by {
        if q <= 0 { MulNonNeg(-q as real, freq, -q as real * freq); }
      }
      adjusted
    else mag
  }

  /** An integer just above `x` is one more than its floor. */
  lemma FloorBetween(k: int, x: real)
    requires (k - 1) as real <= x < k as real
    ensures x.Floor == k - 1
  {
  }

  class Beam {
    const pos: Vector
    const dir: Vector
    const color: Color
    var displacement: Vec
    var length: real
    var freq: real
    var rays: seq<Ray>
    const strokeWeight: real := 4.0

    /** The beam's invariant: a positive length (`reposRays` divides by it) and step
        count, every ray sharing the beam's direction and colour objects but owning its
        position, and no more rays than fit along the beam. */
    predicate Valid()
      reads this
    {
      && length > 0.0 && freq > 0.0 && pos != dir
      && |rays| <= BeamCount(freq, length)
      && (forall k :: 0 <= k < |rays| ==>
            rays[k].dir == dir && rays[k].color == color && rays[k].pos != pos && rays[k].pos != dir)
      && (forall a, b :: 0 <= a < b < |rays| ==> rays[a] != rays[b] && rays[a].pos != rays[b].pos)
    }

    /** Every ray starts where `reposRays` and `resetRays` put it. */
    ghost predicate Placed()
      requires Valid()
      reads this, pos, set k | 0 <= k < |rays| :: rays[k].pos
    {
      forall k :: 0 <= k < |rays| ==>
        rays[k].pos.Value() == BeamPoint(pos.Value(), displacement, k, freq, length)
    }

    /** `new Beam(x1, y1, angle, length, freq, fill)`: direction at `angle`, the beam
        itself a quarter turn from it, and no rays yet. */
    constructor (x1: real, y1: real, angle: real, length: real, freq: real, fill: Color, m: Trig)
      requires length > 0.0 && freq > 0.0
      ensures Valid() && Placed() && rays == [] && fresh(pos) && fresh(dir)
      ensures pos.Value() == Vec(x1, y1) && dir.Value() == m.FromAngle(angle)
      ensures displacement == Scale(m.FromAngle(angle + HalfPi), length)
      ensures this.length == length && this.freq == freq && color == fill
    {
      pos := new Vector(Vec(x1, y1));
      dir := new Vector(m.FromAngle(angle));
      color := fill;
      displacement := Scale(m.FromAngle(angle + HalfPi), length);
      this.length := length;
      this.freq := freq;
      rays := [];
    }

    /** Ray `k` of the beam: the beam's direction and colour objects, and a position
        object of its own at the `k`-th point along the beam. */
    ghost predicate BeamRay(ray: Ray, k: nat)
      reads this, pos, ray.pos
    {
      && freq > 0.0 && length > 0.0
      && ray.dir == dir && ray.color == color && ray.pos != pos && ray.pos != dir
      && ray.pos.Value() == BeamPoint(pos.Value(), displacement, k, freq, length)
    }

    /** `resetRays()`: a new ray for every step of `100 / freq` from 0 up to and including
        the length, starting that far along the beam, all sharing the beam's direction
        and colour. */
    method ResetRays()
      requires length > 0.0 && freq > 0.0 && pos != dir
      modifies this`rays
      ensures Valid() && Placed() && |rays| == BeamCount(freq, length)
      ensures forall k :: 0 <= k < |rays| ==> fresh(rays[k]) && fresh(rays[k].pos)
    {
      rays := [];
      var built := BuildRays();
      rays := built;
    }

    /** The loop of `resetRays`, which collects the new rays. */
    method BuildRays() returns (built: seq<Ray>)
      requires length > 0.0 && freq > 0.0
      ensures |built| == BeamCount(freq, length)
      ensures forall j :: 0 <= j < |built| ==>
        BeamRay(built[j], j) && fresh(built[j]) && fresh(built[j].pos)
      ensures forall a, b :: 0 <= a < b < |built| ==> built[a] != built[b] && built[a].pos != built[b].pos
    {
      built := [];
      var inc := 100.0 / freq;
      var count := length / inc;
      assert inc * count == length;
      var i := 0.0;
      var k := 0;
      while i <= length
        invariant |built| == k && i == k as real * inc && (k > 0 ==> (k - 1) as real <= count)
        invariant forall j :: 0 <= j < k ==>
          BeamRay(built[j], j) && fresh(built[j]) && fresh(built[j].pos)
        invariant forall a, b :: 0 <= a < b < k ==> built[a] != built[b] && built[a].pos != built[b].pos
        decreases count.Floor + 1 - k
      {
        StepBound(k as real, inc, length, count);
        var t := i / length;
        assert t == BeamParam(k, freq, length);
        var ray := NewRay(t, k);
        built := built + [ray];
        StepNext(k, inc);
        i := i + inc;
        k := k + 1;
      }
      StepBound(k as real, inc, length, count);
      FloorBetween(k, count);
    }

    /** `new Ray(p5.Vector.add(this.pos, p5.Vector.mult(this.displacement, t)), this.dir,
        this.color)`. */
    method NewRay(t: real, ghost k: nat) returns (ray: Ray)
      requires freq > 0.0 && length > 0.0 && t == BeamParam(k, freq, length)
      ensures fresh(ray) && fresh(ray.pos) && BeamRay(ray, k)
    {
      var start := new Vector(Add(pos.Value(), Scale(displacement, t)));
      ray := new Ray(start, dir, color);
    }

    /** `reposRays()`: each existing ray's position object is moved, in place, to its
        point along the beam; the rays themselves stay. */
    method ReposRays()
      requires Valid()
      modifies set k | 0 <= k < |rays| :: rays[k].pos
      ensures Valid() && Placed()
    {
      var i := 0;
      while i < |rays|
        invariant 0 <= i <= |rays|
        invariant forall k :: 0 <= k < i ==>
          rays[k].pos.Value() == BeamPoint(pos.Value(), displacement, k, freq, length)
      {
        rays[i].pos.Set(BeamPoint(pos.Value(), displacement, i, freq, length));
        i := i + 1;
      }
    }

    /** `contains(pt)` given the point's distances `d1` and `d2` to the two ends and the
        beam's drawn length `lineLen`: 'rotate' at the start, 'resize' at the end, and
        otherwise whether the point is on the drawn line within half the stroke. */
    function Contains(p: Vec, d1: real, d2: real, lineLen: real): (res: Prop)
      requires IsMag(d1, Sub(p, pos.Value())) && IsMag(d2, Sub(p, Add(pos.Value(), displacement)))
      requires IsMag(lineLen, displacement)
      reads this, pos
      ensures res == Named("rotate") <==> MagSq(Sub(p, pos.Value())) <= BeamHandle * BeamHandle
      ensures res == Named("resize") <==>
        MagSq(Sub(p, pos.Value())) > BeamHandle * BeamHandle &&
        MagSq(Sub(p, Add(pos.Value(), displacement))) <= BeamHandle * BeamHandle
      ensures res.Flag? <==>
        MagSq(Sub(p, pos.Value())) > BeamHandle * BeamHandle &&
        MagSq(Sub(p, Add(pos.Value(), displacement))) > BeamHandle * BeamHandle
      ensures res.Flag? ==> (res.b <==> Abs(d1 + d2 - lineLen) <= strokeWeight / 2.0)
    {
      SquareMonotone(d1, BeamHandle);
      SquareMonotone(d2, BeamHandle);
      if d1 <= BeamHandle then Named("rotate")
      else if d2 <= BeamHandle then Named("resize")
      else Flag(d1 + d2 >= lineLen - strokeWeight / 2.0 && d1 + d2 <= lineLen + strokeWeight / 2.0)
    }

    /** The overriding `setPos(target, off)`: the start moves to `target - off` and the
        rays are repositioned along the beam. */
    method SetPos(target: Vec, off: Vec)
      requires Valid()
      modifies pos, set k | 0 <= k < |rays| :: rays[k].pos
      ensures Valid() && Placed() && pos.Value() == Sub(target, off)
    {
      pos.Set(Sub(target, off));
      ReposRays();
    }

    /** `setDir(target, morph)` without the snap to multiples of a quarter turn: nothing
        when the target is the start (`mag`, the distance, is 0). Otherwise 'rotate'
        keeps the length along the new heading and repositions the rays, while 'resize'
        puts the end at the target, takes the trimmed distance as the length and rebuilds
        the rays. The direction becomes the beam turned back a quarter turn. */
    method SetDir(target: Vec, morph: bool, mag: real, m: Trig)
      requires Valid() && Placed() && IsMag(mag, Sub(target, pos.Value()))
      modifies this`displacement, this`length, this`rays, dir, set k | 0 <= k < |rays| :: rays[k].pos
      ensures Valid() && Placed()
      ensures mag == 0.0 ==>
        && displacement == old(displacement) && length == old(length) && rays == old(rays)
        && dir.Value() == old(dir.Value())
      ensures mag > 0.0 ==>
        && dir.Value() == m.normalize(m.rotate(displacement, -HalfPi))
        && (!morph ==>
              displacement == Scale(m.normalize(Sub(target, pos.Value())), old(length)) &&
              length == old(length) && rays == old(rays))
        && (morph ==>
              displacement == Sub(target, pos.Value()) && length == Trimmed(mag, freq) &&
              |rays| == BeamCount(freq, length))
    {
      if mag > 0.0 {
        var d := Sub(target, pos.Value());
        if !morph {
          d := Scale(m.normalize(d), length);
        } else {
          length := Trimmed(mag, freq);
        }
        displacement := d;
        dir.Set(m.normalize(m.rotate(displacement, -HalfPi)));
        if morph {
          ResetRays();
        } else {
          ReposRays();
        }
      } else {
        assert Placed();
      }
    }

    /** `duplicate()`: a new beam at the same start, turned to the heading of the
        direction, with the same length and step, a colour copied through `color()`,
        and its rays built. The displacement is rebuilt from that heading and the
        length, not copied: after a 'resize' whose distance was trimmed, the copy
        is as long as the trimmed length, not as the drawn beam. */
    method Duplicate(m: Trig) returns (copy: Beam)
      requires Valid()
      ensures fresh(copy) && fresh(copy.pos) && fresh(copy.dir) && fresh(copy.color)
      ensures copy.Valid() && copy.Placed() && |copy.rays| == BeamCount(freq, length)
      ensures copy.pos.Value() == pos.Value()
      ensures copy.dir.Value() == m.FromAngle(m.heading(dir.Value()))
      ensures copy.displacement == Scale(m.FromAngle(m.heading(dir.Value()) + HalfPi), length)
      ensures copy.length == length && copy.freq == freq
      ensures copy.color.levels == CopyLevels(color.levels)
    {
      var fill := new Color(CopyLevels(color.levels));
      var p := pos.Value();
      copy := new Beam(p.x, p.y, m.heading(dir.Value()), length, freq, fill, m);
      copy.ResetRays();
    }

    /** `morph(target, tag)`: 'rotate' and 'resize' are `setDir` without and with
        morphing; anything else moves the beam to the target less its grab offset. */
    method Morph(targetPos: Vec, targetDis: Vec, tag: Prop, mag: real, m: Trig)
      requires Valid() && Placed()
      requires tag == Named("rotate") || tag == Named("resize") ==> IsMag(mag, Sub(targetPos, pos.Value()))
      modifies this`displacement, this`length, this`rays, pos, dir, set k | 0 <= k < |rays| :: rays[k].pos
      ensures Valid() && Placed()
      ensures tag != Named("rotate") && tag != Named("resize") ==>
        && pos.Value() == Sub(targetPos, targetDis) && displacement == old(displacement) && rays == old(rays)
        && length == old(length) && dir.Value() == old(dir.Value())
      ensures tag == Named("rotate") || tag == Named("resize") ==> pos.Value() == old(pos.Value())
      ensures (tag == Named("rotate") || tag == Named("resize")) && mag == 0.0 ==>
        && displacement == old(displacement) && length == old(length) && rays == old(rays)
        && dir.Value() == old(dir.Value())
      ensures (tag == Named("rotate") || tag == Named("resize")) && mag > 0.0 ==>
        dir.Value() == m.normalize(m.rotate(displacement, -HalfPi))
      ensures tag == Named("rotate") && mag > 0.0 ==>
        && displacement == Scale(m.normalize(Sub(targetPos, pos.Value())), old(length))
        && length == old(length) && rays == old(rays)
      ensures tag == Named("resize") && mag > 0.0 ==>
        && displacement == Sub(targetPos, pos.Value()) && length == Trimmed(mag, freq)
        && |rays| == BeamCount(freq, length)
    {
      if tag == Named("rotate") {
        SetDir(targetPos, false, mag, m);
      } else if tag == Named("resize") {
        SetDir(targetPos, true, mag, m);
      } else {
        SetPos(targetPos, targetDis);
      }
    }

    /** `handle(objects)`. */
    method Handle(objects: seq<Surface>, ctx: TraceContext, m: Trig, fuel: nat)
      returns (threw: bool, handled: nat, ghost trees: seq<Record>)
      requires Valid() && color.Valid() && AllWellFormed(objects)
      modifies (set r | r in rays), ctx
      ensures handled <= |rays| && (threw <==> handled < |rays|)
      ensures fuel > 0 ==> forall k :: 0 <= k < handled ==> rays[k].Traced(objects, m)
      ensures |trees| == handled
      ensures fuel > 0 && !ctx.calcWarning ==>
        forall k :: 0 <= k < handled ==> rays[k].TracedTree(trees[k], objects, m, fuel - 1)
      ensures threw && fuel > 0 ==>
        rays[handled].end != null && rays[handled].children == [] &&
        0 <= rays[handled].hitObject < |objects| && objects[rays[handled].hitObject].Polygon?
      ensures forall k :: handled < k < |rays| ==>
        rays[k].children == old(rays[k].children) && rays[k].end == old(rays[k].end)
    {
      threw, handled, trees := HandleRays(rays, objects, ctx, m, fuel);
    }
  }

  /** The rays of a beam all start on it, whatever has been done to it since. */
  lemma BeamRaysOnBeam(b: Beam, k: nat)
    requires b.Valid() && b.Placed() && k < |b.rays|
    ensures exists t: real ::
      0.0 <= t <= 1.0 && b.rays[k].pos.Value() == Add(b.pos.Value(), Scale(b.displacement, t))
  {
    BeamParamInRange(k, b.freq, b.length);
    var t := BeamParam(k, b.freq, b.length);
    assert b.rays[k].pos.Value() == Add(b.pos.Value(), Scale(b.displacement, t));
  }
}
