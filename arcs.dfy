/** The curved mirror of arc.js: a circular arc given by its centre, radius, start angle
    and angular span, with the angular-range test, the editor's hit test and handles, and
    the reshaping the editor applies. */
module Arcs {
  import opened Geometry
  import opened Misc
  import opened Shapes

  /** `withinArc(angle)` for an arc starting at `angleS` and spanning `angleD`. */
  function WithinArc(angleS: real, angleD: real, angle: real): bool
  {
    var a := FixAngle(angle);
    var end := angleS + angleD;
    if end > TwoPi then a >= angleS || a <= end - TwoPi else a >= angleS && a <= end
  }

  /** The geometric meaning of being on the arc: turned by `k` whole turns, the angle lies
      between the start and the end of the arc. */
  predicate OnArcAt(angleS: real, angleD: real, angle: real, k: int)
  {
    angleS <= angle + k as real * TwoPi <= angleS + angleD
  }

  /** Every angle the test accepts lies on the arc, for a normalised start angle and any
      heading from -2π up. */
  lemma WithinArcSound(angleS: real, angleD: real, angle: real)
    requires 0.0 <= angleS < TwoPi && angleD >= 0.0 && angle >= -TwoPi
    requires WithinArc(angleS, angleD, angle)
    ensures exists k: int :: OnArcAt(angleS, angleD, angle, k)
  {
    var a := FixAngle(angle);
    var j :| Turns(j, angle, a);
    if angleS <= a <= angleS + angleD {
      assert OnArcAt(angleS, angleD, angle, j);
    } else {
      assert OnArcAt(angleS, angleD, angle, j + 1);
    }
  }

  /** Every angle on an arc with normalised start and span is accepted, except the one
      point where the end of the arc falls exactly on a full turn (there the end angle is
      normalised to 0 and compared against the start). */
  lemma WithinArcComplete(angleS: real, angleD: real, angle: real, k: int)
    requires 0.0 <= angleS < TwoPi && 0.0 <= angleD < TwoPi && angleS + angleD != TwoPi
    requires angle >= -TwoPi
    requires OnArcAt(angleS, angleD, angle, k)
    ensures WithinArc(angleS, angleD, angle)
  {
    var a := FixAngle(angle);
    var j :| Turns(j, angle, a);
    var theta := angle + k as real * TwoPi;
    if theta < TwoPi {
      assert -1 < j - k < 1;
      assert a == theta;
    } else {
      assert -1 < j - k + 1 < 1;
      assert a == theta - TwoPi;
    }
  }

  /** The exceptional point: an arc whose end lands exactly on a full turn does not
      accept its own end angle when it starts past 0. */
  lemma WithinArcMissesFullTurnEnd(angleS: real)
    requires 0.0 < angleS < TwoPi
    ensures OnArcAt(angleS, TwoPi - angleS, 0.0, 1)
    ensures !WithinArc(angleS, TwoPi - angleS, 0.0)
  {
    FixAngleInRange(0.0);
  }

  class Arc {
    var pos: Vec
    var r: real
    var angleS: real
    var angleD: real
    /** The start and end handles, relative to the centre. */
    var rStart: Vec
    var rEnd: Vec
    const strokeWeight: real

    constructor (x: real, y: real, r: real, angleS: real, angleD: real, m: Trig)
      ensures pos == Vec(x, y) && this.r == r && this.angleS == angleS && this.angleD == angleD
      ensures rStart == Scale(m.FromAngle(angleS), r)
      ensures rEnd == Scale(m.FromAngle(angleS + angleD), r)
      ensures strokeWeight == 2.0
    {
      pos := Vec(x, y);
      this.r := r;
      this.angleS := angleS;
      this.angleD := angleD;
      rStart := Scale(m.FromAngle(angleS), r);
      rEnd := Scale(m.FromAngle(angleS + angleD), r);
      strokeWeight := 2.0;
    }

    /** The ring of width twice the stroke weight around the arc's circle. */
    predicate InBand(p: Vec)
      reads this
    {
      var d := MagSq(Sub(p, pos));
      d >= (r - strokeWeight) * (r - strokeWeight) && d <= (r + strokeWeight) * (r + strokeWeight)
    }

    predicate NearStart(p: Vec)
      reads this
    {
      CircleContains(rStart.x + pos.x, rStart.y + pos.y, 5.0, p.x, p.y)
    }

    predicate NearEnd(p: Vec)
      reads this
    {
      CircleContains(rEnd.x + pos.x, rEnd.y + pos.y, 5.0, p.x, p.y)
    }

    /** `contains(pt)`: the start handle first, then the end handle, then whether the
        point lies on the drawn arc. */
    function Contains(p: Vec, m: Trig): (res: Prop)
      reads this
      ensures res == Named("rotate") <==> NearStart(p)
      ensures res == Named("resize") <==> !NearStart(p) && NearEnd(p)
      ensures res.Flag? <==> !NearStart(p) && !NearEnd(p)
    {
      if NearStart(p) then Named("rotate")
      else if NearEnd(p) then Named("resize")
      else
        var op := Sub(p, pos);
        Flag(InBand(p) && WithinArc(angleS, angleD, m.heading(op)))
    }

    /** A point the hit test accepts away from the handles is within the stroke of the
        circle and, at its heading, on the arc. */
    lemma ContainsOnArc(p: Vec, m: Trig)
      requires 0.0 <= angleS < TwoPi && angleD >= 0.0 && m.heading(Sub(p, pos)) >= -TwoPi
      requires Contains(p, m) == Flag(true)
      ensures InBand(p)
      ensures exists k: int :: OnArcAt(angleS, angleD, m.heading(Sub(p, pos)), k)
    {
      WithinArcSound(angleS, angleD, m.heading(Sub(p, pos)));
    }

    /** `morph(target, tag)`. 'rotate' turns the start handle towards the target and keeps
        the span; 'resize' sets the span from the start angle to the target's heading and
        the radius to the target's distance (`opMag`); anything else moves the centre to
        the target minus its grab offset. */
    method Morph(targetPos: Vec, targetDis: Vec, tag: Prop, m: Trig, opMag: real)
      requires tag == Named("resize") ==> IsMag(opMag, Sub(targetPos, pos))
      modifies this
      ensures var op := Sub(targetPos, old(pos));
        if tag == Named("rotate") then
          && angleS == FixAngle(m.heading(op))
          && (m.heading(op) >= -TwoPi ==> 0.0 <= angleS < TwoPi)
          && (exists k: int :: Turns(k, m.heading(op), angleS))
          && rStart == Scale(m.normalize(op), old(r))
          && rEnd == m.rotate(rStart, old(angleD))
          && pos == old(pos) && r == old(r) && angleD == old(angleD)
        else if tag == Named("resize") then
          && angleD == FixAngle(m.heading(op) - old(angleS))
          && r * r == MagSq(op) && r >= 0.0
          && rStart == Scale(m.normalize(old(rStart)), r)
          && rEnd == Scale(m.FromAngle(old(angleS) + angleD), r)
          && pos == old(pos) && angleS == old(angleS)
        else
          && pos == Sub(targetPos, targetDis)
          && r == old(r) && angleS == old(angleS) && angleD == old(angleD)
          && rStart == old(rStart) && rEnd == old(rEnd)
    {
      var op := Sub(targetPos, pos);
      if tag == Named("rotate") {
        angleS := FixAngles([m.heading(op)])[0];
        rStart := Scale(m.normalize(op), r);
        rEnd := m.rotate(rStart, angleD);
      } else if tag == Named("resize") {
        angleD := FixAngles([m.heading(op) - angleS])[0];
        r := opMag;
        rStart := Scale(m.normalize(rStart), r);
        rEnd := Scale(m.FromAngle(angleS + angleD), r);
      } else {
        pos := Sub(targetPos, targetDis);
      }
    }

    /** `duplicate()`: a new arc with the same centre, radius and angles, whose handles are
        recomputed from the angles. */
    method Duplicate(m: Trig) returns (copy: Arc)
      ensures fresh(copy)
      ensures copy.pos == pos && copy.r == r && copy.angleS == angleS && copy.angleD == angleD
      ensures copy.rStart == Scale(m.FromAngle(angleS), r)
      ensures copy.rEnd == Scale(m.FromAngle(angleS + angleD), r)
    {
      copy := new Arc(pos.x, pos.y, r, angleS, angleD, m);
    }

    /** The arc as a surface of the scene. */
    function AsSurface(): Surface
      reads this
    {
      ArcMirror(pos, r, angleS, angleD)
    }
  }

  /** `Arc.build(holder)`: nothing without a first build point; otherwise an arc centred at
      that point, with the point's distance from the holder as radius (`radius`), the
      reversed heading from the holder as start angle, and a span of 0.1. */
  method Build(history: seq<Vec>, holderPos: Vec, radius: real, m: Trig) returns (arc: Arc?)
    requires |history| >= 1 ==> IsMag(radius, Sub(history[0], holderPos))
    ensures arc == null <==> |history| == 0
    ensures arc != null ==>
      && fresh(arc)
      && arc.pos == history[0] && arc.r == radius && arc.angleD == 0.1
      && arc.angleS == FixAngle(m.heading(Sub(history[0], holderPos)) - Pi)
  {
    if |history| < 1 {
      return null;
    }
    var startPos := history[0];
    var startAngle := FixAngles([m.heading(Sub(startPos, holderPos)) - Pi])[0];
    arc := new Arc(startPos.x, startPos.y, radius, startAngle, 0.1, m);
  }
}
