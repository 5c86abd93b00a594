/**
 * Circular geofences and the sticky boundary-crossing detector that runs over
 * them (src/gps/geoCircle.c, include/gps/geoCircle.h).
 *
 * The firmware's planar distance (distPythag) and its point validity test
 * (isValidPoint) are float routines whose bodies are not part of this model;
 * they enter as the two fields of a `Geometry`, and every property below holds
 * for every choice of them.
 */
module GeoCircle {

  /** A GPS position in degrees (GeoPoint). It has no elevation, so nothing here can depend on one. */
  datatype Point = Point(latitude: real, longitude: real)

  /** A position and its timestamp in milliseconds since the first fix (TinyTimeLoc). */
  datatype TimeLoc = TimeLoc(point: Point, time: int)

  /** What the memset of a fresh boundary leaves in each history slot. */
  const ZeroTimeLoc: TimeLoc := TimeLoc(Point(0.0, 0.0), 0)

  /** The two geometry routines the geofence code calls: distPythag and isValidPoint. */
  datatype Geometry = Geometry(dist: (Point, Point) -> real, isValidPoint: Point -> bool)

  /** struct GeoCircle: a centre and a radius in meters. */
  datatype Circle = Circle(center: Point, radius: real)

  /** gc_createGeoCircle: a plain constructor; nothing is validated. */
  function CreateCircle(p: Point, r: real): (c: Circle)
    ensures c.center == p && c.radius == r
  {
    Circle(p, r)
  }

  /** gc_isPointInGeoCircle: the closed disc, in the planar distance of `g`: a point on the rim is inside, one beyond it is not. */
  predicate IsPointInCircle(g: Geometry, p: Point, c: Circle): (r: bool)
    ensures g.dist(p, c.center) == c.radius ==> r
    ensures g.dist(p, c.center) > c.radius ==> !r
  {
    g.dist(p, c.center) <= c.radius
  }

  /** gc_isValidGeoCircle. */
  predicate IsValidCircle(g: Geometry, c: Circle): (r: bool)
    ensures r ==> g.isValidPoint(c.center)
    ensures c.radius <= 0.0 ==> !r
  {
    g.isValidPoint(c.center) && c.radius > 0.0
  }

  /** Creating a circle accepts any centre and radius; validity is a separate question. */
  lemma CreateCircleValidity(g: Geometry, p: Point, r: real)
    ensures IsValidCircle(g, CreateCircle(p, r)) <==> g.isValidPoint(p) && r > 0.0
    ensures r <= 0.0 ==> !IsValidCircle(g, CreateCircle(p, r))
  {
  }

  /**
   * struct GeoCircleBoundary as a value: three samples, newest first, the circle
   * and the two flags. The class `Boundary` below is the in-place version and is
   * proved to follow `Step`.
   */
  datatype BoundaryState = BoundaryState(samples: seq<TimeLoc>, circle: Circle, breached: bool, crossed: bool)

  predicate WellFormed(b: BoundaryState)
  {
    |b.samples| == 3
  }

  /** gc_createGeoCircleBoundary: the given circle, both flags clear, all samples zeroed. */
  function CreateBoundary(c: Circle): (b: BoundaryState)
    ensures WellFormed(b) && b.circle == c
    ensures !b.breached && !b.crossed
    ensures forall i :: 0 <= i < 3 ==> b.samples[i] == ZeroTimeLoc
  {
    BoundaryState([ZeroTimeLoc, ZeroTimeLoc, ZeroTimeLoc], c, false, false)
  }

  /**
   * One call of gc_addTinyTimeLocSample: the new boundary and the value returned.
   * Only slot 1 has to hold a valid point before the distances are compared.
   */
  function Step(g: Geometry, b: BoundaryState, tl: TimeLoc): (r: (BoundaryState, bool))
    requires WellFormed(b)
    ensures WellFormed(r.0) && r.0.circle == b.circle
    ensures r.1 == r.0.crossed
    ensures b.breached ==> r.0.breached
    ensures b.crossed ==> r.0 == b
  {
    if b.crossed then (b, true)
    else if !IsValidCircle(g, b.circle) then (b, false)
    else if !b.breached && !IsPointInCircle(g, tl.point, b.circle) then (b, false)
    else
      var shifted := [tl, b.samples[0], b.samples[1]];
      if !g.isValidPoint(shifted[1].point) then
        (b.(samples := shifted, breached := true), false)
      else
        var crossed := g.dist(shifted[1].point, b.circle.center) < g.dist(shifted[0].point, b.circle.center);
        (b.(samples := shifted, breached := true, crossed := crossed), crossed)
  }

  /** A detector around an invalid circle ignores every sample. */
  lemma StepInvalidCircleIsInert(g: Geometry, b: BoundaryState, tl: TimeLoc)
    requires WellFormed(b) && !b.crossed && !IsValidCircle(g, b.circle)
    ensures Step(g, b, tl) == (b, false)
  {
  }

  /** Before the breach, a sample outside the circle is ignored. */
  lemma StepIgnoresOutsideBeforeBreach(g: Geometry, b: BoundaryState, tl: TimeLoc)
    requires WellFormed(b) && !b.crossed && !b.breached
    requires !IsPointInCircle(g, tl.point, b.circle)
    ensures Step(g, b, tl) == (b, false)
  {
  }

  /**
   * A recorded sample: the history shifts newest-first, the breach is latched, and
   * the crossing is declared iff slot 1 is valid and the vehicle is now farther from
   * the centre than it was one sample ago.
   */
  lemma StepRecords(g: Geometry, b: BoundaryState, tl: TimeLoc)
    requires WellFormed(b) && !b.crossed && IsValidCircle(g, b.circle)
    requires b.breached || IsPointInCircle(g, tl.point, b.circle)
    ensures Step(g, b, tl).0.samples == [tl, b.samples[0], b.samples[1]]
    ensures Step(g, b, tl).0.breached
    ensures Step(g, b, tl).1 <==>
      g.isValidPoint(b.samples[0].point) &&
      g.dist(b.samples[0].point, b.circle.center) < g.dist(tl.point, b.circle.center)
  {
  }

  /** The boundary after a whole stream of samples. */
  function Feed(g: Geometry, b: BoundaryState, tls: seq<TimeLoc>): (r: BoundaryState)
    requires WellFormed(b)
    ensures WellFormed(r) && r.circle == b.circle
    ensures b.breached ==> r.breached
    ensures b.crossed ==> r.crossed
    decreases |tls|
  {
    if tls == [] then b else Feed(g, Step(g, b, tls[0]).0, tls[1..])
  }

  /** The value each call returns over a stream of samples. */
  function Replies(g: Geometry, b: BoundaryState, tls: seq<TimeLoc>): (r: seq<bool>)
    requires WellFormed(b)
    ensures |r| == |tls|
    decreases |tls|
  {
    if tls == [] then [] else [Step(g, b, tls[0]).1] + Replies(g, Step(g, b, tls[0]).0, tls[1..])
  }

  /** Every reply is the crossed flag of the boundary right after that call. */
  lemma {:induction false} ReplyIsCrossedFlag(g: Geometry, b: BoundaryState, tls: seq<TimeLoc>, i: nat)
    requires WellFormed(b) && i < |tls|
    ensures Replies(g, b, tls)[i] == Feed(g, b, tls[..i + 1]).crossed
    decreases |tls|
  {
    assert tls[..i + 1][0] == tls[0];
    if i > 0 {
      ReplyIsCrossedFlag(g, Step(g, b, tls[0]).0, tls[1..], i - 1);
      assert tls[..i + 1][1..] == tls[1..][..i];
    }
  }

  /** A crossed boundary never changes again, whatever it is fed. */
  lemma {:induction false} FeedCrossedIsFixed(g: Geometry, b: BoundaryState, tls: seq<TimeLoc>)
    requires WellFormed(b) && b.crossed
    ensures Feed(g, b, tls) == b
    ensures forall i :: 0 <= i < |tls| ==> Replies(g, b, tls)[i]
    decreases |tls|
  {
    if tls != [] {
      FeedCrossedIsFixed(g, b, tls[1..]);
    }
  }

  /** Once a call returns true, every later call returns true. */
  lemma {:induction false} RepliesAreSticky(g: Geometry, b: BoundaryState, tls: seq<TimeLoc>, i: nat, j: nat)
    requires WellFormed(b) && i <= j < |tls|
    requires Replies(g, b, tls)[i]
    ensures Replies(g, b, tls)[j]
    decreases |tls|
  {
    var next := Step(g, b, tls[0]).0;
    if i == 0 {
      if j > 0 {
        FeedCrossedIsFixed(g, next, tls[1..]);
      }
    } else {
      RepliesAreSticky(g, next, tls[1..], i - 1, j - 1);
    }
  }

  /** A boundary around an invalid circle never crosses, and never changes. */
  lemma {:induction false} InvalidCircleNeverCrosses(g: Geometry, b: BoundaryState, tls: seq<TimeLoc>)
    requires WellFormed(b) && !b.crossed && !IsValidCircle(g, b.circle)
    ensures Feed(g, b, tls) == b
    ensures forall i :: 0 <= i < |tls| ==> !Replies(g, b, tls)[i]
    decreases |tls|
  {
    if tls != [] {
      InvalidCircleNeverCrosses(g, b, tls[1..]);
    }
  }

  /**
   * A drive past the centre: distances 15, 5, 20 to a circle of radius between 5
   * and 15. The first sample is ignored, the second breaches, the third crosses. The
   * crossing is declared while slot 2 still holds the zeroed sample: the code asks
   * only for slot 1 to be valid.
   */
  lemma DrivePastCentre(g: Geometry, c: Circle, t1: TimeLoc, t2: TimeLoc, t3: TimeLoc)
    requires IsValidCircle(g, c) && 5.0 <= c.radius < 15.0
    requires !g.isValidPoint(ZeroTimeLoc.point) && g.isValidPoint(t2.point)
    requires g.dist(t1.point, c.center) == 15.0
    requires g.dist(t2.point, c.center) == 5.0
    requires g.dist(t3.point, c.center) == 20.0
    ensures Replies(g, CreateBoundary(c), [t1, t2, t3]) == [false, false, true]
    ensures Feed(g, CreateBoundary(c), [t1, t2, t3]).samples == [t3, t2, ZeroTimeLoc]
  {
    var b0 := CreateBoundary(c);
    var b1 := Step(g, b0, t1).0;
    assert b1 == b0;
    var b2 := Step(g, b1, t2).0;
    assert b2.samples == [t2, ZeroTimeLoc, ZeroTimeLoc] && b2.breached && !b2.crossed;
    var b3 := Step(g, b2, t3).0;
    assert b3.samples == [t3, t2, ZeroTimeLoc] && b3.crossed;
    assert [t1, t2, t3][1..] == [t2, t3];
    assert [t2, t3][1..] == [t3];
    assert [t3][1..] == [];
    assert Replies(g, b3, []) == [] && Feed(g, b3, []) == b3;
    assert Replies(g, b2, [t3]) == [true] && Feed(g, b2, [t3]) == b3;
    assert Replies(g, b1, [t2, t3]) == [false, true] && Feed(g, b1, [t2, t3]) == b3;
  }

  /**
   * struct GeoCircleBoundary as the firmware keeps it: a record updated in place
   * through a pointer, with its history in a three-slot array.
   */
  class Boundary {
    const samples: array<TimeLoc>
    var circle: Circle
    var breached: bool
    var crossed: bool

    ghost predicate Valid()
      reads this
    {
      samples.Length == 3
    }

    /** The value this record stands for. */
    ghost function State(): BoundaryState
      reads this, samples
      requires Valid()
    {
      BoundaryState(samples[..], circle, breached, crossed)
    }

    /** gc_createGeoCircleBoundary. */
    constructor (c: Circle)
      ensures Valid() && fresh(samples)
      ensures State() == CreateBoundary(c)
    {
      samples := new TimeLoc[3](_ => ZeroTimeLoc);
      circle := c;
      breached := false;
      crossed := false;
      new;
      assert samples[..] == [ZeroTimeLoc, ZeroTimeLoc, ZeroTimeLoc];
    }

    /** gc_addTinyTimeLocSample: shifts the history in place and latches the flags. */
    method AddSample(g: Geometry, tl: TimeLoc) returns (r: bool)
      requires Valid()
      modifies this, samples
      ensures Valid()
      ensures (State(), r) == Step(g, old(State()), tl)
    {
      if crossed {
        return true;
      }
      if !IsValidCircle(g, circle) {
        return false;
      }
      if !breached && !IsPointInCircle(g, tl.point, circle) {
        return false;
      }
      breached := true;
      samples[2] := samples[1];
      samples[1] := samples[0];
      samples[0] := tl;
      assert samples[..] == [tl, old(samples[0]), old(samples[1])];
      if !g.isValidPoint(samples[1].point) {
        return false;
      }
      var dist1 := g.dist(samples[1].point, circle.center);
      var dist0 := g.dist(samples[0].point, circle.center);
      crossed := dist1 < dist0;
      return crossed;
    }
  }
}
