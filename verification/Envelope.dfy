/** The bounding box of a geometry tree (gpkgEnvelope, driver/gpkg_functions.go). */
module Envelope {
  import opened Values
  import opened Wkb
  import opened Doubles

  // ----- Boxes -----

  datatype XY = XY(x: nat, y: nat)

  datatype Box = Box(ok: bool, minX: nat, maxX: nat, minY: nat, maxY: nat)

  const NEW_BOX := Box(false, MAX_DOUBLE, Negated(MAX_DOUBLE), MAX_DOUBLE, Negated(MAX_DOUBLE))

  /** `low` selects the lower bounds. */
  predicate Before(low: bool, x: nat, y: nat) {
    if low then Less(x, y) else Less(y, x)
  }

  function Better(low: bool, bound: nat, x: nat): nat {
    if Before(low, x, bound) then x else bound
  }

  function Added(b: Box, p: XY): Box {
    Box(true, Better(true, b.minX, p.x), Better(false, b.maxX, p.x), Better(true, b.minY, p.y), Better(false, b.maxY, p.y))
  }

  function Widened(b: Box, ps: seq<XY>): Box
    decreases |ps|
  {
    if ps == [] then b else Widened(Added(b, ps[0]), ps[1..])
  }

  lemma {:induction false} WidenedConcat(b: Box, ps: seq<XY>, qs: seq<XY>)
    ensures Widened(b, ps + qs) == Widened(Widened(b, ps), qs)
    decreases |ps|
  {
    if ps == [] {
      assert ps + qs == qs;
    } else {
      assert (ps + qs)[0] == ps[0] && (ps + qs)[1..] == ps[1..] + qs;
      WidenedConcat(Added(b, ps[0]), ps[1..], qs);
    }
  }

  // ----- The box is the least one -----

  /** The bound on one side after some ordinates. */
  function Bound(low: bool, start: nat, xs: seq<nat>): nat
    decreases |xs|
  {
    if xs == [] then start else Bound(low, Better(low, start, xs[0]), xs[1..])
  }

  /** A bound is one of the ordinates or the start, and no ordinate nor the start lies beyond it. */
  lemma {:induction false} BoundIs(low: bool, start: nat, xs: seq<nat>)
    requires !IsNaN(start)
    ensures var r := Bound(low, start, xs);
            && !IsNaN(r) && (r == start || r in xs) && !Before(low, start, r)
            && forall k | 0 <= k < |xs| :: !Before(low, xs[k], r)
    decreases |xs|
  {
    if xs != [] {
      var next := Better(low, start, xs[0]);
      BoundIs(low, next, xs[1..]);
      forall k | 0 <= k < |xs| ensures !Before(low, xs[k], Bound(low, start, xs)) {
        if k > 0 {
          assert xs[k] == xs[1..][k - 1];
        }
      }
    }
  }

  function Start(low: bool): nat {
    if low then MAX_DOUBLE else Negated(MAX_DOUBLE)
  }

  /** The infinity a fresh bound does not reach. */
  function Unreached(low: bool): nat {
    if low then INFINITY else Negated(INFINITY)
  }

  ghost predicate IsExtreme(low: bool, r: nat, xs: seq<nat>) {
    r in xs && forall k | 0 <= k < |xs| :: !Before(low, xs[k], r)
  }

  lemma {:induction false} AllUnreached(low: bool, xs: seq<nat>)
    requires forall k | 0 <= k < |xs| :: xs[k] == Unreached(low)
    ensures Bound(low, Start(low), xs) == Start(low)
    decreases |xs|
  {
    if xs != [] {
      AllUnreached(low, xs[1..]);
    }
  }

  lemma BeyondStart(low: bool, x: nat)
    requires !IsNaN(x) && x != Unreached(low) && x < 2 * SIGN && !Before(low, x, Start(low))
    ensures x == Start(low)
  {
  }

  /**
   From a fresh bound, ordinates that are numbers give their least (greatest)
   one exactly when not all of them are the infinity on that side.
   */
  lemma BoundIsExtremeIff(low: bool, xs: seq<nat>)
    requires xs != [] && forall k | 0 <= k < |xs| :: xs[k] < 2 * SIGN && !IsNaN(xs[k])
    ensures IsExtreme(low, Bound(low, Start(low), xs), xs) <==> exists k :: 0 <= k < |xs| && xs[k] != Unreached(low)
  {
    var r := Bound(low, Start(low), xs);
    BoundIs(low, Start(low), xs);
    if k :| 0 <= k < |xs| && xs[k] != Unreached(low) {
      if r !in xs {
        BeyondStart(low, xs[k]);
      }
    } else {
      AllUnreached(low, xs);
    }
  }

  function Xs(ps: seq<XY>): (xs: seq<nat>)
    ensures |xs| == |ps|
  {
    seq(|ps|, i requires 0 <= i < |ps| => ps[i].x)
  }

  function Ys(ps: seq<XY>): (ys: seq<nat>)
    ensures |ys| == |ps|
  {
    seq(|ps|, i requires 0 <= i < |ps| => ps[i].y)
  }

  lemma {:induction false} SideBySide(b: Box, ps: seq<XY>)
    ensures var r := Widened(b, ps);
            && r.ok == (b.ok || ps != [])
            && r.minX == Bound(true, b.minX, Xs(ps)) && r.maxX == Bound(false, b.maxX, Xs(ps))
            && r.minY == Bound(true, b.minY, Ys(ps)) && r.maxY == Bound(false, b.maxY, Ys(ps))
    decreases |ps|
  {
    if ps != [] {
      SideBySide(Added(b, ps[0]), ps[1..]);
      assert Xs(ps)[1..] == Xs(ps[1..]) && Ys(ps)[1..] == Ys(ps[1..]);
    }
  }

  ghost predicate AllFinite(ps: seq<XY>) {
    forall i | 0 <= i < |ps| :: IsFinite(ps[i].x) && IsFinite(ps[i].y) && ps[i].x < 2 * SIGN && ps[i].y < 2 * SIGN
  }

  /** The box around finite pairs is the least one: each side is attained and none is crossed; it is set iff there is a pair. */
  lemma LeastBox(ps: seq<XY>)
    requires AllFinite(ps)
    ensures Widened(NEW_BOX, ps).ok <==> ps != []
    ensures ps != [] ==>
              var r := Widened(NEW_BOX, ps);
              && IsExtreme(true, r.minX, Xs(ps)) && IsExtreme(false, r.maxX, Xs(ps))
              && IsExtreme(true, r.minY, Ys(ps)) && IsExtreme(false, r.maxY, Ys(ps))
  {
    SideBySide(NEW_BOX, ps);
    if ps != [] {
      assert IsFinite(Xs(ps)[0]) && IsFinite(Ys(ps)[0]);
      BoundIsExtremeIff(true, Xs(ps));
      BoundIsExtremeIff(false, Xs(ps));
      BoundIsExtremeIff(true, Ys(ps));
      BoundIsExtremeIff(false, Ys(ps));
    }
  }

  // ----- The pairs of a tree -----

  /** The two pairs that widen the box by the arc through three points. */
  type Arcs = (XY, XY, XY) -> (XY, XY)

  /** A point whose every ordinate is NaN is empty. */
  predicate IsEmptyPoint(ords: seq<nat>) {
    forall k | 0 <= k < |ords| :: IsNaN(ords[k])
  }

  function Pair(ords: seq<nat>): XY
    requires |ords| >= 2
  {
    XY(ords[0], ords[1])
  }

  predicate Wide(pts: seq<seq<nat>>) {
    forall k | 0 <= k < |pts| :: |pts[k]| >= 2
  }

  function PointPairs(pts: seq<seq<nat>>): (ps: seq<XY>)
    requires Wide(pts)
    ensures |ps| == |pts|
  {
    seq(|pts|, i requires 0 <= i < |pts| => Pair(pts[i]))
  }

  /** Consecutive arcs share their end points. */
  function ArcPairs(pts: seq<seq<nat>>, arcs: Arcs): seq<XY>
    requires Wide(pts)
  {
    if |pts| < 3 then []
    else
      var a := arcs(Pair(pts[0]), Pair(pts[1]), Pair(pts[2]));
      [a.0, a.1] + ArcPairs(pts[2..], arcs)
  }

  predicate WideRings(rings: seq<seq<seq<nat>>>) {
    forall k | 0 <= k < |rings| :: Wide(rings[k])
  }

  function RingPairs(rings: seq<seq<seq<nat>>>): seq<XY>
    requires WideRings(rings)
  {
    if rings == [] then [] else PointPairs(rings[0]) + RingPairs(rings[1..])
  }

  predicate WideBody(b: Body)
    decreases b
  {
    match b
    case Point(ords) => |ords| >= 2
    case LineString(pts) => Wide(pts)
    case CircularString(pts) => Wide(pts)
    case Polygon(rings) => WideRings(rings)
    case Multi(_, ms) => WideMembers(ms)
  }

  predicate WideGeometry(g: Geometry)
    decreases g
  {
    WideBody(g.body)
  }

  predicate WideMembers(ms: seq<Geometry>)
    decreases ms
  {
    ms != [] ==> WideGeometry(ms[0]) && WideMembers(ms[1..])
  }

  function BodyPairs(b: Body, arcs: Arcs): seq<XY>
    requires WideBody(b)
    decreases b
  {
    match b
    case Point(ords) => if IsEmptyPoint(ords) then [] else [Pair(ords)]
    case LineString(pts) => PointPairs(pts)
    case CircularString(pts) => ArcPairs(pts, arcs)
    case Polygon(rings) => RingPairs(rings)
    case Multi(_, ms) => MemberPairs(ms, arcs)
  }

  /** The XY pairs of a tree, in reading order. */
  function Pairs(g: Geometry, arcs: Arcs): seq<XY>
    requires WideGeometry(g)
    decreases g
  {
    BodyPairs(g.body, arcs)
  }

  function MemberPairs(ms: seq<Geometry>, arcs: Arcs): seq<XY>
    requires WideMembers(ms)
    decreases ms
  {
    if ms == [] then [] else Pairs(ms[0], arcs) + MemberPairs(ms[1..], arcs)
  }

  lemma {:induction false} WellFormedIsWide(g: Geometry, dims: int, allowed: Option<seq<nat>>)
    requires GeometryOk(g, dims, allowed)
    ensures WideGeometry(g)
    decreases g
  {
    match g.body
    case Polygon(rings) =>
      forall k | 0 <= k < |rings| ensures Wide(rings[k]) {
        assert ListOk(rings[k], Coords(g.modifier));
      }
    case Multi(kind, ms) => MembersAreWide(ms, g.modifier, AllowedIn(kind));
    case _ =>
  }

  lemma {:induction false} MembersAreWide(ms: seq<Geometry>, dims: int, allowed: Option<seq<nat>>)
    requires MembersOk(ms, dims, allowed)
    ensures WideMembers(ms)
    decreases ms
  {
    if ms != [] {
      WellFormedIsWide(ms[0], dims, allowed);
      MembersAreWide(ms[1..], dims, allowed);
    }
  }
}
