/** The envelope of a blob is the least box around the points of its geometry tree. */
module WkbBox {
  import opened Values
  import opened Wkb
  import opened WkbGrammar
  import opened Doubles
  import opened Envelope
  import opened WkbReader

  /** Point p is one the envelope must cover: an XY of the tree, at whatever depth, or one that bounds an arc. */
  ghost predicate InTree(p: XY, g: Geometry, arcs: Arcs)
    decreases g
  {
    match g.body
    case Point(ords) => (exists k :: 0 <= k < |ords| && !IsNaN(ords[k])) && Stands(p, ords)
    case LineString(pts) => InPoints(p, pts)
    case CircularString(pts) => exists i: nat :: OnArc(p, pts, 2 * i, arcs)
    case Polygon(rings) => exists k :: 0 <= k < |rings| && InPoints(p, rings[k])
    case Multi(_, ms) => InMembers(p, ms, arcs)
  }

  ghost predicate InMembers(p: XY, ms: seq<Geometry>, arcs: Arcs)
    decreases ms
  {
    ms != [] && (InTree(p, ms[0], arcs) || InMembers(p, ms[1..], arcs))
  }

  /** The first ordinate is X, the second is Y. */
  ghost predicate Stands(p: XY, ords: seq<nat>) {
    |ords| >= 2 && p.x == ords[0] && p.y == ords[1]
  }

  ghost predicate InPoints(p: XY, pts: seq<seq<nat>>) {
    exists k :: 0 <= k < |pts| && Stands(p, pts[k])
  }

  /** One of the two points that bound the arc from point i to point i + 2. */
  ghost predicate OnArc(p: XY, pts: seq<seq<nat>>, i: nat, arcs: Arcs) {
    && i + 2 < |pts|
    && exists a, b, c ::
         && Stands(a, pts[i]) && Stands(b, pts[i + 1]) && Stands(c, pts[i + 2])
         && (p == arcs(a, b, c).0 || p == arcs(a, b, c).1)
  }

  lemma PointPairsIff(p: XY, pts: seq<seq<nat>>)
    requires Wide(pts)
    ensures p in PointPairs(pts) <==> InPoints(p, pts)
  {
    if k :| 0 <= k < |pts| && Stands(p, pts[k]) {
      assert PointPairs(pts)[k] == p;
    }
  }

  lemma {:induction false} RingPairsIff(p: XY, rings: seq<seq<seq<nat>>>)
    requires WideRings(rings)
    ensures p in RingPairs(rings) <==> exists k :: 0 <= k < |rings| && InPoints(p, rings[k])
    decreases |rings|
  {
    if rings != [] {
      PointPairsIff(p, rings[0]);
      RingPairsIff(p, rings[1..]);
      if k :| 0 <= k < |rings| && InPoints(p, rings[k]) {
        assert k > 0 ==> rings[k] == rings[1..][k - 1];
      }
      if k :| 0 <= k < |rings[1..]| && InPoints(p, rings[1..][k]) {
        assert rings[k + 1] == rings[1..][k];
      }
    }
  }

  /** The arc that starts at point i, on the points from there on. */
  lemma ArcFrom(p: XY, pts: seq<seq<nat>>, n: nat, i: nat, arcs: Arcs)
    requires n <= |pts|
    ensures OnArc(p, pts[n..], i, arcs) <==> OnArc(p, pts, n + i, arcs)
  {
  }

  lemma {:induction false} ArcPairsIff(p: XY, pts: seq<seq<nat>>, arcs: Arcs)
    requires Wide(pts)
    ensures p in ArcPairs(pts, arcs) <==> exists i: nat :: OnArc(p, pts, 2 * i, arcs)
    decreases |pts|
  {
    if |pts| >= 3 {
      ArcPairsIff(p, pts[2..], arcs);
      FirstArc(p, pts, arcs);
      if i: nat :| OnArc(p, pts, 2 * i, arcs) {
        if i > 0 {
          ArcFrom(p, pts, 2, 2 * (i - 1), arcs);
        }
      }
      if i: nat :| OnArc(p, pts[2..], 2 * i, arcs) {
        ArcFrom(p, pts, 2, 2 * i, arcs);
        assert OnArc(p, pts, 2 * (i + 1), arcs);
      }
    }
  }

  lemma FirstArc(p: XY, pts: seq<seq<nat>>, arcs: Arcs)
    requires Wide(pts) && |pts| >= 3
    ensures p in ArcPairs(pts, arcs) <==> OnArc(p, pts, 2 * 0, arcs) || p in ArcPairs(pts[2..], arcs)
  {
    var a, b, c := Pair(pts[0]), Pair(pts[1]), Pair(pts[2]);
    assert Stands(a, pts[0]) && Stands(b, pts[1]) && Stands(c, pts[2]);
  }

  lemma {:induction false} PairsIff(p: XY, g: Geometry, arcs: Arcs)
    requires WideGeometry(g)
    ensures p in Pairs(g, arcs) <==> InTree(p, g, arcs)
    decreases g
  {
    match g.body
    case Point(_) =>
    case LineString(pts) => PointPairsIff(p, pts);
    case CircularString(pts) => ArcPairsIff(p, pts, arcs);
    case Polygon(rings) => RingPairsIff(p, rings);
    case Multi(_, ms) => MemberPairsIff(p, ms, arcs);
  }

  lemma {:induction false} MemberPairsIff(p: XY, ms: seq<Geometry>, arcs: Arcs)
    requires WideMembers(ms)
    ensures p in MemberPairs(ms, arcs) <==> InMembers(p, ms, arcs)
    decreases ms
  {
    if ms != [] {
      PairsIff(p, ms[0], arcs);
      MemberPairsIff(p, ms[1..], arcs);
    }
  }

  /** No point of the tree lies outside the box and each side touches one. */
  ghost predicate IsLeastBox(r: Box, g: Geometry, arcs: Arcs) {
    && (forall p | InTree(p, g, arcs) :: !Less(p.x, r.minX) && !Less(r.maxX, p.x) && !Less(p.y, r.minY) && !Less(r.maxY, p.y))
    && (exists p :: InTree(p, g, arcs) && p.x == r.minX)
    && (exists p :: InTree(p, g, arcs) && p.x == r.maxX)
    && (exists p :: InTree(p, g, arcs) && p.y == r.minY)
    && (exists p :: InTree(p, g, arcs) && p.y == r.maxY)
  }

  ghost predicate FiniteTree(g: Geometry, arcs: Arcs) {
    forall p | InTree(p, g, arcs) :: IsFinite(p.x) && IsFinite(p.y) && p.x < 2 * SIGN && p.y < 2 * SIGN
  }

  lemma SidesAreLeast(ps: seq<XY>, r: Box, g: Geometry, arcs: Arcs)
    requires forall p :: p in ps <==> InTree(p, g, arcs)
    requires IsExtreme(true, r.minX, Xs(ps)) && IsExtreme(false, r.maxX, Xs(ps))
    requires IsExtreme(true, r.minY, Ys(ps)) && IsExtreme(false, r.maxY, Ys(ps))
    ensures IsLeastBox(r, g, arcs)
  {
    forall p | InTree(p, g, arcs)
      ensures !Less(p.x, r.minX) && !Less(r.maxX, p.x) && !Less(p.y, r.minY) && !Less(r.maxY, p.y)
    {
      var i :| 0 <= i < |ps| && ps[i] == p;
      assert Xs(ps)[i] == p.x && Ys(ps)[i] == p.y;
    }
    AttainedX(ps, r.minX, g, arcs);
    AttainedX(ps, r.maxX, g, arcs);
    AttainedY(ps, r.minY, g, arcs);
    AttainedY(ps, r.maxY, g, arcs);
  }

  lemma AttainedX(ps: seq<XY>, x: nat, g: Geometry, arcs: Arcs)
    requires x in Xs(ps) && forall p :: p in ps <==> InTree(p, g, arcs)
    ensures exists p :: InTree(p, g, arcs) && p.x == x
  {
    var i :| 0 <= i < |ps| && Xs(ps)[i] == x;
    assert ps[i] in ps;
  }

  lemma AttainedY(ps: seq<XY>, y: nat, g: Geometry, arcs: Arcs)
    requires y in Ys(ps) && forall p :: p in ps <==> InTree(p, g, arcs)
    ensures exists p :: InTree(p, g, arcs) && p.y == y
  {
    var i :| 0 <= i < |ps| && Ys(ps)[i] == y;
    assert ps[i] in ps;
  }

  /**
   Whatever byte order each nested geometry declares: when all its points are
   finite the walk's box is set exactly when the tree has a point, and is then
   the least box around all of them. `arcs` gives the two points that bound the
   arc through three.
   */
  lemma WalkGivesLeastBox(buf: seq<byte>, dims: int, allowed: Option<seq<nat>>, arcs: Arcs)
    requires TakeGeometry(buf, dims, allowed).Took?
    ensures var g := TakeGeometry(buf, dims, allowed).value;
            && WideGeometry(g)
            && (FiniteTree(g, arcs) ==>
                  var r := Widened(NEW_BOX, Pairs(g, arcs));
                  && (r.ok <==> exists p :: InTree(p, g, arcs))
                  && (r.ok ==> IsLeastBox(r, g, arcs)))
  {
    var g := TakeGeometry(buf, dims, allowed).value;
    GeometryTaken(buf, dims, allowed);
    WellFormedIsWide(g, dims, allowed);
    if FiniteTree(g, arcs) {
      var ps := Pairs(g, arcs);
      forall p ensures p in ps <==> InTree(p, g, arcs) {
        PairsIff(p, g, arcs);
      }
      LeastBox(ps);
      if ps != [] {
        assert ps[0] in ps;
        SidesAreLeast(ps, Widened(NEW_BOX, ps), g, arcs);
      }
    }
  }
}
