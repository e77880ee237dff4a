/** A byte string is read as a geometry exactly when it starts with that geometry's bytes. */
module WkbGrammar {
  import opened Values
  import opened Wire
  import opened Wkb

  // ----- Bytes of a tree are read as the tree -----

  lemma WordBuilt(x: nat, n: nat, little: bool, rest: seq<byte>)
    requires x < Pow256(n)
    ensures TakeWord(WordThen(x, n, little, rest), n, little) == Took(x, rest)
  {
    var bs := WordBytes(x, n, little);
    WordBack(x, n, little);
    PrefixOf(bs, rest);
  }

  lemma PrefixOf(bs: seq<byte>, rest: seq<byte>)
    ensures (bs + rest)[..|bs|] == bs && (bs + rest)[|bs|..] == rest
  {
  }

  lemma {:induction false} OrdsBuilt(ords: seq<nat>, coords: nat, little: bool, rest: seq<byte>)
    requires OrdsOk(ords, coords)
    ensures TakeOrds(OrdsThen(ords, little, rest), coords, little) == Took(ords, rest)
    decreases |ords|
  {
    if ords != [] {
      WordBuilt(ords[0], WORD, little, OrdsThen(ords[1..], little, rest));
      OrdsBuilt(ords[1..], coords - 1, little, rest);
      assert ords == [ords[0]] + ords[1..];
    }
  }

  lemma {:induction false} PointsBuilt(pts: seq<seq<nat>>, coords: nat, little: bool, rest: seq<byte>)
    requires PointsOk(pts, coords)
    ensures TakePoints(PointsThen(pts, little, rest), |pts|, coords, little) == Took(pts, rest)
    decreases |pts|
  {
    if pts != [] {
      var tail := PointsThen(pts[1..], little, rest);
      OrdsBuilt(pts[0], coords, little, tail);
      PointsBuilt(pts[1..], coords, little, rest);
      PointsFrom(OrdsThen(pts[0], little, tail), pts[0], tail, pts[1..], rest, coords, little);
      assert pts == [pts[0]] + pts[1..];
    }
  }

  lemma PointsFrom(buf: seq<byte>, p: seq<nat>, r1: seq<byte>, ps: seq<seq<nat>>, rest: seq<byte>, coords: nat, little: bool)
    requires TakeOrds(buf, coords, little) == Took(p, r1) && TakePoints(r1, |ps|, coords, little) == Took(ps, rest)
    ensures TakePoints(buf, 1 + |ps|, coords, little) == Took([p] + ps, rest)
  {
  }

  lemma ListBuilt(pts: seq<seq<nat>>, coords: nat, little: bool, arcs: bool, rest: seq<byte>)
    requires ListOk(pts, coords) && (arcs ==> ArcCount(|pts|))
    ensures TakeList(ListThen(pts, little, rest), coords, little, arcs) == Took(pts, rest)
  {
    WordBuilt(|pts|, U32, little, PointsThen(pts, little, rest));
    PointsBuilt(pts, coords, little, rest);
  }

  lemma {:induction false} RingsBuilt(rings: seq<seq<seq<nat>>>, coords: nat, little: bool, rest: seq<byte>)
    requires RingsOk(rings, coords)
    ensures TakeRings(RingsThen(rings, little, rest), |rings|, coords, little) == Took(rings, rest)
    decreases |rings|
  {
    if rings != [] {
      ListBuilt(rings[0], coords, little, false, RingsThen(rings[1..], little, rest));
      RingsBuilt(rings[1..], coords, little, rest);
      assert rings == [rings[0]] + rings[1..];
    }
  }

  lemma SimpleBodyBuilt(b: Body, modifier: nat, little: bool, rest: seq<byte>)
    requires BodyOk(b, modifier) && !b.Multi?
    ensures TakeBody(BodyThen(b, little, rest), modifier, TypeCode(b), little) == Took(b, rest)
  {
    match b
    case Point(ords) => OrdsBuilt(ords, Coords(modifier), little, rest);
    case LineString(pts) => ListBuilt(pts, Coords(modifier), little, false, rest);
    case CircularString(pts) => ListBuilt(pts, Coords(modifier), little, true, rest);
    case Polygon(rings) =>
      WordBuilt(|rings|, U32, little, RingsThen(rings, little, rest));
      RingsBuilt(rings, Coords(modifier), little, rest);
  }

  lemma MultiBuilt(kind: nat, ms: seq<Geometry>, modifier: nat, little: bool, rest: seq<byte>)
    requires IsMulti(kind) && |ms| < Pow256(U32)
    requires TakeMembers(MembersThen(ms, rest), |ms|, modifier, AllowedIn(kind)) == Took(ms, rest)
    ensures TakeBody(BodyThen(Multi(kind, ms), little, rest), modifier, kind, little) == Took(Multi(kind, ms), rest)
  {
    WordBuilt(|ms|, U32, little, MembersThen(ms, rest));
  }

  lemma CodeParts(modifier: nat, typ: nat)
    requires modifier <= 3 && typ < 1000
    ensures var code := modifier * 1000 + typ;
            code / 1000 == modifier && code % 1000 == typ && code < Pow256(U32)
  {
    assert Pow256(2) == 65536;
  }

  lemma TypeBuilt(modifier: nat, typ: nat, little: bool, dims: int, allowed: Option<seq<nat>>, body: seq<byte>)
    requires Fitting(modifier, typ, dims, allowed) && 1 <= typ <= 10
    ensures TakeType(WordThen(modifier * 1000 + typ, U32, little, body), little, dims, allowed) == Took(modifier * 1000 + typ, body)
  {
    CodeParts(modifier, typ);
    WordBuilt(modifier * 1000 + typ, U32, little, body);
  }

  lemma OrderFirst(order: byte, tail: seq<byte>)
    ensures ([order] + tail)[0] == order && ([order] + tail)[1..] == tail
  {
  }

  lemma GeometryFrom(buf: seq<byte>, dims: int, allowed: Option<seq<nat>>, code: nat, body: seq<byte>, b: Body, rest: seq<byte>)
    requires buf != [] && TakeType(buf[1..], buf[0] != 0, dims, allowed) == Took(code, body)
    requires TakeBody(body, code / 1000, code % 1000, buf[0] != 0) == Took(b, rest)
    ensures TakeGeometry(buf, dims, allowed) == Took(Geometry(buf[0], code / 1000, b), rest)
  {
  }

  /** A header before the bytes of a body. */
  lemma HeadBuilt(g: Geometry, dims: int, allowed: Option<seq<nat>>, body: seq<byte>, rest: seq<byte>)
    requires Fitting(g.modifier, TypeCode(g.body), dims, allowed) && 1 <= TypeCode(g.body) <= 10
    requires TakeBody(body, g.modifier, TypeCode(g.body), g.Little()) == Took(g.body, rest)
    ensures TakeGeometry([g.order] + WordThen(g.modifier * 1000 + TypeCode(g.body), U32, g.Little(), body), dims, allowed) == Took(g, rest)
  {
    TypeBuilt(g.modifier, TypeCode(g.body), g.Little(), dims, allowed, body);
    BehindOrder(g, dims, allowed, WordThen(g.modifier * 1000 + TypeCode(g.body), U32, g.Little(), body), body, rest);
  }

  lemma BehindOrder(g: Geometry, dims: int, allowed: Option<seq<nat>>, tail: seq<byte>, body: seq<byte>, rest: seq<byte>)
    requires g.modifier <= 3 && 1 <= TypeCode(g.body) <= 10
    requires TakeType(tail, g.Little(), dims, allowed) == Took(g.modifier * 1000 + TypeCode(g.body), body)
    requires TakeBody(body, g.modifier, TypeCode(g.body), g.Little()) == Took(g.body, rest)
    ensures TakeGeometry([g.order] + tail, dims, allowed) == Took(g, rest)
  {
    var code := g.modifier * 1000 + TypeCode(g.body);
    CodeParts(g.modifier, TypeCode(g.body));
    OrderFirst(g.order, tail);
    GeometryFrom([g.order] + tail, dims, allowed, code, body, g.body, rest);
  }

  lemma GeometrySplits(g: Geometry, rest: seq<byte>)
    ensures GeometryThen(g, rest)
            == [g.order] + WordThen(g.modifier * 1000 + TypeCode(g.body), U32, g.Little(), BodyThen(g.body, g.Little(), rest))
  {
  }

  lemma {:induction false} GeometryBuilt(g: Geometry, dims: int, allowed: Option<seq<nat>>, rest: seq<byte>)
    requires GeometryOk(g, dims, allowed)
    ensures TakeGeometry(GeometryThen(g, rest), dims, allowed) == Took(g, rest)
    decreases g
  {
    if g.body.Multi? {
      MembersBuilt(g.body.members, g.modifier, AllowedIn(g.body.kind), rest);
      MultiBuilt(g.body.kind, g.body.members, g.modifier, g.Little(), rest);
    } else {
      SimpleBodyBuilt(g.body, g.modifier, g.Little(), rest);
    }
    GeometrySplits(g, rest);
    HeadBuilt(g, dims, allowed, BodyThen(g.body, g.Little(), rest), rest);
  }

  lemma {:induction false} MembersBuilt(ms: seq<Geometry>, dims: int, allowed: Option<seq<nat>>, rest: seq<byte>)
    requires MembersOk(ms, dims, allowed)
    ensures TakeMembers(MembersThen(ms, rest), |ms|, dims, allowed) == Took(ms, rest)
    decreases ms
  {
    if ms != [] {
      GeometryBuilt(ms[0], dims, allowed, MembersThen(ms[1..], rest));
      MembersBuilt(ms[1..], dims, allowed, rest);
      MembersFrom(MembersThen(ms, rest), ms[0], MembersThen(ms[1..], rest), ms[1..], rest, dims, allowed);
      assert ms == [ms[0]] + ms[1..];
    }
  }

  lemma MembersFrom(buf: seq<byte>, g: Geometry, r1: seq<byte>, gs: seq<Geometry>, rest: seq<byte>, dims: int, allowed: Option<seq<nat>>)
    requires TakeGeometry(buf, dims, allowed) == Took(g, r1) && TakeMembers(r1, |gs|, dims, allowed) == Took(gs, rest)
    ensures TakeMembers(buf, 1 + |gs|, dims, allowed) == Took([g] + gs, rest)
  {
  }

  // ----- What is read is the bytes of a well-formed tree -----

  lemma WordTaken(buf: seq<byte>, n: nat, little: bool)
    requires |buf| >= n > 0
    ensures WordOf(buf[..n], little) < Pow256(n) && buf == WordThen(WordOf(buf[..n], little), n, little, buf[n..])
  {
    WordForth(buf[..n], little);
    Cut(buf, n);
  }

  lemma Cut(buf: seq<byte>, n: nat)
    requires n <= |buf|
    ensures buf == buf[..n] + buf[n..]
  {
  }

  lemma {:induction false} OrdsTaken(buf: seq<byte>, coords: nat, little: bool)
    ensures var r := TakeOrds(buf, coords, little);
            r.Took? ==> OrdsOk(r.value, coords) && buf == OrdsThen(r.value, little, r.rest)
    decreases coords
  {
    var r := TakeOrds(buf, coords, little);
    if coords > 0 && r.Took? {
      WordTaken(buf, WORD, little);
      OrdsTaken(buf[WORD..], coords - 1, little);
      assert r.value[1..] == TakeOrds(buf[WORD..], coords - 1, little).value;
    }
  }

  lemma {:induction false} PointsTaken(buf: seq<byte>, n: nat, coords: nat, little: bool)
    ensures var r := TakePoints(buf, n, coords, little);
            r.Took? ==> PointsOk(r.value, coords) && buf == PointsThen(r.value, little, r.rest)
    decreases n
  {
    var r := TakePoints(buf, n, coords, little);
    if n > 0 && r.Took? {
      OrdsTaken(buf, coords, little);
      var r1 := TakeOrds(buf, coords, little).rest;
      PointsTaken(r1, n - 1, coords, little);
      assert r.value[1..] == TakePoints(r1, n - 1, coords, little).value;
    }
  }

  lemma ListTaken(buf: seq<byte>, coords: nat, little: bool, arcs: bool)
    ensures var r := TakeList(buf, coords, little, arcs);
            r.Took? ==> ListOk(r.value, coords) && (arcs ==> ArcCount(|r.value|)) && buf == ListThen(r.value, little, r.rest)
  {
    if TakeList(buf, coords, little, arcs).Took? {
      WordTaken(buf, U32, little);
      PointsTaken(buf[U32..], WordOf(buf[..U32], little), coords, little);
    }
  }

  lemma {:induction false} RingsTaken(buf: seq<byte>, n: nat, coords: nat, little: bool)
    ensures var r := TakeRings(buf, n, coords, little);
            r.Took? ==> |r.value| == n && RingsOk(r.value, coords) && buf == RingsThen(r.value, little, r.rest)
    decreases n
  {
    var r := TakeRings(buf, n, coords, little);
    if n > 0 && r.Took? {
      ListTaken(buf, coords, little, false);
      var r1 := TakeList(buf, coords, little, false).rest;
      RingsTaken(r1, n - 1, coords, little);
      assert r.value[1..] == TakeRings(r1, n - 1, coords, little).value;
    }
  }

  /** A body of type `typ` and the bytes it was read from. */
  ghost predicate IsBody(buf: seq<byte>, modifier: nat, typ: nat, little: bool, r: Taken<Body>) {
    r.Took? ==> TypeCode(r.value) == typ && BodyOk(r.value, modifier) && buf == BodyThen(r.value, little, r.rest)
  }

  lemma SimpleBodyTaken(buf: seq<byte>, modifier: nat, typ: nat, little: bool)
    requires typ in {1, 2, 3, 8}
    ensures IsBody(buf, modifier, typ, little, TakeBody(buf, modifier, typ, little))
  {
    if TakeBody(buf, modifier, typ, little).Took? {
      if typ == 1 {
        OrdsTaken(buf, Coords(modifier), little);
      } else if typ == 3 {
        WordTaken(buf, U32, little);
        RingsTaken(buf[U32..], WordOf(buf[..U32], little), Coords(modifier), little);
      } else {
        ListTaken(buf, Coords(modifier), little, typ == 8);
      }
    }
  }

  ghost predicate AreMembers(buf: seq<byte>, n: nat, dims: int, allowed: Option<seq<nat>>, r: Taken<seq<Geometry>>) {
    r.Took? ==> |r.value| == n && MembersOk(r.value, dims, allowed) && buf == MembersThen(r.value, r.rest)
  }

  lemma {:induction false} BodyTaken(buf: seq<byte>, modifier: nat, typ: nat, little: bool)
    requires 1 <= typ <= 10
    ensures IsBody(buf, modifier, typ, little, TakeBody(buf, modifier, typ, little))
    decreases |buf|, 0
  {
    if typ in {1, 2, 3, 8} {
      SimpleBodyTaken(buf, modifier, typ, little);
    } else if TakeBody(buf, modifier, typ, little).Took? {
      var n := WordOf(buf[..U32], little);
      WordTaken(buf, U32, little);
      MembersTaken(buf[U32..], n, modifier, AllowedIn(typ));
    }
  }

  lemma HeadTaken(buf: seq<byte>, dims: int, allowed: Option<seq<nat>>)
    requires TakeGeometry(buf, dims, allowed).Took?
    ensures |buf| >= 5
    ensures var code := WordOf(buf[1..][..U32], buf[0] != 0);
            && Fitting(code / 1000, code % 1000, dims, allowed) && 1 <= code % 1000 <= 10
            && buf == [buf[0]] + WordThen(code, U32, buf[0] != 0, buf[1..][U32..])
  {
    WordTaken(buf[1..], U32, buf[0] != 0);
    assert buf == [buf[0]] + buf[1..];
  }

  lemma {:induction false} GeometryTaken(buf: seq<byte>, dims: int, allowed: Option<seq<nat>>)
    ensures var r := TakeGeometry(buf, dims, allowed);
            r.Took? ==> GeometryOk(r.value, dims, allowed) && buf == GeometryThen(r.value, r.rest)
    decreases |buf|, 1
  {
    var r := TakeGeometry(buf, dims, allowed);
    if r.Took? {
      HeadTaken(buf, dims, allowed);
      var code, r1 := WordOf(buf[1..][..U32], buf[0] != 0), buf[1..][U32..];
      BodyTaken(r1, code / 1000, code % 1000, buf[0] != 0);
      WholeTaken(buf[0], code, r1, r.value, r.rest, dims, allowed);
    }
  }

  lemma WholeTaken(order: byte, code: nat, r1: seq<byte>, g: Geometry, rest: seq<byte>, dims: int, allowed: Option<seq<nat>>)
    requires g.order == order && g.modifier == code / 1000 && TypeCode(g.body) == code % 1000
    requires Fitting(code / 1000, code % 1000, dims, allowed)
    requires BodyOk(g.body, g.modifier) && r1 == BodyThen(g.body, order != 0, rest)
    ensures GeometryOk(g, dims, allowed) && [order] + WordThen(code, U32, order != 0, r1) == GeometryThen(g, rest)
  {
    assert code == code / 1000 * 1000 + code % 1000;
    GeometrySplits(g, rest);
  }

  lemma {:induction false} MembersTaken(buf: seq<byte>, n: nat, dims: int, allowed: Option<seq<nat>>)
    ensures AreMembers(buf, n, dims, allowed, TakeMembers(buf, n, dims, allowed))
    decreases |buf|, 2
  {
    var r := TakeMembers(buf, n, dims, allowed);
    if n > 0 && r.Took? {
      GeometryTaken(buf, dims, allowed);
      var r1 := TakeGeometry(buf, dims, allowed).rest;
      MembersTaken(r1, n - 1, dims, allowed);
      assert r.value[1..] == TakeMembers(r1, n - 1, dims, allowed).value;
    }
  }

  /**
   The reader accepts a byte string exactly when it starts with the bytes of a
   well-formed geometry, and then it has read that geometry and no more.
   */
  lemma ReadsExactlyGeometries(buf: seq<byte>, dims: int, allowed: Option<seq<nat>>, g: Geometry, rest: seq<byte>)
    ensures TakeGeometry(buf, dims, allowed) == Took(g, rest) <==> GeometryOk(g, dims, allowed) && buf == GeometryThen(g, rest)
  {
    GeometryTaken(buf, dims, allowed);
    if GeometryOk(g, dims, allowed) {
      GeometryBuilt(g, dims, allowed, rest);
    }
  }
}
