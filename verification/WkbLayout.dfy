/**
 Well-known binary with its numbers written out: which trees are geometries and
 which bytes stand for them. Reading accepts exactly these bytes and gives
 exactly that tree.
 */
module WkbLayout {
  import opened Values
  import opened Wire
  import opened WireLayout
  import opened Wkb
  import opened WkbGrammar

  // ----- Trees -----

  /** A geometry inside a parent of dimension `dims`, or anywhere for -1: dimension 0 to 3, and 2, 3, 3 or 4 ordinates a point. */
  ghost predicate Formed(g: Geometry, dims: int)
    decreases g
  {
    && g.modifier <= 3 && (dims >= 0 ==> g.modifier == dims)
    && var n := if g.modifier == 0 then 2 else if g.modifier == 3 then 4 else 3;
       match g.body
       case Point(ords) => FormedPoint(ords, n)
       case LineString(pts) => FormedPoints(pts, n)
       case CircularString(pts) => FormedPoints(pts, n) && (|pts| == 0 || (|pts| >= 3 && |pts| % 2 == 1))
       case Polygon(rings) => |rings| < POW32 && forall k | 0 <= k < |rings| :: FormedPoints(rings[k], n)
       case Multi(kind, ms) =>
         && (kind == 4 || kind == 5 || kind == 6 || kind == 7 || kind == 9 || kind == 10)
         && |ms| < POW32 && forall k | 0 <= k < |ms| :: MayHold(kind, ms[k].body) && Formed(ms[k], g.modifier)
  }

  ghost predicate FormedPoint(ords: seq<nat>, n: nat) {
    |ords| == n && forall k | 0 <= k < |ords| :: ords[k] < POW64
  }

  ghost predicate FormedPoints(pts: seq<seq<nat>>, n: nat) {
    |pts| < POW32 && forall k | 0 <= k < |pts| :: FormedPoint(pts[k], n)
  }

  /** Multipoints (4) hold points, multilinestrings (5) lines, multipolygons (6) polygons, collections (7) anything; curves (9, 10) hold lines and arcs, (10) also compound curves. */
  ghost predicate MayHold(kind: nat, b: Body) {
    match b
    case Point(_) => kind == 4 || kind == 7
    case LineString(_) => kind == 5 || kind == 7 || kind == 9 || kind == 10
    case CircularString(_) => kind == 7 || kind == 9 || kind == 10
    case Polygon(_) => kind == 6 || kind == 7
    case Multi(inner, _) => kind == 7 || (kind == 10 && inner == 9)
  }

  // ----- Bytes -----

  /** Four bytes for x, then `rest`. */
  ghost predicate Word32Is(x: nat, little: bool, buf: seq<byte>, rest: seq<byte>) {
    && |buf| >= 4 && rest == buf[4..]
    && x == if little then Quad(buf[3], buf[2], buf[1], buf[0]) else Quad(buf[0], buf[1], buf[2], buf[3])
  }

  /** Eight bytes for x, then `rest`. */
  ghost predicate Word64Is(x: nat, little: bool, buf: seq<byte>, rest: seq<byte>) {
    && |buf| >= 8 && rest == buf[8..]
    && x == if little then Quad(buf[7], buf[6], buf[5], buf[4]) * POW32 + Quad(buf[3], buf[2], buf[1], buf[0])
            else Quad(buf[0], buf[1], buf[2], buf[3]) * POW32 + Quad(buf[4], buf[5], buf[6], buf[7])
  }

  ghost predicate OrdsAre(ords: seq<nat>, little: bool, buf: seq<byte>, rest: seq<byte>)
    decreases |ords|
  {
    if ords == [] then buf == rest
    else exists r :: Word64Is(ords[0], little, buf, r) && OrdsAre(ords[1..], little, r, rest)
  }

  ghost predicate PointsAre(pts: seq<seq<nat>>, little: bool, buf: seq<byte>, rest: seq<byte>)
    decreases |pts|
  {
    if pts == [] then buf == rest
    else exists r :: OrdsAre(pts[0], little, buf, r) && PointsAre(pts[1..], little, r, rest)
  }

  /** The number of points, then the points. */
  ghost predicate ListIs(pts: seq<seq<nat>>, little: bool, buf: seq<byte>, rest: seq<byte>) {
    exists r :: Word32Is(|pts|, little, buf, r) && PointsAre(pts, little, r, rest)
  }

  ghost predicate RingsAre(rings: seq<seq<seq<nat>>>, little: bool, buf: seq<byte>, rest: seq<byte>)
    decreases |rings|
  {
    if rings == [] then buf == rest
    else exists r :: ListIs(rings[0], little, buf, r) && RingsAre(rings[1..], little, r, rest)
  }

  /**
   The byte order (0 for high byte first), then 1000 times the dimension plus
   the type (1 point, 2 line, 3 polygon, 8 arcs, or the kind of a multi), then
   the body.
   */
  ghost predicate GeometryIs(g: Geometry, buf: seq<byte>, rest: seq<byte>)
    decreases g
  {
    && buf != [] && buf[0] == g.order
    && var typ := match g.body case Point(_) => 1 case LineString(_) => 2 case Polygon(_) => 3 case CircularString(_) => 8 case Multi(kind, _) => kind;
       TypedIs(g.body, g.modifier * 1000 + typ, g.order != 0, buf[1..], rest)
  }

  ghost predicate TypedIs(b: Body, code: nat, little: bool, buf: seq<byte>, rest: seq<byte>)
    decreases b, 1
  {
    exists r :: Word32Is(code, little, buf, r) && BodyIs(b, little, r, rest)
  }

  /** A body; each member of a multi has its own byte order. */
  ghost predicate BodyIs(b: Body, little: bool, buf: seq<byte>, rest: seq<byte>)
    decreases b, 0
  {
    match b
    case Point(ords) => OrdsAre(ords, little, buf, rest)
    case LineString(pts) => ListIs(pts, little, buf, rest)
    case CircularString(pts) => ListIs(pts, little, buf, rest)
    case Polygon(rings) => exists r :: Word32Is(|rings|, little, buf, r) && RingsAre(rings, little, r, rest)
    case Multi(_, ms) => exists r :: Word32Is(|ms|, little, buf, r) && MembersAre(ms, r, rest)
  }

  ghost predicate MembersAre(ms: seq<Geometry>, buf: seq<byte>, rest: seq<byte>)
    decreases ms
  {
    if ms == [] then buf == rest
    else exists r :: GeometryIs(ms[0], buf, r) && MembersAre(ms[1..], r, rest)
  }

  // ----- Words -----

  lemma NextLittleDigit(bs: seq<byte>, n: nat)
    requires n < |bs|
    ensures FromLittle(bs[n..]) == bs[n] + 256 * FromLittle(bs[n + 1..])
  {
    assert bs[n..][1..] == bs[n + 1..];
  }

  lemma FourBytesOf(bs: seq<byte>, little: bool)
    requires |bs| == 4
    ensures WordOf(bs, little) == if little then Quad(bs[3], bs[2], bs[1], bs[0]) else Quad(bs[0], bs[1], bs[2], bs[3])
  {
    if little {
      assert bs[0..] == bs && bs[4..] == [];
      NextLittleDigit(bs, 0);
      NextLittleDigit(bs, 1);
      NextLittleDigit(bs, 2);
      NextLittleDigit(bs, 3);
    } else {
      assert bs[..0] == [] && bs[..4] == bs;
      NextDigit(bs, 0);
      NextDigit(bs, 1);
      NextDigit(bs, 2);
      NextDigit(bs, 3);
    }
  }

  lemma EightBytesOf(bs: seq<byte>, little: bool)
    requires |bs| == 8
    ensures WordOf(bs, little) ==
            if little then Quad(bs[7], bs[6], bs[5], bs[4]) * POW32 + Quad(bs[3], bs[2], bs[1], bs[0])
            else Quad(bs[0], bs[1], bs[2], bs[3]) * POW32 + Quad(bs[4], bs[5], bs[6], bs[7])
  {
    if little {
      assert bs[0..] == bs;
      FourBytesOf(bs[4..], true);
      NextLittleDigit(bs, 0);
      NextLittleDigit(bs, 1);
      NextLittleDigit(bs, 2);
      NextLittleDigit(bs, 3);
    } else {
      FourBytesOf(bs[..4], false);
      assert bs[..8] == bs;
      NextDigit(bs, 4);
      NextDigit(bs, 5);
      NextDigit(bs, 6);
      NextDigit(bs, 7);
    }
  }

  /** A word's bytes are at the front exactly when its value is read there. */
  lemma WordThenIff(x: nat, n: nat, little: bool, buf: seq<byte>, rest: seq<byte>)
    requires x < Pow256(n)
    ensures buf == WordThen(x, n, little, rest) <==> |buf| >= n && rest == buf[n..] && x == WordOf(buf[..n], little)
  {
    WordBack(x, n, little);
    if buf == WordThen(x, n, little, rest) {
      PrefixOf(WordBytes(x, n, little), rest);
    }
    if |buf| >= n {
      WordForth(buf[..n], little);
      Cut(buf, n);
    }
  }

  lemma PowersOf256()
    ensures Pow256(4) == POW32 && Pow256(8) == POW64
  {
    EightBytes();
  }

  lemma Word32Iff(x: nat, little: bool, buf: seq<byte>, rest: seq<byte>)
    requires x < POW32
    ensures Word32Is(x, little, buf, rest) <==> buf == WordThen(x, U32, little, rest)
  {
    PowersOf256();
    WordThenIff(x, U32, little, buf, rest);
    if |buf| >= 4 {
      FourBytesOf(buf[..4], little);
    }
  }

  lemma Word64Iff(x: nat, little: bool, buf: seq<byte>, rest: seq<byte>)
    requires x < POW64
    ensures Word64Is(x, little, buf, rest) <==> buf == WordThen(x, WORD, little, rest)
  {
    PowersOf256();
    WordThenIff(x, WORD, little, buf, rest);
    if |buf| >= 8 {
      EightBytesOf(buf[..8], little);
    }
  }

  // ----- Trees and their bytes -----

  lemma {:induction false} OrdsIff(ords: seq<nat>, little: bool, buf: seq<byte>, rest: seq<byte>)
    requires forall k | 0 <= k < |ords| :: ords[k] < POW64
    ensures OrdsAre(ords, little, buf, rest) <==> buf == OrdsThen(ords, little, rest)
    decreases |ords|
  {
    if ords != [] {
      var tail := OrdsThen(ords[1..], little, rest);
      Word64Iff(ords[0], little, buf, tail);
      OrdsIff(ords[1..], little, tail, rest);
      if r :| Word64Is(ords[0], little, buf, r) && OrdsAre(ords[1..], little, r, rest) {
        OrdsIff(ords[1..], little, r, rest);
      }
    }
  }

  lemma {:induction false} PointsIff(pts: seq<seq<nat>>, n: nat, little: bool, buf: seq<byte>, rest: seq<byte>)
    requires forall k | 0 <= k < |pts| :: FormedPoint(pts[k], n)
    ensures PointsAre(pts, little, buf, rest) <==> buf == PointsThen(pts, little, rest)
    decreases |pts|
  {
    if pts != [] {
      var tail := PointsThen(pts[1..], little, rest);
      assert FormedPoint(pts[0], n);
      OrdsIff(pts[0], little, buf, tail);
      PointsIff(pts[1..], n, little, tail, rest);
      if r :| OrdsAre(pts[0], little, buf, r) && PointsAre(pts[1..], little, r, rest) {
        OrdsIff(pts[0], little, buf, r);
        PointsIff(pts[1..], n, little, r, rest);
      }
    }
  }

  lemma ListIff(pts: seq<seq<nat>>, n: nat, little: bool, buf: seq<byte>, rest: seq<byte>)
    requires FormedPoints(pts, n)
    ensures ListIs(pts, little, buf, rest) <==> buf == ListThen(pts, little, rest)
  {
    var tail := PointsThen(pts, little, rest);
    Word32Iff(|pts|, little, buf, tail);
    PointsIff(pts, n, little, tail, rest);
    if r :| Word32Is(|pts|, little, buf, r) && PointsAre(pts, little, r, rest) {
      PointsIff(pts, n, little, r, rest);
    }
  }

  lemma {:induction false} RingsIff(rings: seq<seq<seq<nat>>>, n: nat, little: bool, buf: seq<byte>, rest: seq<byte>)
    requires forall k | 0 <= k < |rings| :: FormedPoints(rings[k], n)
    ensures RingsAre(rings, little, buf, rest) <==> buf == RingsThen(rings, little, rest)
    decreases |rings|
  {
    if rings != [] {
      var tail := RingsThen(rings[1..], little, rest);
      ListIff(rings[0], n, little, buf, tail);
      RingsIff(rings[1..], n, little, tail, rest);
      if r :| ListIs(rings[0], little, buf, r) && RingsAre(rings[1..], little, r, rest) {
        ListIff(rings[0], n, little, buf, r);
        RingsIff(rings[1..], n, little, r, rest);
      }
    }
  }

  lemma {:induction false} GeometryIff(g: Geometry, dims: int, buf: seq<byte>, rest: seq<byte>)
    requires Formed(g, dims)
    ensures GeometryIs(g, buf, rest) <==> buf == GeometryThen(g, rest)
    decreases g, 1
  {
    var tail := BodyThen(g.body, g.Little(), rest);
    var code := g.modifier * 1000 + TypeCode(g.body);
    GeometrySplits(g, rest);
    if buf != [] {
      Word32Iff(code, g.Little(), buf[1..], tail);
      BodyIff(g, dims, tail, rest);
      if r :| Word32Is(code, g.Little(), buf[1..], r) && BodyIs(g.body, g.Little(), r, rest) {
        BodyIff(g, dims, r, rest);
      }
    }
  }

  lemma {:induction false} BodyIff(g: Geometry, dims: int, buf: seq<byte>, rest: seq<byte>)
    requires Formed(g, dims)
    ensures BodyIs(g.body, g.Little(), buf, rest) <==> buf == BodyThen(g.body, g.Little(), rest)
    decreases g, 0
  {
    var n := if g.modifier == 0 then 2 else if g.modifier == 3 then 4 else 3;
    match g.body
    case Point(ords) => OrdsIff(ords, g.Little(), buf, rest);
    case LineString(pts) => ListIff(pts, n, g.Little(), buf, rest);
    case CircularString(pts) => ListIff(pts, n, g.Little(), buf, rest);
    case Polygon(rings) => RingBodyIff(rings, n, g.Little(), buf, rest);
    case Multi(_, ms) =>
      var tail := MembersThen(ms, rest);
      Word32Iff(|ms|, g.Little(), buf, tail);
      MembersIff(ms, g.modifier, tail, rest);
      if r :| Word32Is(|ms|, g.Little(), buf, r) && MembersAre(ms, r, rest) {
        MembersIff(ms, g.modifier, r, rest);
      }
  }

  lemma RingBodyIff(rings: seq<seq<seq<nat>>>, n: nat, little: bool, buf: seq<byte>, rest: seq<byte>)
    requires |rings| < POW32 && forall k | 0 <= k < |rings| :: FormedPoints(rings[k], n)
    ensures (exists r :: Word32Is(|rings|, little, buf, r) && RingsAre(rings, little, r, rest))
            <==> buf == WordThen(|rings|, U32, little, RingsThen(rings, little, rest))
  {
    var tail := RingsThen(rings, little, rest);
    Word32Iff(|rings|, little, buf, tail);
    RingsIff(rings, n, little, tail, rest);
    if r :| Word32Is(|rings|, little, buf, r) && RingsAre(rings, little, r, rest) {
      RingsIff(rings, n, little, r, rest);
    }
  }

  lemma {:induction false} MembersIff(ms: seq<Geometry>, dims: int, buf: seq<byte>, rest: seq<byte>)
    requires forall k | 0 <= k < |ms| :: Formed(ms[k], dims)
    ensures MembersAre(ms, buf, rest) <==> buf == MembersThen(ms, rest)
    decreases ms, 0
  {
    if ms != [] {
      var tail := MembersThen(ms[1..], rest);
      GeometryIff(ms[0], dims, buf, tail);
      MembersIff(ms[1..], dims, tail, rest);
      if r :| GeometryIs(ms[0], buf, r) && MembersAre(ms[1..], r, rest) {
        GeometryIff(ms[0], dims, buf, r);
        MembersIff(ms[1..], dims, r, rest);
      }
    }
  }

  // ----- Well-formed trees -----

  lemma MayHoldIff(kind: nat, b: Body)
    requires IsMulti(kind) && (b.Multi? ==> IsMulti(b.kind))
    ensures MayHold(kind, b) <==> (AllowedIn(kind).Some? ==> TypeCode(b) in AllowedIn(kind).value)
  {
  }

  lemma FormedPointsIff(pts: seq<seq<nat>>, n: nat)
    ensures FormedPoints(pts, n) <==> ListOk(pts, n)
  {
    PowersOf256();
    forall k | 0 <= k < |pts| ensures FormedPoint(pts[k], n) <==> OrdsOk(pts[k], n) {
    }
  }

  /** A tree is well formed by the rules written out here exactly when the reader's rules say so. */
  lemma {:induction false} FormedIff(g: Geometry, dims: int)
    ensures Formed(g, dims) <==> GeometryOk(g, dims, None)
    decreases g
  {
    PowersOf256();
    var n := Coords(g.modifier);
    match g.body
    case Point(ords) =>
    case LineString(pts) => FormedPointsIff(pts, n);
    case CircularString(pts) => FormedPointsIff(pts, n);
    case Polygon(rings) =>
      forall k | 0 <= k < |rings| ensures FormedPoints(rings[k], n) <==> ListOk(rings[k], n) {
        FormedPointsIff(rings[k], n);
      }
    case Multi(kind, ms) =>
      if IsMulti(kind) {
        FormedMembersIff(kind, ms, g.modifier);
      }
  }

  lemma {:induction false} FormedMembersIff(kind: nat, ms: seq<Geometry>, dims: nat)
    requires IsMulti(kind)
    ensures (forall k | 0 <= k < |ms| :: MayHold(kind, ms[k].body) && Formed(ms[k], dims)) <==> MembersOk(ms, dims, AllowedIn(kind))
    decreases ms
  {
    if ms != [] {
      FormedIff(ms[0], dims);
      FormedMembersIff(kind, ms[1..], dims);
      if Formed(ms[0], dims) {
        MayHoldIff(kind, ms[0].body);
      }
      assert forall k | 0 <= k < |ms[1..]| :: ms[1..][k] == ms[k + 1];
    }
  }

  /** A byte string is read as the tree g, up to `rest`, exactly when g is well formed and these are its bytes. */
  lemma ReadsExactlyFormed(buf: seq<byte>, g: Geometry, rest: seq<byte>)
    ensures TakeGeometry(buf, -1, None) == Took(g, rest) <==> Formed(g, -1) && GeometryIs(g, buf, rest)
  {
    ReadsExactlyGeometries(buf, -1, None, g, rest);
    FormedIff(g, -1);
    if Formed(g, -1) {
      GeometryIff(g, -1, buf, rest);
    }
  }
}
