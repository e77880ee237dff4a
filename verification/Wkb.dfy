/**
 What a WKB geometry is (section 8.2 of OGC 06-103r4) and how a byte string is
 read as one (driver/gpkg_functions.go). A double is its 64-bit pattern.
 */
module Wkb {
  import opened Values
  import opened Wire

  // ----- Geometry trees -----

  /** Each geometry has its own byte-order byte; zero means big-endian, anything else little-endian. */
  datatype Geometry = Geometry(order: byte, modifier: nat, body: Body) {
    predicate Little() {
      order != 0
    }
  }

  datatype Body =
    | Point(ords: seq<nat>)
    | LineString(points: seq<seq<nat>>)
    | CircularString(arcPoints: seq<seq<nat>>)
    | Polygon(rings: seq<seq<seq<nat>>>)
    | Multi(kind: nat, members: seq<Geometry>)

  function TypeCode(b: Body): nat {
    match b
    case Point(_) => 1
    case LineString(_) => 2
    case Polygon(_) => 3
    case CircularString(_) => 8
    case Multi(kind, _) => kind
  }

  /** Types made of member geometries, and the member types each accepts (None for any). */
  predicate IsMulti(kind: nat) {
    kind in {4, 5, 6, 7, 9, 10}
  }

  function AllowedIn(kind: nat): Option<seq<nat>> {
    match kind
    case 4 => Some([1])
    case 5 => Some([2])
    case 6 => Some([3])
    case 9 => Some([2, 8])
    case 10 => Some([2, 8, 9])
    case _ => None
  }

  /** XY, XYZ, XYM or XYZM. */
  function Coords(modifier: nat): nat {
    if modifier == 1 || modifier == 2 then 3 else if modifier == 3 then 4 else 2
  }

  const U32: nat := 4

  predicate OrdsOk(ords: seq<nat>, coords: nat) {
    |ords| == coords && forall k | 0 <= k < |ords| :: ords[k] < Pow256(WORD)
  }

  predicate PointsOk(pts: seq<seq<nat>>, coords: nat) {
    forall k | 0 <= k < |pts| :: OrdsOk(pts[k], coords)
  }

  predicate ListOk(pts: seq<seq<nat>>, coords: nat) {
    |pts| < Pow256(U32) && PointsOk(pts, coords)
  }

  predicate RingsOk(rings: seq<seq<seq<nat>>>, coords: nat) {
    forall k | 0 <= k < |rings| :: ListOk(rings[k], coords)
  }

  /** A circular string is empty or has 3 + 2n points. */
  predicate ArcCount(n: nat) {
    n == 0 || (n >= 3 && (n - 3) % 2 == 0)
  }

  /** What its parent asks of a geometry: its dimension (-1 for any) and its type. */
  predicate Fitting(modifier: nat, typ: nat, dims: int, allowed: Option<seq<nat>>) {
    && modifier <= 3
    && (dims >= 0 ==> modifier == dims)
    && (allowed.Some? ==> typ in allowed.value)
  }

  predicate GeometryOk(g: Geometry, dims: int, allowed: Option<seq<nat>>)
    decreases g
  {
    Fitting(g.modifier, TypeCode(g.body), dims, allowed) && BodyOk(g.body, g.modifier)
  }

  predicate BodyOk(b: Body, modifier: nat)
    decreases b
  {
    match b
    case Point(ords) => OrdsOk(ords, Coords(modifier))
    case LineString(pts) => ListOk(pts, Coords(modifier))
    case CircularString(pts) => ListOk(pts, Coords(modifier)) && ArcCount(|pts|)
    case Polygon(rings) => |rings| < Pow256(U32) && RingsOk(rings, Coords(modifier))
    case Multi(kind, ms) => IsMulti(kind) && |ms| < Pow256(U32) && MembersOk(ms, modifier, AllowedIn(kind))
  }

  predicate MembersOk(ms: seq<Geometry>, dims: int, allowed: Option<seq<nat>>)
    decreases ms
  {
    ms != [] ==> GeometryOk(ms[0], dims, allowed) && MembersOk(ms[1..], dims, allowed)
  }

  // ----- Words in either byte order -----

  function FromLittle(bs: seq<byte>): nat {
    if bs == [] then 0 else bs[0] + 256 * FromLittle(bs[1..])
  }

  function LittleEndian(x: nat, n: nat): (r: seq<byte>)
    ensures |r| == n
  {
    if n == 0 then [] else [x % 256] + LittleEndian(x / 256, n - 1)
  }

  function WordOf(bs: seq<byte>, little: bool): nat {
    if little then FromLittle(bs) else FromBigEndian(bs)
  }

  function WordBytes(x: nat, n: nat, little: bool): (r: seq<byte>)
    ensures |r| == n
  {
    if little then LittleEndian(x, n) else BigEndian(x, n)
  }

  lemma {:induction false} LittleBack(x: nat, n: nat)
    requires x < Pow256(n)
    ensures FromLittle(LittleEndian(x, n)) == x
  {
    if n > 0 {
      LittleBack(x / 256, n - 1);
      assert LittleEndian(x, n)[1..] == LittleEndian(x / 256, n - 1);
    }
  }

  lemma {:induction false} LittleForth(bs: seq<byte>)
    ensures FromLittle(bs) < Pow256(|bs|) && LittleEndian(FromLittle(bs), |bs|) == bs
    decreases |bs|
  {
    if bs != [] {
      LittleForth(bs[1..]);
      assert bs == [bs[0]] + bs[1..];
    }
  }

  lemma {:induction false} BigForth(bs: seq<byte>)
    ensures FromBigEndian(bs) < Pow256(|bs|) && BigEndian(FromBigEndian(bs), |bs|) == bs
    decreases |bs|
  {
    if bs != [] {
      BigForth(bs[..|bs| - 1]);
      assert bs == bs[..|bs| - 1] + [bs[|bs| - 1]];
    }
  }

  lemma WordBack(x: nat, n: nat, little: bool)
    requires x < Pow256(n)
    ensures WordOf(WordBytes(x, n, little), little) == x
  {
    if little {
      LittleBack(x, n);
    } else {
      BigEndianBack(x, n);
    }
  }

  lemma WordForth(bs: seq<byte>, little: bool)
    ensures WordOf(bs, little) < Pow256(|bs|) && WordBytes(WordOf(bs, little), |bs|, little) == bs
  {
    if little {
      LittleForth(bs);
    } else {
      BigForth(bs);
    }
  }

  // ----- Trees as bytes: each part in front of what follows it -----

  function WordThen(x: nat, n: nat, little: bool, rest: seq<byte>): seq<byte> {
    WordBytes(x, n, little) + rest
  }

  function OrdsThen(ords: seq<nat>, little: bool, rest: seq<byte>): seq<byte> {
    if ords == [] then rest else WordThen(ords[0], WORD, little, OrdsThen(ords[1..], little, rest))
  }

  function PointsThen(pts: seq<seq<nat>>, little: bool, rest: seq<byte>): seq<byte> {
    if pts == [] then rest else OrdsThen(pts[0], little, PointsThen(pts[1..], little, rest))
  }

  function ListThen(pts: seq<seq<nat>>, little: bool, rest: seq<byte>): seq<byte> {
    WordThen(|pts|, U32, little, PointsThen(pts, little, rest))
  }

  function RingsThen(rings: seq<seq<seq<nat>>>, little: bool, rest: seq<byte>): seq<byte> {
    if rings == [] then rest else ListThen(rings[0], little, RingsThen(rings[1..], little, rest))
  }

  function GeometryThen(g: Geometry, rest: seq<byte>): seq<byte>
    decreases g
  {
    [g.order] + WordThen(g.modifier * 1000 + TypeCode(g.body), U32, g.Little(), BodyThen(g.body, g.Little(), rest))
  }

  /** The bytes after a geometry's type code. */
  function BodyThen(b: Body, little: bool, rest: seq<byte>): seq<byte>
    decreases b
  {
    match b
    case Point(ords) => OrdsThen(ords, little, rest)
    case LineString(pts) => ListThen(pts, little, rest)
    case CircularString(pts) => ListThen(pts, little, rest)
    case Polygon(rings) => WordThen(|rings|, U32, little, RingsThen(rings, little, rest))
    case Multi(_, ms) => WordThen(|ms|, U32, little, MembersThen(ms, rest))
  }

  function MembersThen(ms: seq<Geometry>, rest: seq<byte>): seq<byte>
    decreases ms
  {
    if ms == [] then rest else GeometryThen(ms[0], MembersThen(ms[1..], rest))
  }

  // ----- Bytes as trees -----

  datatype WkbError = TooShort | NoType | BadModifier | BadType | Misplaced | BadArcCount

  datatype Taken<T> = Took(value: T, rest: seq<byte>) | Refused(error: WkbError)

  ghost predicate Consumes<T>(r: Taken<T>, buf: seq<byte>, n: nat) {
    r.Took? ==> |r.rest| + n <= |buf|
  }

  function TakeWord(buf: seq<byte>, n: nat, little: bool): (r: Taken<nat>)
    ensures Consumes(r, buf, n)
  {
    if |buf| < n then Refused(TooShort) else Took(WordOf(buf[..n], little), buf[n..])
  }

  function TakeOrds(buf: seq<byte>, coords: nat, little: bool): (r: Taken<seq<nat>>)
    ensures Consumes(r, buf, 0) && (r.Took? ==> |r.value| == coords)
    decreases coords
  {
    if coords == 0 then Took([], buf)
    else
      match TakeWord(buf, WORD, little)
      case Refused(err) => Refused(err)
      case Took(v, r1) =>
        match TakeOrds(r1, coords - 1, little)
        case Refused(err) => Refused(err)
        case Took(vs, r2) => Took([v] + vs, r2)
  }

  function TakePoints(buf: seq<byte>, n: nat, coords: nat, little: bool): (r: Taken<seq<seq<nat>>>)
    ensures Consumes(r, buf, 0) && (r.Took? ==> |r.value| == n && forall k | 0 <= k < n :: |r.value[k]| == coords)
    decreases n
  {
    if n == 0 then Took([], buf)
    else
      match TakeOrds(buf, coords, little)
      case Refused(err) => Refused(err)
      case Took(p, r1) =>
        match TakePoints(r1, n - 1, coords, little)
        case Refused(err) => Refused(err)
        case Took(ps, r2) => Took([p] + ps, r2)
  }

  /** A counted list of points; with `arcs` the count must suit a circular string. */
  function TakeList(buf: seq<byte>, coords: nat, little: bool, arcs: bool): (r: Taken<seq<seq<nat>>>)
    ensures Consumes(r, buf, 4) && (r.Took? ==> forall k | 0 <= k < |r.value| :: |r.value[k]| == coords)
  {
    match TakeWord(buf, U32, little)
    case Refused(err) => Refused(err)
    case Took(n, r1) => if arcs && !ArcCount(n) then Refused(BadArcCount) else TakePoints(r1, n, coords, little)
  }

  function TakeRings(buf: seq<byte>, n: nat, coords: nat, little: bool): (r: Taken<seq<seq<seq<nat>>>>)
    ensures Consumes(r, buf, 0)
    decreases n
  {
    if n == 0 then Took([], buf)
    else
      match TakeList(buf, coords, little, false)
      case Refused(err) => Refused(err)
      case Took(ring, r1) =>
        match TakeRings(r1, n - 1, coords, little)
        case Refused(err) => Refused(err)
        case Took(rings, r2) => Took([ring] + rings, r2)
  }

  /** What follows the type code of a geometry. */
  function TakeBody(buf: seq<byte>, modifier: nat, typ: nat, little: bool): (r: Taken<Body>)
    ensures Consumes(r, buf, 0)
    decreases |buf|, 0
  {
    if typ == 1 then
      match TakeOrds(buf, Coords(modifier), little)
      case Refused(err) => Refused(err)
      case Took(ords, rest) => Took(Point(ords), rest)
    else if typ == 2 || typ == 8 then
      match TakeList(buf, Coords(modifier), little, typ == 8)
      case Refused(err) => Refused(err)
      case Took(pts, rest) => Took(if typ == 8 then CircularString(pts) else LineString(pts), rest)
    else
      match TakeWord(buf, U32, little)
      case Refused(err) => Refused(err)
      case Took(n, r1) =>
        if typ == 3 then
          match TakeRings(r1, n, Coords(modifier), little)
          case Refused(err) => Refused(err)
          case Took(rings, rest) => Took(Polygon(rings), rest)
        else
          match TakeMembers(r1, n, modifier, AllowedIn(typ))
          case Refused(err) => Refused(err)
          case Took(ms, rest) => Took(Multi(typ, ms), rest)
  }

  /** The type code after the byte-order byte, with the parent's demands. */
  function TakeType(buf: seq<byte>, little: bool, dims: int, allowed: Option<seq<nat>>): (r: Taken<nat>)
    ensures Consumes(r, buf, 4)
  {
    match TakeWord(buf, U32, little)
    case Refused(_) => Refused(NoType)
    case Took(code, rest) =>
      if code / 1000 > 3 then Refused(BadModifier)
      else if code % 1000 < 1 || code % 1000 > 10 then Refused(BadType)
      else if !Fitting(code / 1000, code % 1000, dims, allowed) then Refused(Misplaced)
      else Took(code, rest)
  }

  /** Every geometry takes at least five bytes. */
  function TakeGeometry(buf: seq<byte>, dims: int, allowed: Option<seq<nat>>): (r: Taken<Geometry>)
    ensures Consumes(r, buf, 5)
    decreases |buf|, 1
  {
    if buf == [] then Refused(TooShort)
    else
      match TakeType(buf[1..], buf[0] != 0, dims, allowed)
      case Refused(err) => Refused(err)
      case Took(code, r1) =>
        match TakeBody(r1, code / 1000, code % 1000, buf[0] != 0)
        case Refused(err) => Refused(err)
        case Took(body, rest) => Took(Geometry(buf[0], code / 1000, body), rest)
  }

  function TakeMembers(buf: seq<byte>, n: nat, dims: int, allowed: Option<seq<nat>>): (r: Taken<seq<Geometry>>)
    ensures Consumes(r, buf, 0)
    decreases |buf|, 2
  {
    if n == 0 then Took([], buf)
    else
      match TakeGeometry(buf, dims, allowed)
      case Refused(err) => Refused(err)
      case Took(g, r1) =>
        match TakeMembers(r1, n - 1, dims, allowed)
        case Refused(err) => Refused(err)
        case Took(gs, r2) => Took([g] + gs, r2)
  }
}
