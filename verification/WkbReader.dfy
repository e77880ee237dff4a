/** The walk over a geometry that widens an envelope (wkbEnvelopeReader, driver/gpkg_functions.go). */
module WkbReader {
  import opened Values
  import opened Wire
  import opened Wkb
  import opened WkbGrammar
  import opened Doubles
  import opened Envelope
  import opened GpkgHeaders

  datatype Read<T> = Got(value: T) | Failed(error: WkbError)

  /** A read reports what the buffer starts with and leaves the rest. */
  ghost predicate Leaves<T>(t: Taken<T>, r: Read<T>, buf: seq<byte>) {
    if t.Took? then r == Got(t.value) && buf == t.rest else r == Failed(t.error)
  }

  /** Items already read, in front of those to come. */
  function Onto<T>(done: seq<T>, t: Taken<seq<T>>): Taken<seq<T>> {
    if done == [] || t.Refused? then t else Took(done + t.value, t.rest)
  }

  lemma OntoSnoc<T>(done: seq<T>, x: T, t: Taken<seq<T>>)
    ensures Onto(done + [x], t) == Onto(done, if t.Took? then Took([x] + t.value, t.rest) else t)
  {
    if t.Took? {
      if done == [] {
        assert done + [x] == [x];
      } else {
        assert done + [x] + t.value == done + ([x] + t.value);
      }
    }
  }

  lemma OntoNone<T>(done: seq<T>, rest: seq<byte>)
    ensures Onto(done, Took([], rest)) == Took(done, rest)
  {
    assert done + [] == done;
  }

  // ----- Enough bytes -----

  lemma {:induction false} OrdsFit(buf: seq<byte>, coords: nat, little: bool)
    ensures TakeOrds(buf, coords, little).Took? <==> |buf| >= coords * WORD
    ensures TakeOrds(buf, coords, little).Took? ==> |TakeOrds(buf, coords, little).rest| == |buf| - coords * WORD
    decreases coords
  {
    if coords > 0 && |buf| >= WORD {
      OrdsFit(buf[WORD..], coords - 1, little);
    }
  }

  lemma OneMore(n: nat, size: nat)
    requires n > 0
    ensures n * size == size + (n - 1) * size
  {
  }

  lemma {:induction false} PointsFit(buf: seq<byte>, n: nat, coords: nat, little: bool)
    ensures TakePoints(buf, n, coords, little).Took? <==> |buf| >= n * (coords * WORD)
    ensures TakePoints(buf, n, coords, little).Refused? ==> TakePoints(buf, n, coords, little).error == TooShort
    decreases n
  {
    if n > 0 {
      OneMore(n, coords * WORD);
      OrdsFit(buf, coords, little);
      OrdsShort(buf, coords, little);
      if TakeOrds(buf, coords, little).Took? {
        PointsFit(TakeOrds(buf, coords, little).rest, n - 1, coords, little);
      }
    }
  }

  lemma {:induction false} OrdsShort(buf: seq<byte>, coords: nat, little: bool)
    ensures TakeOrds(buf, coords, little).Refused? ==> TakeOrds(buf, coords, little).error == TooShort
    decreases coords
  {
    if coords > 0 && |buf| >= WORD {
      OrdsShort(buf[WORD..], coords - 1, little);
    }
  }

  // ----- The envelope -----

  class GpkgEnvelope {
    var ok: bool
    var minX: nat
    var maxX: nat
    var minY: nat
    var maxY: nat

    ghost function Value(): Box
      reads this
    {
      Box(ok, minX, maxX, minY, maxY)
    }

    constructor ()
      ensures Value() == NEW_BOX
    {
      ok, minX, maxX, minY, maxY := false, MAX_DOUBLE, Negated(MAX_DOUBLE), MAX_DOUBLE, Negated(MAX_DOUBLE);
    }

    method Add(x: nat, y: nat)
      modifies this
      ensures Value() == Widened(old(Value()), [XY(x, y)])
    {
      ok := true;
      if Less(x, minX) {
        minX := x;
      }
      if Less(maxX, x) {
        maxX := x;
      }
      if Less(y, minY) {
        minY := y;
      }
      if Less(maxY, y) {
        maxY := y;
      }
      assert [XY(x, y)][1..] == [];
    }
  }

  // ----- Pairs of what is read piece by piece -----

  lemma PointPairsSnoc(pts: seq<seq<nat>>, p: seq<nat>)
    requires Wide(pts) && |p| >= 2
    ensures Wide(pts + [p]) && PointPairs(pts + [p]) == PointPairs(pts) + [Pair(p)]
  {
  }

  lemma {:induction false} RingPairsSnoc(rings: seq<seq<seq<nat>>>, ring: seq<seq<nat>>)
    requires WideRings(rings) && Wide(ring)
    ensures WideRings(rings + [ring]) && RingPairs(rings + [ring]) == RingPairs(rings) + PointPairs(ring)
    decreases |rings|
  {
    if rings == [] {
      assert rings + [ring] == [ring] && [ring][1..] == rings;
      assert RingPairs([ring]) == PointPairs(ring) + RingPairs(rings);
      assert PointPairs(ring) + [] == PointPairs(ring) && RingPairs(rings) + PointPairs(ring) == PointPairs(ring);
    } else {
      assert (rings + [ring])[0] == rings[0] && (rings + [ring])[1..] == rings[1..] + [ring];
      RingPairsSnoc(rings[1..], ring);
      AssociatePairs(PointPairs(rings[0]), RingPairs(rings[1..]), PointPairs(ring));
    }
  }

  lemma AssociatePairs(a: seq<XY>, b: seq<XY>, c: seq<XY>)
    ensures a + b + c == a + (b + c)
  {
  }

  lemma {:induction false} MemberPairsSnoc(ms: seq<Geometry>, g: Geometry, arcs: Arcs)
    requires WideMembers(ms) && WideGeometry(g)
    ensures WideMembers(ms + [g]) && MemberPairs(ms + [g], arcs) == MemberPairs(ms, arcs) + Pairs(g, arcs)
    decreases |ms|
  {
    if ms == [] {
      assert ms + [g] == [g] && [g][1..] == ms;
      assert MemberPairs([g], arcs) == Pairs(g, arcs) + MemberPairs(ms, arcs);
      assert Pairs(g, arcs) + [] == Pairs(g, arcs) && MemberPairs(ms, arcs) + Pairs(g, arcs) == Pairs(g, arcs);
    } else {
      assert (ms + [g])[0] == ms[0] && (ms + [g])[1..] == ms[1..] + [g];
      MemberPairsSnoc(ms[1..], g, arcs);
      AssociatePairs(Pairs(ms[0], arcs), MemberPairs(ms[1..], arcs), Pairs(g, arcs));
    }
  }

  /** A list widened the envelope by its pairs. */
  ghost predicate ListDone(t: Taken<seq<seq<nat>>>, arcs: bool, arcPairs: Arcs, error: Option<WkbError>, buf: seq<byte>, before: Box, after: Box) {
    if t.Refused? then error == Some(t.error)
    else
      && error == None && buf == t.rest && Wide(t.value)
      && after == Widened(before, if arcs then ArcPairs(t.value, arcPairs) else PointPairs(t.value))
  }

  ghost predicate BodyDone(t: Taken<Body>, arcs: Arcs, error: Option<WkbError>, buf: seq<byte>, before: Box, after: Box) {
    if t.Refused? then error == Some(t.error)
    else error == None && buf == t.rest && WideBody(t.value) && after == Widened(before, BodyPairs(t.value, arcs))
  }

  ghost predicate GeometryDone(t: Taken<Geometry>, arcs: Arcs, error: Option<WkbError>, buf: seq<byte>, before: Box, after: Box) {
    if t.Refused? then error == Some(t.error)
    else error == None && buf == t.rest && WideGeometry(t.value) && after == Widened(before, Pairs(t.value, arcs))
  }

  /** Some rings are read and their pairs added; `left` are those to come. */
  ghost predicate RingsSoFar(all: Taken<seq<seq<seq<nat>>>>, rings: seq<seq<seq<nat>>>, left: Taken<seq<seq<seq<nat>>>>, before: Box, now: Box) {
    WideRings(rings) && now == Widened(before, RingPairs(rings)) && all == Onto(rings, left)
  }

  lemma RingsStep(all: Taken<seq<seq<seq<nat>>>>, rings: seq<seq<seq<nat>>>, ring: seq<seq<nat>>, left: Taken<seq<seq<seq<nat>>>>, before: Box, now: Box, after: Box)
    requires RingsSoFar(all, rings, if left.Took? then Took([ring] + left.value, left.rest) else left, before, now)
    requires Wide(ring) && after == Widened(now, PointPairs(ring))
    ensures RingsSoFar(all, rings + [ring], left, before, after)
  {
    OntoSnoc(rings, ring, left);
    RingPairsSnoc(rings, ring);
    WidenedConcat(before, RingPairs(rings), PointPairs(ring));
  }

  ghost predicate MembersSoFar(all: Taken<seq<Geometry>>, ms: seq<Geometry>, left: Taken<seq<Geometry>>, arcs: Arcs, before: Box, now: Box) {
    WideMembers(ms) && now == Widened(before, MemberPairs(ms, arcs)) && all == Onto(ms, left)
  }

  lemma MembersStep(all: Taken<seq<Geometry>>, ms: seq<Geometry>, g: Geometry, left: Taken<seq<Geometry>>, arcs: Arcs, before: Box, now: Box, after: Box)
    requires MembersSoFar(all, ms, if left.Took? then Took([g] + left.value, left.rest) else left, arcs, before, now)
    requires WideGeometry(g) && after == Widened(now, Pairs(g, arcs))
    ensures MembersSoFar(all, ms + [g], left, arcs, before, after)
  {
    OntoSnoc(ms, g, left);
    MemberPairsSnoc(ms, g, arcs);
    WidenedConcat(before, MemberPairs(ms, arcs), Pairs(g, arcs));
  }

  // ----- The reader -----

  class WkbEnvelopeReader {
    const arcs: Arcs
    var buf: seq<byte>
    var little: bool

    constructor (data: seq<byte>, arcs: Arcs)
      ensures buf == data && this.arcs == arcs
    {
      buf, little, this.arcs := data, false, arcs;
    }

    method Uint32() returns (r: Read<nat>)
      modifies this`buf
      ensures Leaves(TakeWord(old(buf), U32, little), r, buf)
    {
      if |buf| < 4 {
        return Failed(TooShort);
      }
      r := Got(WordOf(buf[..4], little));
      buf := buf[4..];
    }

    method Float64() returns (r: Read<nat>)
      modifies this`buf
      ensures Leaves(TakeWord(old(buf), WORD, little), r, buf)
    {
      if |buf| < 8 {
        return Failed(TooShort);
      }
      r := Got(WordOf(buf[..8], little));
      buf := buf[8..];
    }

    method Ordinates(coords: nat) returns (r: Read<seq<nat>>)
      modifies this`buf
      ensures Leaves(TakeOrds(old(buf), coords, little), r, buf)
    {
      var p := [];
      for j := 0 to coords
        invariant TakeOrds(old(buf), coords, little) == Onto(p, TakeOrds(buf, coords - j, little))
      {
        var v := Float64();
        if v.Failed? {
          return Failed(v.error);
        }
        OntoSnoc(p, v.value, TakeOrds(buf, coords - j - 1, little));
        p := p + [v.value];
      }
      OntoNone(p, buf);
      r := Got(p);
    }

    /** The length is checked before any ordinate is read. */
    method Points(n: nat, coords: nat) returns (r: Read<seq<seq<nat>>>)
      modifies this`buf
      ensures Leaves(TakePoints(old(buf), n, coords, little), r, buf)
    {
      PointsFit(buf, n, coords, little);
      if |buf| < n * (coords * WORD) {
        return Failed(TooShort);
      }
      var out := [];
      for i := 0 to n
        invariant TakePoints(old(buf), n, coords, little) == Onto(out, TakePoints(buf, n - i, coords, little))
      {
        var p := Ordinates(coords);
        assert p.Got?;
        OntoSnoc(out, p.value, TakePoints(buf, n - i - 1, coords, little));
        out := out + [p.value];
      }
      OntoNone(out, buf);
      r := Got(out);
    }

    method AddPoints(env: GpkgEnvelope, pts: seq<seq<nat>>)
      requires Wide(pts)
      modifies env
      ensures env.Value() == Widened(old(env.Value()), PointPairs(pts))
    {
      for i := 0 to |pts|
        invariant env.Value() == Widened(old(env.Value()), PointPairs(pts[..i]))
      {
        assert pts[..i + 1] == pts[..i] + [pts[i]];
        PointPairsSnoc(pts[..i], pts[i]);
        WidenedConcat(old(env.Value()), PointPairs(pts[..i]), [Pair(pts[i])]);
        env.Add(pts[i][0], pts[i][1]);
      }
      assert pts[..|pts|] == pts;
    }

    /** Every second point starts an arc; each widens the envelope by two pairs. */
    method AddArcs(env: GpkgEnvelope, pts: seq<seq<nat>>)
      requires Wide(pts)
      modifies env
      ensures env.Value() == Widened(old(env.Value()), ArcPairs(pts, arcs))
    {
      var i := 0;
      while i + 2 < |pts|
        invariant 0 <= i <= |pts|
        invariant Widened(env.Value(), ArcPairs(pts[i..], arcs)) == Widened(old(env.Value()), ArcPairs(pts, arcs))
      {
        var a := arcs(Pair(pts[i]), Pair(pts[i + 1]), Pair(pts[i + 2]));
        ghost var before := env.Value();
        assert pts[i..][2..] == pts[i + 2..];
        TwoMore(before, a.0, a.1, ArcPairs(pts[i + 2..], arcs));
        env.Add(a.0.x, a.0.y);
        env.Add(a.1.x, a.1.y);
        i := i + 2;
      }
    }

    /** A line string, a ring, or a circular string. */
    method PointList(env: GpkgEnvelope, coords: nat, isArcs: bool) returns (error: Option<WkbError>)
      requires coords >= 2
      modifies this`buf, env
      ensures ListDone(TakeList(old(buf), coords, little, isArcs), isArcs, arcs, error, buf, old(env.Value()), env.Value())
    {
      var n := Uint32();
      if n.Failed? {
        return Some(n.error);
      }
      if isArcs && n.value != 0 && (n.value < 3 || (n.value - 3) % 2 != 0) {
        return Some(BadArcCount);
      }
      var pts := Points(n.value, coords);
      if pts.Failed? {
        return Some(pts.error);
      }
      if isArcs {
        AddArcs(env, pts.value);
      } else {
        AddPoints(env, pts.value);
      }
      error := None;
    }

    method PointBody(env: GpkgEnvelope, modifier: nat) returns (error: Option<WkbError>)
      modifies this`buf, env
      ensures BodyDone(TakeBody(old(buf), modifier, 1, little), arcs, error, buf, old(env.Value()), env.Value())
    {
      var p := Ordinates(Coords(modifier));
      if p.Failed? {
        return Some(p.error);
      }
      error := None;
      for k := 0 to |p.value|
        invariant env.Value() == old(env.Value())
        invariant forall j | 0 <= j < k :: IsNaN(p.value[j])
        invariant buf == TakeOrds(old(buf), Coords(modifier), little).rest
      {
        if !IsNaN(p.value[k]) {
          env.Add(p.value[0], p.value[1]);
          return;
        }
      }
    }

    method Rings(env: GpkgEnvelope, modifier: nat) returns (error: Option<WkbError>)
      modifies this`buf, env
      ensures BodyDone(TakeBody(old(buf), modifier, 3, little), arcs, error, buf, old(env.Value()), env.Value())
    {
      var n := Uint32();
      if n.Failed? {
        return Some(n.error);
      }
      error := RingList(env, n.value, Coords(modifier));
    }

    method RingList(env: GpkgEnvelope, n: nat, coords: nat) returns (error: Option<WkbError>)
      requires coords >= 2
      modifies this`buf, env
      ensures var t := TakeRings(old(buf), n, coords, little);
              if t.Refused? then error == Some(t.error)
              else error == None && buf == t.rest && WideRings(t.value) && env.Value() == Widened(old(env.Value()), RingPairs(t.value))
    {
      ghost var rings: seq<seq<seq<nat>>>, all := [], TakeRings(buf, n, coords, little);
      for i := 0 to n
        invariant RingsSoFar(all, rings, TakeRings(buf, n - i, coords, little), old(env.Value()), env.Value())
      {
        ghost var ring, before := TakeList(buf, coords, little, false), env.Value();
        error := PointList(env, coords, false);
        if error.Some? {
          return;
        }
        RingsStep(all, rings, ring.value, TakeRings(buf, n - i - 1, coords, little), old(env.Value()), before, env.Value());
        rings := rings + [ring.value];
      }
      OntoNone(rings, buf);
      error := None;
    }

    method Members(env: GpkgEnvelope, modifier: nat, kind: nat) returns (error: Option<WkbError>)
      requires IsMulti(kind)
      modifies this`buf, this`little, env
      ensures BodyDone(TakeBody(old(buf), modifier, kind, old(little)), arcs, error, buf, old(env.Value()), env.Value())
      decreases |buf|, 2
    {
      var n := Uint32();
      if n.Failed? {
        return Some(n.error);
      }
      error := MemberList(env, n.value, modifier, AllowedIn(kind));
    }

    method MemberList(env: GpkgEnvelope, n: nat, dims: int, allowed: Option<seq<nat>>) returns (error: Option<WkbError>)
      modifies this`buf, this`little, env
      ensures var t := TakeMembers(old(buf), n, dims, allowed);
              if t.Refused? then error == Some(t.error)
              else error == None && buf == t.rest && WideMembers(t.value) && env.Value() == Widened(old(env.Value()), MemberPairs(t.value, arcs))
      decreases |buf|, 2
    {
      ghost var ms: seq<Geometry>, all := [], TakeMembers(buf, n, dims, allowed);
      for i := 0 to n
        invariant |buf| <= |old(buf)|
        invariant MembersSoFar(all, ms, TakeMembers(buf, n - i, dims, allowed), arcs, old(env.Value()), env.Value())
      {
        ghost var g, before := TakeGeometry(buf, dims, allowed), env.Value();
        error := ReadGeometry(env, dims, allowed);
        if error.Some? {
          return;
        }
        MembersStep(all, ms, g.value, TakeMembers(buf, n - i - 1, dims, allowed), arcs, old(env.Value()), before, env.Value());
        ms := ms + [g.value];
      }
      OntoNone(ms, buf);
      error := None;
    }

    method ReadBody(env: GpkgEnvelope, modifier: nat, typ: nat) returns (error: Option<WkbError>)
      requires 1 <= typ <= 10
      modifies this`buf, this`little, env
      ensures BodyDone(TakeBody(old(buf), modifier, typ, old(little)), arcs, error, buf, old(env.Value()), env.Value())
      decreases |buf|, 3
    {
      if typ == 1 {
        error := PointBody(env, modifier);
      } else if typ == 3 {
        error := Rings(env, modifier);
      } else if typ == 2 || typ == 8 {
        error := PointList(env, Coords(modifier), typ == 8);
      } else {
        error := Members(env, modifier, typ);
      }
    }

    /** The byte-order byte and the type code, checked against what the parent accepts. */
    method ReadType(dims: int, allowed: Option<seq<nat>>) returns (r: Read<nat>)
      modifies this`buf, this`little
      ensures old(buf) == [] ==> r == Failed(TooShort)
      ensures old(buf) != [] ==>
                little == (old(buf)[0] != 0) && Leaves(TakeType(old(buf)[1..], old(buf)[0] != 0, dims, allowed), r, buf)
    {
      if |buf| < 1 {
        return Failed(TooShort);
      }
      little := buf[0] != 0;
      buf := buf[1..];
      var code := Uint32();
      if code.Failed? {
        return Failed(NoType);
      }
      var modifier, typ := code.value / 1000, code.value % 1000;
      if modifier > 3 {
        return Failed(BadModifier);
      }
      if typ < 1 || typ > 10 {
        return Failed(BadType);
      }
      if dims >= 0 && modifier != dims {
        return Failed(Misplaced);
      }
      if allowed.Some? && typ !in allowed.value {
        return Failed(Misplaced);
      }
      r := Got(code.value);
    }

    /** One geometry with its header; members set the byte order anew, and nothing reads in their parent's after them. */
    method ReadGeometry(env: GpkgEnvelope, dims: int, allowed: Option<seq<nat>>) returns (error: Option<WkbError>)
      modifies this`buf, this`little, env
      ensures GeometryDone(TakeGeometry(old(buf), dims, allowed), arcs, error, buf, old(env.Value()), env.Value())
      decreases |buf|, 1
    {
      var code := ReadType(dims, allowed);
      if code.Failed? {
        return Some(code.error);
      }
      error := ReadBody(env, code.value / 1000, code.value % 1000);
    }
  }

  lemma TwoMore(b: Box, p: XY, q: XY, rest: seq<XY>)
    ensures Widened(b, [p, q] + rest) == Widened(Widened(Widened(b, [p]), [q]), rest)
  {
    WidenedConcat(b, [p, q], rest);
    assert [p, q] == [p] + [q];
    WidenedConcat(b, [p], [q]);
  }

  // ----- A GeoPackage blob -----

  datatype BlobResult = BlobBox(box: Box) | NoHeader(header: HeaderError) | NoGeometry(wkb: WkbError)

  /**
   gpkgBlobEnvelope: the header's envelope if there is one, otherwise the box
   around the pairs of the geometry that follows, which is the least one when
   the pairs are finite.
   */
  method BlobEnvelope(blob: seq<byte>, arcs: Arcs) returns (r: BlobResult)
    ensures var h := ReadGpkgHeader(blob);
            match h
            case BadHeader(err) => r == NoHeader(err)
            case GoodHeader(_, Some(box), _) => r == BlobBox(box)
            case GoodHeader(_, None, size) =>
              match TakeGeometry(blob[size..], -1, None)
              case Refused(err) => r == NoGeometry(err)
              case Took(g, _) => WideGeometry(g) && r == BlobBox(Widened(NEW_BOX, Pairs(g, arcs)))
  {
    var h := ReadGpkgHeader(blob);
    if h.BadHeader? {
      return NoHeader(h.error);
    }
    if h.env.Some? {
      return BlobBox(h.env.value);
    }
    var reader := new WkbEnvelopeReader(blob[h.size..], arcs);
    var env := new GpkgEnvelope();
    var error := reader.ReadGeometry(env, -1, None);
    if error.Some? {
      return NoGeometry(error.value);
    }
    r := BlobBox(Box(env.ok, env.minX, env.maxX, env.minY, env.maxY));
  }
}
