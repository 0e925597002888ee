/** Boxes over attribute x time, the cube codec that stores them, and the
    predicates the index evaluates on them. */
module Boxes {
  import opened Common

  const INT64_MIN: int := -0x8000_0000_0000_0000
  const INT64_MAX: int := 0x7fff_ffff_ffff_ffff
  const TWO53: int := 0x20_0000_0000_0000

  type Int64 = n: int | INT64_MIN <= n <= INT64_MAX

  /** A cube coordinate; NaN is not modelled. */
  datatype Coord = NegInf | Num(r: real) | PosInf

  /** A stored cube: lower-left coordinates first, upper-right ones after them
      unless the point bit is set. */
  datatype RawCube = Cube(dim: nat, point: bool, x: seq<Coord>)
  {
    function LL(i: nat): Coord
      requires i < dim && |x| == (if point then dim else 2 * dim)
    {
      x[i]
    }

    function UR(i: nat): Coord
      requires i < dim && |x| == (if point then dim else 2 * dim)
    {
      if point then x[i] else x[i + dim]
    }
  }

  type Cube = c: RawCube | 1 <= c.dim && |c.x| == (if c.point then c.dim else 2 * c.dim)
    witness Cube(1, true, [Num(0.0)])

  datatype Box = Box(lower: int, upper: int, attrLo: int, attrHi: int, dims: nat,
                     empty: bool, lowerInf: bool, upperInf: bool)

  const EMPTY_BOX := Box(0, 0, 0, 0, 0, true, false, false)

  datatype Strategy = Overlap | Contains | Contained

  function Min(a: int, b: int): int { if a <= b then a else b }
  function Max(a: int, b: int): int { if a >= b then a else b }
  function Abs(a: int): nat { if a < 0 then -a else a }

  // ---------------------------------------------------------------- doubles

  /** Distance between neighbouring doubles of magnitude `a`. */
  function Spacing(a: nat): (p: nat)
    ensures p >= 1
  {
    if a < TWO53 then 1 else 2 * Spacing(a / 2)
  }

  /** `a` to the nearest multiple of `p`, ties to the even multiple. */
  function RoundTo(a: nat, p: nat): int
    requires p >= 1
  {
    var q := a / p;
    var rem := a % p;
    if 2 * rem < p || (2 * rem == p && q % 2 == 0) then q * p else (q + 1) * p
  }

  /** The C conversion `(double) n`, as an integer value. */
  function IntToDouble(n: int): int
  {
    if n < 0 then -RoundTo(-n, Spacing(-n)) else RoundTo(n, Spacing(n))
  }

  predicate IsDoubleInt(n: int) { IntToDouble(n) == n }

  function Pow2(k: nat): (p: nat)
    ensures p >= 1
  {
    if k == 0 then 1 else 2 * Pow2(k - 1)
  }

  /** The value m * 2^k, or m / 2^k when `down`. */
  ghost function Scaled(m: int, k: nat, down: bool): real
  {
    if down then m as real / Pow2(k) as real else (m * Pow2(k)) as real
  }

  /** A finite double: a 53-bit significand times a power of two. */
  ghost predicate IsDouble(r: real)
  {
    exists m: int, k: nat, down: bool :: Abs(m) < TWO53 && r == Scaled(m, k, down)
  }

  /** Round half away from zero, as `llround` does. */
  function Round(r: real): int
  {
    if r >= 0.0 then (r + 0.5).Floor else -((-r + 0.5).Floor)
  }

  /** `llround`; C leaves the result open outside the 64-bit range, so it is
      the arbitrary value `u` there. */
  function Llround(u: Int64, c: Coord): Int64
  {
    match c
    case Num(r) => if INT64_MIN <= Round(r) <= INT64_MAX then Round(r) else u
    case _ => u
  }

  function Wrap32(n: int): (w: int)
    ensures INT32_MIN <= w <= INT32_MAX
  {
    (n - INT32_MIN) % 0x1_0000_0000 + INT32_MIN
  }

  // ------------------------------------------------------------------ codec

  function Encode(b: Box): Cube
  {
    var point := b.attrLo == b.attrHi && b.lower == b.upper && !b.lowerInf && !b.upperInf;
    var lo := [Num(IntToDouble(b.attrLo) as real), Num(IntToDouble(b.lower) as real)];
    var hi := [Num(IntToDouble(b.attrHi) as real), Num(IntToDouble(b.upper) as real)];
    Cube(2, point, if point then lo else lo + hi)
  }

  function Decode(u: Int64, c: Cube): Box
  {
    var lowerD := if c.dim >= 2 then c.LL(1) else c.LL(0);
    var upperD := if c.dim >= 2 then c.UR(1) else lowerD;
    var lower := if lowerD == NegInf then INT64_MIN else Llround(u, lowerD);
    var upper := if upperD == PosInf then INT64_MAX else Llround(u, upperD);
    Box(lower, upper, Wrap32(Llround(u, c.LL(0))), Wrap32(Llround(u, c.UR(0))),
        if c.dim >= 2 then 2 else 1, false, lower == INT64_MIN, upper == INT64_MAX)
  }

  // -------------------------------------------------- union and predicates

  function Union(a: Box, b: Box): Box
  {
    if a.empty then b
    else if b.empty then a
    else Box(Min(a.lower, b.lower), Max(a.upper, b.upper),
             Min(a.attrLo, b.attrLo), Max(a.attrHi, b.attrHi),
             Max(a.dims, b.dims), false,
             a.lowerInf || b.lowerInf, a.upperInf || b.upperInf)
  }

  predicate Overlaps(a: Box, b: Box)
  {
    !a.empty && !b.empty &&
    !(a.attrHi < b.attrLo || b.attrHi < a.attrLo || a.upper < b.lower || b.upper < a.lower)
  }

  predicate BoxContains(a: Box, b: Box)
  {
    !a.empty && !b.empty &&
    a.attrLo <= b.attrLo && a.attrHi >= b.attrHi && a.lower <= b.lower && a.upper >= b.upper
  }

  predicate Ordered(b: Box) { b.lower <= b.upper && b.attrLo <= b.attrHi }

  predicate Matches(tuple: Box, query: Box, s: Strategy)
  {
    match s
    case Overlap => Overlaps(tuple, query)
    case Contains => BoxContains(tuple, query)
    case Contained => BoxContains(query, tuple)
  }

  /** The box a page accumulates over its tuples, left to right. */
  function Mbr(bs: seq<Box>): (m: Box)
  {
    if bs == [] then EMPTY_BOX
    else if |bs| == 1 then bs[0]
    else Union(Mbr(bs[..|bs| - 1]), bs[|bs| - 1])
  }

  /** The page box is the least box that contains every tuple box. */
  lemma {:induction false} MbrIsLeast(bs: seq<Box>)
    requires bs != [] && forall b :: b in bs ==> !b.empty
    ensures !Mbr(bs).empty
    ensures forall b :: b in bs ==> BoxContains(Mbr(bs), b)
    ensures forall a :: (forall b :: b in bs ==> BoxContains(a, b)) ==> BoxContains(a, Mbr(bs))
  {
    if |bs| > 1 {
      var front, last := bs[..|bs| - 1], bs[|bs| - 1];
      assert bs == front + [last];
      MbrIsLeast(front);
      forall a | forall b :: b in bs ==> BoxContains(a, b) ensures BoxContains(a, Mbr(bs)) {
        assert forall b :: b in front ==> b in bs;
        assert last in bs;
        assert BoxContains(a, Mbr(front));
      }
    }
  }

  // -------------------------------------------------- when the codec is exact

  predicate Exact(u: Int64, b: Box) { Decode(u, Encode(b)) == b }

  /** The boxes that decoding in-range two-dimensional cubes can produce. */
  predicate OnGrid(b: Box)
  {
    b.dims == 2 && !b.empty &&
    INT32_MIN <= b.attrLo <= INT32_MAX && INT32_MIN <= b.attrHi <= INT32_MAX &&
    INT64_MIN <= b.lower <= INT64_MAX && IsDoubleInt(b.lower) &&
    INT64_MIN <= b.upper <= INT64_MAX && (IsDoubleInt(b.upper) || b.upper == INT64_MAX) &&
    (b.lowerInf <==> b.lower == INT64_MIN) && (b.upperInf <==> b.upper == INT64_MAX)
  }

  /** In-range input: finite attribute ends, time ends finite or open outward,
      and no rounding leaves the integer types. */
  ghost predicate InRange(c: Cube)
  {
    c.dim == 2 &&
    c.LL(0).Num? && INT32_MIN <= Round(c.LL(0).r) <= INT32_MAX &&
    c.UR(0).Num? && INT32_MIN <= Round(c.UR(0).r) <= INT32_MAX &&
    !c.LL(1).PosInf? && (c.LL(1).Num? ==> INT64_MIN < Round(c.LL(1).r) < INT64_MAX) &&
    !c.UR(1).NegInf? && (c.UR(1).Num? ==> INT64_MIN < Round(c.UR(1).r) < INT64_MAX)
  }

  ghost predicate DoubleCoords(c: Cube)
  {
    forall i :: 0 <= i < |c.x| && c.x[i].Num? ==> IsDouble(c.x[i].r)
  }

  lemma RoundOfInt(n: int)
    ensures Round(n as real) == n
  {
  }

  lemma DoubledMultiple(h: nat, s: nat)
    requires s >= 1 && h % s == 0
    ensures (2 * h) % (2 * s) == 0
  {
    var q := h / s;
    assert 2 * h == 2 * (q * s) == q * (2 * s);
    MultipleMod(q, 2 * s);
  }

  lemma {:induction false} ScaledUpIsDouble(m: nat, k: nat)
    requires m < TWO53
    ensures (m * Pow2(k)) % Spacing(m * Pow2(k)) == 0
    decreases k
  {
    var a := m * Pow2(k);
    if a >= TWO53 {
      assert k > 0;
      var h := m * Pow2(k - 1);
      assert a == 2 * h;
      ScaledUpIsDouble(m, k - 1);
      DoubledMultiple(h, Spacing(h));
    }
  }

  lemma MultipleMod(q: nat, p: nat)
    requires p >= 1
    ensures (q * p) % p == 0 && (q * p) / p == q
  {
    DivMod(q * p, p, q, 0);
  }

  lemma MultipleIsDouble(n: int)
    requires Abs(n) % Spacing(Abs(n)) == 0
    ensures IsDoubleInt(n)
  {
    var p := Spacing(Abs(n));
    assert (Abs(n) / p) * p == Abs(n);
  }

  lemma SmallIsDouble(n: int)
    requires Abs(n) < TWO53
    ensures IsDoubleInt(n)
  {
  }

  /** Rounding a double to an integer gives a value that is itself a double. */
  lemma RoundOfDouble(r: real)
    requires IsDouble(r)
    ensures IsDoubleInt(Round(r))
  {
    var m: int, k: nat, down: bool :| Abs(m) < TWO53 && r == Scaled(m, k, down);
    if !down {
      RoundOfInt(m * Pow2(k));
      ScaledUpIsDouble(Abs(m), k);
      assert Abs(m * Pow2(k)) == Abs(m) * Pow2(k) by { MulSign(m, Pow2(k)); }
      MultipleIsDouble(Round(r));
    } else if k == 0 {
      assert r == m as real;
      RoundOfInt(m);
      SmallIsDouble(m);
    } else {
      DownBound(m, k);
      SmallIsDouble(Round(r));
    }
  }

  lemma MulSign(m: int, p: nat)
    requires p >= 1
    ensures Abs(m * p) == Abs(m) * p
  {
    if m < 0 { assert (-m) * p == -(m * p); }
  }

  lemma DownBound(m: int, k: nat)
    requires Abs(m) < TWO53 && k > 0
    ensures Abs(Round(Scaled(m, k, true))) < TWO53
  {
    var p := Pow2(k) as real;
    assert p >= 2.0;
    var r := Scaled(m, k, true);
    assert r * p == m as real;
    var t := TWO53 as real;
    MulMono(2.0, p, t / 2.0);
    if r >= t / 2.0 { MulMono(t / 2.0, r, p); }
    if -r >= t / 2.0 { MulMono(t / 2.0, -r, p); }
  }

  lemma MulMono(x: real, y: real, p: real)
    requires x <= y && p >= 0.0
    ensures x * p <= y * p
  {
  }

  lemma TopOfRange()
    ensures IntToDouble(INT64_MAX) == INT64_MAX + 1
    ensures IsDoubleInt(INT64_MIN)
  {
    assert Spacing(INT64_MAX) == 1024;
    assert Spacing(0x8000_0000_0000_0000) == 2048;
  }

  lemma DecodeOnGrid(u: Int64, c: Cube)
    requires InRange(c) && DoubleCoords(c)
    ensures OnGrid(Decode(u, c))
  {
    TopOfRange();
    if c.LL(1).Num? { RoundOfDouble(c.LL(1).r); }
    if c.UR(1).Num? {
      assert c.UR(1) in c.x;
      RoundOfDouble(c.UR(1).r);
    }
  }

  lemma UnionOnGrid(a: Box, b: Box)
    requires OnGrid(a) && OnGrid(b)
    ensures OnGrid(Union(a, b))
  {
  }

  lemma TimeReadsBack(u: Int64, n: Int64)
    requires IsDoubleInt(n)
    ensures Llround(u, Num(IntToDouble(n) as real)) == n
  {
    RoundOfInt(n);
  }

  lemma AttrReadsBack(u: Int64, n: int)
    requires INT32_MIN <= n <= INT32_MAX
    ensures Wrap32(Llround(u, Num(IntToDouble(n) as real))) == n
  {
    SmallIsDouble(n);
    RoundOfInt(n);
  }

  lemma TopReadsBack(u: Int64)
    ensures Llround(u, Num(IntToDouble(INT64_MAX) as real)) == u
  {
    TopOfRange();
    RoundOfInt(INT64_MAX + 1);
  }

  /** A stored box reads back unchanged exactly when its upper end is not the
      open one, or the platform's `llround` saturates. */
  lemma ExactIff(u: Int64, b: Box)
    requires OnGrid(b)
    ensures Exact(u, b) <==> b.upper < INT64_MAX || u == INT64_MAX
    ensures b.upper == INT64_MAX ==> Decode(u, Encode(b)).upper == u
  {
    AttrReadsBack(u, b.attrLo);
    AttrReadsBack(u, b.attrHi);
    TimeReadsBack(u, b.lower);
    if b.upper == INT64_MAX { TopReadsBack(u); } else { TimeReadsBack(u, b.upper); }
  }

  lemma UnionExact(u: Int64, a: Box, b: Box)
    requires OnGrid(a) && OnGrid(b) && Exact(u, a) && Exact(u, b)
    ensures OnGrid(Union(a, b)) && Exact(u, Union(a, b))
  {
    UnionOnGrid(a, b);
    ExactIff(u, a);
    ExactIff(u, b);
    ExactIff(u, Union(a, b));
  }

  lemma {:induction false} MbrExact(u: Int64, bs: seq<Box>)
    requires bs != [] && forall b :: b in bs ==> OnGrid(b) && Exact(u, b)
    ensures OnGrid(Mbr(bs)) && Exact(u, Mbr(bs))
  {
    if |bs| > 1 {
      MbrExact(u, bs[..|bs| - 1]);
      UnionExact(u, Mbr(bs[..|bs| - 1]), bs[|bs| - 1]);
    }
  }

  // ----------------------------------------------------- what decoding means

  /** `n` is the integer nearest to the coordinate; ties go away from zero. */
  ghost predicate Rounded(c: Coord, n: int)
  {
    c.Num? && -0.5 <= n as real - c.r <= 0.5 &&
    (n as real - c.r == 0.5 ==> c.r > 0.0) && (n as real - c.r == -0.5 ==> c.r < 0.0)
  }

  lemma RoundIsNearest(r: real)
    ensures Rounded(Num(r), Round(r))
    ensures forall n: int :: Rounded(Num(r), n) ==> n == Round(r)
  {
  }

  /** A 32-bit cast keeps the value modulo 2^32. */
  lemma WrapIsCongruent(n: int)
    ensures INT32_MIN <= Wrap32(n) <= INT32_MAX && (Wrap32(n) - n) % 0x1_0000_0000 == 0
    ensures INT32_MIN <= n <= INT32_MAX ==> Wrap32(n) == n
  {
  }

  /** Every finite end is rounded to the nearest integer, every open time end
      becomes the end of the 64-bit range and is flagged. */
  lemma DecodeIsNearest(u: Int64, c: Cube)
    requires InRange(c)
    ensures var b := Decode(u, c);
            !b.empty && b.dims == 2 && Rounded(c.LL(0), b.attrLo) && Rounded(c.UR(0), b.attrHi) &&
            (b.lowerInf <==> c.LL(1) == NegInf) && (b.upperInf <==> c.UR(1) == PosInf) &&
            (if c.LL(1) == NegInf then b.lower == INT64_MIN else Rounded(c.LL(1), b.lower)) &&
            (if c.UR(1) == PosInf then b.upper == INT64_MAX else Rounded(c.UR(1), b.upper))
  {
    RoundIsNearest(c.LL(0).r);
    RoundIsNearest(c.UR(0).r);
    if c.LL(1).Num? { RoundIsNearest(c.LL(1).r); }
    if c.UR(1).Num? { RoundIsNearest(c.UR(1).r); }
  }

  /** One-dimensional cubes: the coordinate serves as attribute and as time, and
      the upper end is not read as an end of time. */
  lemma DecodeOneDimension(u: Int64, c: Cube)
    requires c.dim == 1 && c.LL(0).Num? && c.UR(0).Num?
    requires INT32_MIN <= Round(c.LL(0).r) <= INT32_MAX && INT32_MIN <= Round(c.UR(0).r) <= INT32_MAX
    ensures var b := Decode(u, c);
            !b.empty && b.dims == 1 && Rounded(c.LL(0), b.attrLo) && Rounded(c.UR(0), b.attrHi) &&
            Rounded(c.LL(0), b.lower) && b.upper == b.lower && !b.lowerInf && !b.upperInf
  {
    RoundIsNearest(c.LL(0).r);
    RoundIsNearest(c.UR(0).r);
  }

  // ------------------------------------------------------ conversion to double

  /** The spacing is a power of two that leaves 53 significant bits. */
  lemma {:induction false} SpacingIs(a: nat)
    ensures a < TWO53 ==> Spacing(a) == 1
    ensures a >= TWO53 ==> Spacing(a) * TWO53 <= 2 * a && a < Spacing(a) * TWO53
    ensures exists k: nat :: Spacing(a) == Pow2(k)
  {
    if a < TWO53 {
      assert Spacing(a) == Pow2(0);
    } else {
      SpacingIs(a / 2);
      var k: nat :| Spacing(a / 2) == Pow2(k);
      assert Spacing(a) == Pow2(k + 1);
    }
  }

  /** An integer becomes the nearest multiple of its spacing; on a tie, the even
      multiple. */
  lemma IntToDoubleIsNearest(n: int)
    ensures var d, p := IntToDouble(n), Spacing(Abs(n));
            Abs(d) % p == 0 && 2 * Abs(d - n) <= p && (2 * Abs(d - n) == p ==> (Abs(d) / p) % 2 == 0)
  {
    RoundToIsNearest(Abs(n), Spacing(Abs(n)));
  }

  lemma RoundToIsNearest(a: nat, p: nat)
    requires p >= 1
    ensures var d := RoundTo(a, p);
            d >= 0 && d % p == 0 && 2 * Abs(d - a) <= p && (2 * Abs(d - a) == p ==> (d / p) % 2 == 0)
  {
    var q, rem := a / p, a % p;
    assert a == q * p + rem;
    assert (q + 1) * p == q * p + p;
    MultipleMod(q, p);
    MultipleMod(q + 1, p);
  }

  /** The integers the conversion leaves alone are the whole doubles. */
  lemma DoubleIntIff(n: int)
    ensures IsDoubleInt(n) <==> IsDouble(n as real)
  {
    if IsDouble(n as real) {
      RoundOfDouble(n as real);
      RoundOfInt(n);
    }
    if IsDoubleInt(n) {
      IntToDoubleIsNearest(n);
      SpacingIs(Abs(n));
      var p := Spacing(Abs(n));
      var k: nat :| p == Pow2(k);
      var q := Abs(n) / p;
      assert Abs(n) == q * p;
      assert q < TWO53 by { if q >= TWO53 { MulMonoNat(TWO53, q, p); } }
      var m := if n < 0 then -q else q;
      assert m * Pow2(k) == n;
      assert n as real == Scaled(m, k, false);
    }
  }

  lemma MulMonoNat(a: nat, b: nat, p: nat)
    requires a <= b
    ensures a * p <= b * p
  {
  }

  // ------------------------------------------------------- boxes as point sets

  ghost predicate HasPoint(b: Box, attr: int, time: int)
  {
    !b.empty && b.attrLo <= attr <= b.attrHi && b.lower <= time <= b.upper
  }

  /** Overlapping is having a point in common. */
  lemma OverlapsIff(a: Box, b: Box)
    requires Ordered(a) && Ordered(b)
    ensures Overlaps(a, b) <==> exists attr, time :: HasPoint(a, attr, time) && HasPoint(b, attr, time)
  {
    if Overlaps(a, b) {
      var attr, time := Max(a.attrLo, b.attrLo), Max(a.lower, b.lower);
      assert HasPoint(a, attr, time) && HasPoint(b, attr, time);
    }
  }

  /** Containing is having every point of the other. */
  lemma ContainsIff(a: Box, b: Box)
    requires Ordered(b) && !b.empty
    ensures BoxContains(a, b) <==> forall attr, time :: HasPoint(b, attr, time) ==> HasPoint(a, attr, time)
  {
    if forall attr, time :: HasPoint(b, attr, time) ==> HasPoint(a, attr, time) {
      assert HasPoint(b, b.attrLo, b.lower) && HasPoint(b, b.attrHi, b.upper);
    }
  }

  /** The union holds the points of both, and lies in every box that does; an
      empty box adds nothing. */
  lemma UnionIsLeast(a: Box, b: Box, attr: int, time: int, c: Box)
    ensures HasPoint(a, attr, time) || HasPoint(b, attr, time) ==> HasPoint(Union(a, b), attr, time)
    ensures (a.empty || BoxContains(c, a)) && (b.empty || BoxContains(c, b)) && !(a.empty && b.empty) ==>
            BoxContains(c, Union(a, b))
    ensures Union(a, b).empty <==> a.empty && b.empty
  {
  }
}
