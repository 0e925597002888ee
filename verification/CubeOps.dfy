/** The SQL operators of the cube type, and when the index's box predicates
    give the same answer. */
module CubeOps {
  import opened Common
  import opened Boxes

  predicate Le(a: Coord, b: Coord)
  {
    a.NegInf? || b.PosInf? || (a.Num? && b.Num? && a.r <= b.r)
  }

  function MinC(a: Coord, b: Coord): Coord { if Le(a, b) then a else b }
  function MaxC(a: Coord, b: Coord): Coord { if Le(a, b) then b else a }

  function Lo(c: Cube, i: nat): Coord
    requires i < c.dim
  {
    MinC(c.LL(i), c.UR(i))
  }

  function Hi(c: Cube, i: nat): Coord
    requires i < c.dim
  {
    MaxC(c.LL(i), c.UR(i))
  }

  const ZERO := Num(0.0)

  /** `cube_contains_v0`, for cubes of any dimensions. */
  predicate CubeContains(a: Cube, b: Cube)
  {
    (forall i :: a.dim <= i < b.dim ==> b.LL(i) == ZERO && b.UR(i) == ZERO) &&
    forall i :: 0 <= i < Min(a.dim, b.dim) ==> Le(Lo(a, i), Lo(b, i)) && Le(Hi(b, i), Hi(a, i))
  }

  /** `cube_overlap_v0`, for cubes of any dimensions. */
  predicate CubeOverlaps(a: Cube, b: Cube)
  {
    if a.dim < b.dim then WideOverlaps(b, a) else WideOverlaps(a, b)
  }

  predicate WideOverlaps(a: Cube, b: Cube)
    requires a.dim >= b.dim
  {
    (forall i :: 0 <= i < b.dim ==> Le(Lo(a, i), Hi(b, i)) && Le(Lo(b, i), Hi(a, i))) &&
    forall i :: b.dim <= i < a.dim ==> Le(Lo(a, i), ZERO) && Le(ZERO, Hi(a, i))
  }

  /** What the SQL operator with this strategy number answers. */
  predicate CubeMatches(tuple: Cube, query: Cube, s: Strategy)
  {
    match s
    case Overlap => CubeOverlaps(tuple, query)
    case Contains => CubeContains(tuple, query)
    case Contained => CubeContains(query, tuple)
  }

  /** What the SQL operators answer: 1 is `&&`, 2 is `@>` and 3 is `<@`. */
  predicate OperatorAnswers(n: nat, tuple: Cube, query: Cube)
  {
    (n == 1 && CubeOverlaps(tuple, query)) || (n == 2 && CubeContains(tuple, query)) ||
    (n == 3 && CubeContains(query, tuple))
  }

  ghost predicate Agree(u: Int64, t: Cube, q: Cube)
  {
    forall s: Strategy :: Matches(Decode(u, t), Decode(u, q), s) <==> CubeMatches(t, q, s)
  }

  /** Whole coordinates, each lower end at or below its upper end. */
  ghost predicate Whole(c: Cube)
    requires c.dim == 2
  {
    WholeSide(c.LL(0), c.UR(0)) && WholeSide(c.LL(1), c.UR(1))
  }

  ghost predicate WholeSide(lo: Coord, hi: Coord)
  {
    (lo.Num? ==> lo.r == Round(lo.r) as real) && (hi.Num? ==> hi.r == Round(hi.r) as real) && Le(lo, hi)
  }

  // ------------------------------------------------------ one dimension

  /** One decoded side: the integers stored for a pair of coordinates. */
  function LoInt(c: Coord): int { if c.Num? then Round(c.r) else INT64_MIN }
  function HiInt(c: Coord): int { if c.Num? then Round(c.r) else INT64_MAX }

  ghost predicate Side(lo: Coord, hi: Coord)
  {
    !lo.PosInf? && !hi.NegInf? &&
    (lo.Num? ==> INT64_MIN < Round(lo.r) < INT64_MAX) && (hi.Num? ==> INT64_MIN < Round(hi.r) < INT64_MAX)
  }

  ghost predicate SideOverlaps(tlo: Coord, thi: Coord, qlo: Coord, qhi: Coord)
  {
    Le(MinC(tlo, thi), MaxC(qlo, qhi)) && Le(MinC(qlo, qhi), MaxC(tlo, thi))
  }

  ghost predicate SideWithin(tlo: Coord, thi: Coord, qlo: Coord, qhi: Coord)
  {
    Le(MinC(qlo, qhi), MinC(tlo, thi)) && Le(MaxC(tlo, thi), MaxC(qlo, qhi))
  }

  ghost predicate IntOverlaps(tlo: Coord, thi: Coord, qlo: Coord, qhi: Coord)
  {
    LoInt(tlo) <= HiInt(qhi) && LoInt(qlo) <= HiInt(thi)
  }

  ghost predicate IntWithin(tlo: Coord, thi: Coord, qlo: Coord, qhi: Coord)
  {
    LoInt(qlo) <= LoInt(tlo) && HiInt(thi) <= HiInt(qhi)
  }

  lemma WholeSidesAgree(tlo: Coord, thi: Coord, qlo: Coord, qhi: Coord)
    requires Side(tlo, thi) && Side(qlo, qhi) && WholeSide(tlo, thi) && WholeSide(qlo, qhi)
    ensures SideOverlaps(tlo, thi, qlo, qhi) <==> IntOverlaps(tlo, thi, qlo, qhi)
    ensures SideWithin(tlo, thi, qlo, qhi) <==> IntWithin(tlo, thi, qlo, qhi)
  {
  }

  /** [wlo, whi] reaches past both ends of the side, before and after rounding. */
  ghost predicate Reaches(wlo: Coord, whi: Coord, tlo: Coord, thi: Coord)
  {
    WholeSide(wlo, whi) && Le(wlo, tlo) && Le(wlo, thi) && Le(tlo, whi) && Le(thi, whi) &&
    LoInt(wlo) <= LoInt(tlo) && LoInt(wlo) <= HiInt(thi) && LoInt(tlo) <= HiInt(whi) && HiInt(thi) <= HiInt(whi)
  }

  /** A side that is not whole is told apart by a whole query side. */
  lemma BadSide(tlo: Coord, thi: Coord, wlo: Coord, whi: Coord) returns (qlo: Coord, qhi: Coord)
    requires Side(tlo, thi) && Side(wlo, whi) && !WholeSide(tlo, thi) && Reaches(wlo, whi, tlo, thi)
    ensures WholeSide(qlo, qhi) && Side(qlo, qhi)
    ensures qlo.Num? ==> LoInt(wlo) <= Round(qlo.r) <= HiInt(whi)
    ensures qhi.Num? ==> LoInt(wlo) <= Round(qhi.r) <= HiInt(whi)
    ensures wlo.Num? && whi.Num? ==> qlo.Num? && qhi.Num?
    ensures (SideOverlaps(tlo, thi, qlo, qhi) != IntOverlaps(tlo, thi, qlo, qhi)) ||
            (SideWithin(tlo, thi, qlo, qhi) != IntWithin(tlo, thi, qlo, qhi))
  {
    RoundOfInt(LoInt(tlo));
    RoundOfInt(HiInt(thi));
    qlo, qhi := wlo, whi;
    if tlo.Num? && LoInt(tlo) as real != tlo.r {
      if LoInt(tlo) as real > tlo.r { qlo := Num(LoInt(tlo) as real); } else { qhi := Num(LoInt(tlo) as real); }
    } else if thi.Num? && HiInt(thi) as real != thi.r {
      if HiInt(thi) as real > thi.r { qlo := Num(HiInt(thi) as real); } else { qhi := Num(HiInt(thi) as real); }
    } else {
      qlo := Num(LoInt(tlo) as real);
    }
  }

  // ------------------------------------------------------ two dimensions

  lemma DecodeSides(u: Int64, c: Cube)
    requires InRange(c)
    ensures var b := Decode(u, c);
            b.attrLo == LoInt(c.LL(0)) && b.attrHi == HiInt(c.UR(0)) &&
            b.lower == LoInt(c.LL(1)) && b.upper == HiInt(c.UR(1)) && !b.empty
  {
  }

  lemma CubeSides(t: Cube, q: Cube)
    requires t.dim == 2 && q.dim == 2
    ensures CubeOverlaps(t, q) <==>
            SideOverlaps(t.LL(0), t.UR(0), q.LL(0), q.UR(0)) && SideOverlaps(t.LL(1), t.UR(1), q.LL(1), q.UR(1))
    ensures CubeContains(q, t) <==>
            SideWithin(t.LL(0), t.UR(0), q.LL(0), q.UR(0)) && SideWithin(t.LL(1), t.UR(1), q.LL(1), q.UR(1))
  {
    assert Lo(t, 0) == MinC(t.LL(0), t.UR(0)) && Lo(t, 1) == MinC(t.LL(1), t.UR(1));
    assert Lo(q, 0) == MinC(q.LL(0), q.UR(0)) && Lo(q, 1) == MinC(q.LL(1), q.UR(1));
  }

  lemma BoxSides(u: Int64, t: Cube, q: Cube)
    requires InRange(t) && InRange(q)
    ensures var a, b := Decode(u, t), Decode(u, q);
            (Overlaps(a, b) <==>
             IntOverlaps(t.LL(0), t.UR(0), q.LL(0), q.UR(0)) && IntOverlaps(t.LL(1), t.UR(1), q.LL(1), q.UR(1))) &&
            (BoxContains(b, a) <==>
             IntWithin(t.LL(0), t.UR(0), q.LL(0), q.UR(0)) && IntWithin(t.LL(1), t.UR(1), q.LL(1), q.UR(1)))
  {
    DecodeSides(u, t);
    DecodeSides(u, q);
  }

  /** In range, with room left on either side of the attribute. */
  ghost predicate Inside(c: Cube)
  {
    InRange(c) && INT32_MIN < Round(c.LL(0).r) < INT32_MAX && INT32_MIN < Round(c.UR(0).r) < INT32_MAX
  }

  lemma WholeCubesAgree(u: Int64, t: Cube, q: Cube)
    requires InRange(t) && InRange(q) && Whole(t) && Whole(q)
    ensures Agree(u, t, q)
  {
    CubeSides(t, q);
    CubeSides(q, t);
    BoxSides(u, t, q);
    BoxSides(u, q, t);
    WholeSidesAgree(t.LL(0), t.UR(0), q.LL(0), q.UR(0));
    WholeSidesAgree(t.LL(1), t.UR(1), q.LL(1), q.UR(1));
    WholeSidesAgree(q.LL(0), q.UR(0), t.LL(0), t.UR(0));
    WholeSidesAgree(q.LL(1), q.UR(1), t.LL(1), t.UR(1));
  }

  lemma WideSide(tlo: Coord, thi: Coord, wlo: Coord, whi: Coord)
    requires Side(tlo, thi) && Reaches(wlo, whi, tlo, thi)
    ensures SideOverlaps(tlo, thi, wlo, whi) && IntOverlaps(tlo, thi, wlo, whi)
    ensures SideWithin(tlo, thi, wlo, whi) && IntWithin(tlo, thi, wlo, whi)
  {
  }

  lemma InRangeSide(c: Cube, i: nat)
    requires InRange(c) && i < 2
    ensures Side(c.LL(i), c.UR(i))
  {
  }

  /** A query that differs on one side and reaches past the other disagrees. */
  lemma OneSideDisagrees(u: Int64, t: Cube, q: Cube, bad: nat)
    requires InRange(t) && InRange(q) && bad < 2
    requires var tlo, thi, qlo, qhi := t.LL(bad), t.UR(bad), q.LL(bad), q.UR(bad);
             SideOverlaps(tlo, thi, qlo, qhi) != IntOverlaps(tlo, thi, qlo, qhi) ||
             SideWithin(tlo, thi, qlo, qhi) != IntWithin(tlo, thi, qlo, qhi)
    requires Reaches(q.LL(1 - bad), q.UR(1 - bad), t.LL(1 - bad), t.UR(1 - bad))
    ensures !Agree(u, t, q)
  {
    CubeSides(t, q);
    BoxSides(u, t, q);
    InRangeSide(t, 1 - bad);
    hide SideOverlaps, IntOverlaps, SideWithin, IntWithin, Decode, CubeOverlaps, CubeContains, Overlaps, BoxContains,
         Side, InRange, Reaches;
    WideSide(t.LL(1 - bad), t.UR(1 - bad), q.LL(1 - bad), q.UR(1 - bad));
    assert Matches(Decode(u, t), Decode(u, q), Overlap) == Overlaps(Decode(u, t), Decode(u, q));
    assert Matches(Decode(u, t), Decode(u, q), Contained) == BoxContains(Decode(u, q), Decode(u, t));
  }

  const ATTR_LO := Num(INT32_MIN as real)
  const ATTR_HI := Num(INT32_MAX as real)

  lemma AttrReaches(lo: Coord, hi: Coord)
    requires lo.Num? && hi.Num? && INT32_MIN < Round(lo.r) < INT32_MAX && INT32_MIN < Round(hi.r) < INT32_MAX
    ensures Side(lo, hi) && Side(ATTR_LO, ATTR_HI) && Reaches(ATTR_LO, ATTR_HI, lo, hi)
    ensures LoInt(ATTR_LO) == INT32_MIN && HiInt(ATTR_HI) == INT32_MAX
  {
    RoundOfInt(INT32_MIN);
    RoundOfInt(INT32_MAX);
  }

  lemma BadCubeDisagrees(u: Int64, t: Cube) returns (q: Cube)
    requires Inside(t) && !Whole(t)
    ensures InRange(q) && Whole(q) && !Agree(u, t, q)
  {
    hide Agree;
    AttrReaches(t.LL(0), t.UR(0));
    assert Reaches(NegInf, PosInf, t.LL(1), t.UR(1));
    if !WholeSide(t.LL(0), t.UR(0)) {
      var lo, hi := BadSide(t.LL(0), t.UR(0), ATTR_LO, ATTR_HI);
      q := Cube(2, false, [lo, NegInf, hi, PosInf]);
      OneSideDisagrees(u, t, q, 0);
    } else {
      var lo, hi := BadSide(t.LL(1), t.UR(1), NegInf, PosInf);
      q := Cube(2, false, [ATTR_LO, lo, ATTR_HI, hi]);
      OneSideDisagrees(u, t, q, 1);
    }
  }

  /** The index may skip the recheck for a stored cube exactly when that cube
      has whole coordinates in order. */
  lemma AgreeIff(u: Int64, t: Cube)
    requires Inside(t)
    ensures (forall q: Cube :: InRange(q) && Whole(q) ==> Agree(u, t, q)) <==> Whole(t)
  {
    if Whole(t) {
      forall q: Cube | InRange(q) && Whole(q) ensures Agree(u, t, q) { WholeCubesAgree(u, t, q); }
    } else {
      var q := BadCubeDisagrees(u, t);
    }
  }

  lemma AgreeSwaps(u: Int64, a: Cube, b: Cube)
    requires a.dim == 2 && b.dim == 2
    ensures Agree(u, a, b) <==> Agree(u, b, a)
  {
    hide Agree;
    if Agree(u, a, b) { SwapAgrees(u, a, b); } else if Agree(u, b, a) { SwapAgrees(u, b, a); }
  }

  lemma SwapAgrees(u: Int64, a: Cube, b: Cube)
    requires a.dim == 2 && b.dim == 2 && Agree(u, a, b)
    ensures Agree(u, b, a)
  {
    CubeSides(a, b);
    CubeSides(b, a);
    hide CubeOverlaps, CubeContains, Decode;
    forall s: Strategy ensures Matches(Decode(u, b), Decode(u, a), s) <==> CubeMatches(b, a, s) {
      var t := match s case Overlap => Overlap case Contains => Contained case Contained => Contains;
      assert Matches(Decode(u, a), Decode(u, b), t) <==> CubeMatches(a, b, t);
    }
  }

  /** The same for a query: the recheck can be left out for all whole stored
      cubes exactly when the query has whole coordinates in order. */
  lemma QueryAgreesIff(u: Int64, q: Cube)
    requires Inside(q)
    ensures (forall t: Cube :: InRange(t) && Whole(t) ==> Agree(u, t, q)) <==> Whole(q)
  {
    AgreeIff(u, q);
    if Whole(q) {
      forall t: Cube | InRange(t) && Whole(t) ensures Agree(u, t, q) { AgreeSwaps(u, t, q); }
    } else {
      var t: Cube :| InRange(t) && Whole(t) && !Agree(u, q, t);
      AgreeSwaps(u, t, q);
    }
  }

  /** A whole stored point and a query a quarter off: the index returns the row,
      the SQL operator would not. */
  lemma FractionalQueryDisagrees(u: Int64)
    ensures var t, q := Cube(2, true, [Num(0.0), Num(0.0)]), Cube(2, true, [Num(0.25), Num(0.0)]);
            InRange(t) && Whole(t) && InRange(q) &&
            Matches(Decode(u, t), Decode(u, q), Overlap) && !CubeMatches(t, q, Overlap)
  {
    var t, q := Cube(2, true, [Num(0.0), Num(0.0)]), Cube(2, true, [Num(0.25), Num(0.0)]);
    assert Round(0.25) == 0;
    CubeSides(t, q);
    BoxSides(u, t, q);
  }

  /** Whole points outside the 32-bit attribute range: the attribute wraps, and
      the index reports an overlap that the SQL operator denies. */
  lemma WrappedAttributeDisagrees(u: Int64)
    ensures var t, q := Cube(2, true, [Num(4294967296.0), Num(0.0)]), Cube(2, true, [Num(0.0), Num(0.0)]);
            Whole(t) && Whole(q) && InRange(q) && !InRange(t) &&
            Matches(Decode(u, t), Decode(u, q), Overlap) && !CubeMatches(t, q, Overlap)
  {
    var t, q := Cube(2, true, [Num(4294967296.0), Num(0.0)]), Cube(2, true, [Num(0.0), Num(0.0)]);
    RoundOfInt(4294967296);
    RoundOfInt(0);
    CubeSides(t, q);
  }

  // -------------------------------------------------------- cubes as point sets

  /** A point of any dimension; beyond its own dimensions a cube is at zero. */
  ghost predicate At(c: Cube, p: seq<Coord>)
  {
    |p| >= c.dim && (forall i :: 0 <= i < c.dim ==> Le(Lo(c, i), p[i]) && Le(p[i], Hi(c, i))) &&
    forall i :: c.dim <= i < |p| ==> p[i] == ZERO
  }

  function LowCorner(c: Cube, n: nat): (p: seq<Coord>)
    ensures |p| == n && forall i :: 0 <= i < n ==> p[i] == if i < c.dim then Lo(c, i) else ZERO
  {
    seq(n, i requires 0 <= i => if i < c.dim then Lo(c, i) else ZERO)
  }

  function HighCorner(c: Cube, n: nat): (p: seq<Coord>)
    ensures |p| == n && forall i :: 0 <= i < n ==> p[i] == if i < c.dim then Hi(c, i) else ZERO
  {
    seq(n, i requires 0 <= i => if i < c.dim then Hi(c, i) else ZERO)
  }

  lemma CornersAt(c: Cube, n: nat)
    requires n >= c.dim
    ensures At(c, LowCorner(c, n)) && At(c, HighCorner(c, n))
  {
  }

  /** The dimensions that only `a` has include zero. */
  ghost predicate ExcessAtZero(a: Cube, b: Cube)
  {
    forall i :: b.dim <= i < a.dim ==> Le(Lo(a, i), ZERO) && Le(ZERO, Hi(a, i))
  }

  /** The containment operator, for cubes of any dimensions: every point of the
      second is a point of the first, but for dimensions only the first has,
      which the operator does not look at. */
  lemma CubeContainsIff(a: Cube, b: Cube)
    ensures var n := Max(a.dim, b.dim);
            CubeContains(a, b) && ExcessAtZero(a, b) <==> forall p: seq<Coord> :: |p| == n && At(b, p) ==> At(a, p)
  {
    var n := Max(a.dim, b.dim);
    if CubeContains(a, b) && ExcessAtZero(a, b) {
      forall p: seq<Coord> | |p| == n && At(b, p) ensures At(a, p) { ContainedPoint(a, b, p); }
    } else {
      CornersAt(b, n);
      if At(a, LowCorner(b, n)) && At(a, HighCorner(b, n)) { CornersContained(a, b, n); }
    }
  }

  lemma ContainedPoint(a: Cube, b: Cube, p: seq<Coord>)
    requires CubeContains(a, b) && ExcessAtZero(a, b) && |p| == Max(a.dim, b.dim) && At(b, p)
    ensures At(a, p)
  {
    forall i | 0 <= i < a.dim ensures Le(Lo(a, i), p[i]) && Le(p[i], Hi(a, i)) {
      if i < b.dim { assert Le(Lo(b, i), p[i]) && Le(p[i], Hi(b, i)); }
    }
    forall i | a.dim <= i < |p| ensures p[i] == ZERO {
      assert Le(Lo(b, i), p[i]) && Le(p[i], Hi(b, i));
    }
  }

  lemma CornersContained(a: Cube, b: Cube, n: nat)
    requires n == Max(a.dim, b.dim) && At(a, LowCorner(b, n)) && At(a, HighCorner(b, n))
    ensures CubeContains(a, b) && ExcessAtZero(a, b)
  {
    var lo, hi := LowCorner(b, n), HighCorner(b, n);
    forall i | 0 <= i < Min(a.dim, b.dim) ensures Le(Lo(a, i), Lo(b, i)) && Le(Hi(b, i), Hi(a, i)) {
      assert Le(Lo(a, i), lo[i]) && Le(hi[i], Hi(a, i));
    }
    forall i | a.dim <= i < b.dim ensures b.LL(i) == ZERO && b.UR(i) == ZERO {
      assert lo[i] == ZERO && hi[i] == ZERO;
    }
    forall i | b.dim <= i < a.dim ensures Le(Lo(a, i), ZERO) && Le(ZERO, Hi(a, i)) {
      assert Le(Lo(a, i), lo[i]) && Le(lo[i], Hi(a, i));
    }
  }

  /** The overlap operator, for cubes of any dimensions: some point of both. */
  lemma CubeOverlapsIff(a: Cube, b: Cube)
    ensures var n := Max(a.dim, b.dim);
            CubeOverlaps(a, b) <==> exists p: seq<Coord> :: |p| == n && At(a, p) && At(b, p)
  {
    if a.dim < b.dim { WideOverlapsIff(b, a); } else { WideOverlapsIff(a, b); }
  }

  lemma WideOverlapsIff(a: Cube, b: Cube)
    requires a.dim >= b.dim
    ensures WideOverlaps(a, b) <==> exists p: seq<Coord> :: |p| == a.dim && At(a, p) && At(b, p)
  {
    if WideOverlaps(a, b) {
      var p := Shared(a, b);
      assert At(a, p) && At(b, p);
    }
    if p: seq<Coord> :| |p| == a.dim && At(a, p) && At(b, p) {
      forall i | 0 <= i < b.dim ensures Le(Lo(a, i), Hi(b, i)) && Le(Lo(b, i), Hi(a, i)) {
        assert Le(Lo(a, i), p[i]) && Le(p[i], Hi(a, i)) && Le(Lo(b, i), p[i]) && Le(p[i], Hi(b, i));
      }
      forall i | b.dim <= i < a.dim ensures Le(Lo(a, i), ZERO) && Le(ZERO, Hi(a, i)) {
        assert p[i] == ZERO && Le(Lo(a, i), p[i]) && Le(p[i], Hi(a, i));
      }
    }
  }

  /** A point of both, where they overlap: the higher of the two low ends in each
      dimension that both have. */
  function Shared(a: Cube, b: Cube): (p: seq<Coord>)
    requires a.dim >= b.dim
    ensures |p| == a.dim && forall i :: 0 <= i < a.dim ==> p[i] == if i < b.dim then MaxC(Lo(a, i), Lo(b, i)) else ZERO
  {
    seq(a.dim, i requires 0 <= i < a.dim => if i < b.dim then MaxC(Lo(a, i), Lo(b, i)) else ZERO)
  }

  // ------------------------------------------------------------- one dimension

  /** An interval [lo, hi] as a one-dimensional cube. */
  function Interval(lo: int, hi: int): Cube { Cube(1, false, [Num(lo as real), Num(hi as real)]) }

  ghost predicate Attribute(n: int) { INT32_MIN <= n <= INT32_MAX }

  lemma DecodedInterval(u: Int64, lo: int, hi: int)
    requires Attribute(lo) && Attribute(hi)
    ensures Decode(u, Interval(lo, hi)) == Box(lo, lo, lo, hi, 1, false, false, false)
  {
    RoundOfInt(lo);
    RoundOfInt(hi);
  }

  /** One-dimensional cubes lose their upper end as an end of time. The index
      still agrees with the overlap operator exactly when the two intervals start
      together or do not overlap at all. */
  lemma IntervalsAgreeIff(u: Int64, a: int, b: int, c: int, d: int)
    requires Attribute(a) && Attribute(b) && Attribute(c) && Attribute(d) && a <= b && c <= d
    ensures (Matches(Decode(u, Interval(a, b)), Decode(u, Interval(c, d)), Overlap) <==>
             CubeMatches(Interval(a, b), Interval(c, d), Overlap)) <==>
            a == c || b < c || d < a
  {
    DecodedInterval(u, a, b);
    DecodedInterval(u, c, d);
    var t, q := Interval(a, b), Interval(c, d);
    assert Lo(t, 0) == t.x[0] && Hi(t, 0) == t.x[1] && Lo(q, 0) == q.x[0] && Hi(q, 0) == q.x[1];
    assert CubeOverlaps(t, q) <==> a <= d && c <= b;
  }
}
