/** How an overfull page's tuples are dealt to two pages. */
module PickSplit {
  import opened Common
  import opened Boxes

  /** A floating-point penalty; every comparison with NaN is false. */
  datatype Penalty = NaN | Val(v: real)

  predicate Less(a: Penalty, b: Penalty) { a.Val? && b.Val? && a.v < b.v }

  /** Every index below `n` is on exactly one side, exactly once, and nothing
      else is. */
  ghost predicate Partition(left: seq<nat>, right: seq<nat>, n: nat)
  {
    Dealt(left, right, (k: nat) => k < n)
  }

  ghost predicate Dealt(left: seq<nat>, right: seq<nat>, taken: nat -> bool)
  {
    forall k: nat :: multiset(left)[k] + multiset(right)[k] == if taken(k) then 1 else 0
  }

  /** One more index dealt, to either side. */
  lemma DealOne(left: seq<nat>, right: seq<nat>, i: nat, taken: nat -> bool, taken': nat -> bool)
    requires Dealt(left, right, taken) && !taken(i)
    requires forall k: nat :: taken'(k) <==> taken(k) || k == i
    ensures Dealt(left + [i], right, taken') && Dealt(left, right + [i], taken')
  {
    assert multiset(left + [i]) == multiset(left) + multiset{i};
    assert multiset(right + [i]) == multiset(right) + multiset{i};
  }

  predicate CurrentOnly(items: seq<Box>)
  {
    forall i :: 0 <= i < |items| ==> items[i].upperInf
  }

  /** `classify_page_type`, reduced to the one outcome its caller tests. */
  method ClassifyCurrentOnly(items: seq<Box>) returns (currentOnly: bool)
    ensures currentOnly <==> CurrentOnly(items)
  {
    var current, history := 0, 0;
    for i := 0 to |items|
      invariant current + history == i && history >= 0
      invariant history == 0 <==> forall j :: 0 <= j < i ==> items[j].upperInf
    {
      if items[i].upperInf {
        current := current + 1;
      } else {
        history := history + 1;
      }
    }
    currentOnly := current == |items|;
  }

  /** Half of a number, rounded toward zero. */
  function Half(n: int): (h: int)
    ensures n >= 0 ==> 2 * h <= n < 2 * h + 2
    ensures n <= 0 ==> 2 * h - 2 < n <= 2 * h
  {
    if n < 0 then -(-n / 2) else n / 2
  }

  /** Midpoint of two times; the C sum may overflow, and is then arbitrary. */
  method Midpoint(a: int, b: int) returns (m: int)
    ensures INT64_MIN <= a + b <= INT64_MAX ==> m == Half(a + b)
  {
    if INT64_MIN <= a + b <= INT64_MAX {
      m := Half(a + b);
    } else {
      m := *;
    }
  }

  /** Distance between two 64- or 32-bit values; arbitrary where C overflows. */
  method Distance(hi: int, lo: int, max: int) returns (d: int)
    ensures -max - 1 <= hi - lo <= max ==> d == hi - lo
  {
    if -max - 1 <= hi - lo <= max {
      d := hi - lo;
    } else {
      d := *;
    }
  }

  method LowerRange(items: seq<Box>) returns (minLower: int, maxLower: int, minIdx: nat, ghost maxIdx: nat)
    requires items != []
    ensures minIdx < |items| && items[minIdx].lower == minLower
    ensures maxIdx < |items| && items[maxIdx].lower == maxLower
    ensures forall i :: 0 <= i < |items| ==> minLower <= items[i].lower <= maxLower
  {
    minLower, maxLower, minIdx, maxIdx := items[0].lower, items[0].lower, 0, 0;
    for i := 1 to |items|
      invariant minIdx < |items| && items[minIdx].lower == minLower
      invariant maxIdx < |items| && items[maxIdx].lower == maxLower
      invariant forall j :: 0 <= j < i ==> minLower <= items[j].lower <= maxLower
    {
      if items[i].lower < minLower {
        minLower, minIdx := items[i].lower, i;
      }
      if items[i].lower > maxLower {
        maxLower, maxIdx := items[i].lower, i;
      }
    }
  }

  /** Tuples on the left start no later than `time`, those on the right later. */
  ghost predicate CutAt(items: seq<Box>, left: seq<nat>, right: seq<nat>, time: int)
  {
    (forall i :: i in left ==> i < |items| && items[i].lower <= time) &&
    forall i :: i in right ==> i < |items| && items[i].lower > time
  }

  lemma NothingDealt()
    ensures Dealt([], [], (k: nat) => k < 0)
  {
  }

  lemma CutMore(items: seq<Box>, left: seq<nat>, right: seq<nat>, time: int)
    ensures CutAt(items, [], [], time)
    ensures CutAt(items, left, right, time) ==>
            forall i: nat :: i < |items| ==>
              if items[i].lower <= time then CutAt(items, left + [i], right, time)
              else CutAt(items, left, right + [i], time)
  {
  }

  method DealByMedian(items: seq<Box>, median: int) returns (left: seq<nat>, right: seq<nat>)
    ensures Partition(left, right, |items|) && |left| + |right| == |items| && CutAt(items, left, right, median)
    ensures right == [] ==> left == Indices(|items|)
  {
    NothingDealt();
    hide Dealt, CutAt;
    CutMore(items, [], [], median);
    left, right := [], [];
    for i := 0 to |items|
      invariant Dealt(left, right, (k: nat) => k < i)
      invariant right == [] ==> left == Indices(i)
      invariant |left| + |right| == i && CutAt(items, left, right, median)
    {
      DealOne(left, right, i, (k: nat) => k < i, (k: nat) => k < i + 1);
      CutMore(items, left, right, median);
      if items[i].lower <= median {
        left := left + [i];
      } else {
        right := right + [i];
      }
    }
  }

  method DealAllBut(n: nat, one: nat) returns (left: seq<nat>, right: seq<nat>)
    requires one < n && n >= 2
    ensures Partition(left, right, n) && left == [one] && right != []
  {
    left, right := [one], [];
    for i := 0 to n
      invariant Dealt(left, right, (k: nat) => k < i || k == one)
      invariant |right| == if one < i then i - 1 else i
    {
      if i != one {
        DealOne(left, right, i, (k: nat) => k < i || k == one, (k: nat) => k < i + 1 || k == one);
        right := right + [i];
      }
    }
  }

  lemma MoveLast(left: seq<nat>, right: seq<nat>, n: nat)
    requires Partition(left, right, n) && left != [] && right == []
    ensures Partition(left[..|left| - 1], [left[|left| - 1]], n)
  {
    assert left == left[..|left| - 1] + [left[|left| - 1]];
  }

  ghost predicate SumsFit(items: seq<Box>)
  {
    forall i, j :: 0 <= i < |items| && 0 <= j < |items| ==>
      INT64_MIN <= items[i].lower + items[j].lower <= INT64_MAX
  }

  /** Cut halfway between the earliest and the latest start, or, where that leaves
      nothing for the right, with only the last item there. */
  ghost predicate MedianCut(items: seq<Box>, left: seq<nat>, right: seq<nat>)
  {
    exists lo, hi :: 0 <= lo < |items| && 0 <= hi < |items| &&
      (forall i :: 0 <= i < |items| ==> items[lo].lower <= items[i].lower <= items[hi].lower) &&
      var time := Half(items[lo].lower + items[hi].lower);
      if time < items[hi].lower then CutAt(items, left, right, time)
      else left == Indices(|items| - 1) && right == [|items| - 1]
  }

  /** Start times whose sums fit 64 bits and that are not all next to each other. */
  ghost predicate Spread(items: seq<Box>)
  {
    SumsFit(items) && exists i, j :: 0 <= i < |items| && 0 <= j < |items| && items[i].lower + 2 <= items[j].lower
  }

  lemma Somewhere(items: seq<Box>, left: seq<nat>, right: seq<nat>, i: nat)
    requires Partition(left, right, |items|) && i < |items|
    ensures i in left || i in right
  {
    assert multiset(left)[i] + multiset(right)[i] == 1;
    assert i in multiset(left) || i in multiset(right);
  }

  /** `tr_split_current_only`: spread-out start times are cut in two by time. */
  method SplitCurrentOnly(items: seq<Box>) returns (left: seq<nat>, right: seq<nat>)
    requires |items| >= 2
    ensures Partition(left, right, |items|) && left != [] && right != []
    ensures Spread(items) ==> exists time :: CutAt(items, left, right, time)
    ensures SumsFit(items) ==> MedianCut(items, left, right)
  {
    hide Partition, CutAt;
    var minLower, maxLower, minIdx, maxIdx := LowerRange(items);
    var median := Midpoint(minLower, maxLower);
    left, right := DealByMedian(items, median);
    ghost var left0, right0 := left, right;
    if left == [] {
      left, right := DealAllBut(|items|, minIdx);
    } else if right == [] {
      MoveLast(left, right, |items|);
      left, right := left[..|left| - 1], [left[|left| - 1]];
    }
    if SumsFit(items) { CutFound(items, minIdx, maxIdx, median, left0, right0, left, right); }
  }

  /** Where the sums fit, the left side is never empty, and the right side exactly
      when the midpoint is the latest start. */
  lemma CutFound(items: seq<Box>, lo: nat, hi: nat, median: int, left0: seq<nat>, right0: seq<nat>,
                 left: seq<nat>, right: seq<nat>)
    requires SumsFit(items) && lo < |items| && hi < |items| && median == Half(items[lo].lower + items[hi].lower)
    requires forall i :: 0 <= i < |items| ==> items[lo].lower <= items[i].lower <= items[hi].lower
    requires Partition(left0, right0, |items|) && CutAt(items, left0, right0, median)
    requires right0 == [] ==> left0 == Indices(|items|)
    requires left0 != [] && right0 != [] ==> left == left0 && right == right0
    requires left0 != [] && right0 == [] ==>
             left == left0[..|left0| - 1] && right == [left0[|left0| - 1]]
    ensures MedianCut(items, left, right) && (Spread(items) ==> CutAt(items, left, right, median))
  {
    SidesAre(items, lo, hi, median, left0, right0);
    hide Partition, SumsFit, CutAt;
    if right0 == [] { assert Indices(|items|)[..|items| - 1] == Indices(|items| - 1); }
  }

  lemma SidesAre(items: seq<Box>, lo: nat, hi: nat, median: int, left: seq<nat>, right: seq<nat>)
    requires lo < |items| && hi < |items| && median == Half(items[lo].lower + items[hi].lower)
    requires forall i :: 0 <= i < |items| ==> items[lo].lower <= items[i].lower <= items[hi].lower
    requires Partition(left, right, |items|) && CutAt(items, left, right, median)
    ensures left != [] && (right == [] <==> median >= items[hi].lower)
    ensures items[lo].lower + 2 <= items[hi].lower ==> median < items[hi].lower
  {
    Somewhere(items, left, right, lo);
    Somewhere(items, left, right, hi);
    hide Partition;
    assert items[lo].lower <= median <= items[hi].lower;
    if right != [] { assert right[0] in right; }
  }

  // ------------------------------------------------------------------- seeds

  /** `k` is the first index below `n` with the least value. */
  ghost predicate FirstLeast(xs: seq<int>, n: nat, k: nat)
  {
    k < n <= |xs| && forall i :: 0 <= i < n ==> xs[k] <= xs[i] && (i < k ==> xs[k] < xs[i])
  }

  ghost predicate FirstMost(xs: seq<int>, n: nat, k: nat)
  {
    k < n <= |xs| && forall i :: 0 <= i < n ==> xs[i] <= xs[k] && (i < k ==> xs[i] < xs[k])
  }

  function Starts(items: seq<Box>): (xs: seq<int>)
    ensures |xs| == |items| && forall i :: 0 <= i < |items| ==> xs[i] == items[i].lower
  {
    seq(|items|, i requires 0 <= i < |items| => items[i].lower)
  }

  function AttrLows(items: seq<Box>): (xs: seq<int>)
    ensures |xs| == |items| && forall i :: 0 <= i < |items| ==> xs[i] == items[i].attrLo
  {
    seq(|items|, i requires 0 <= i < |items| => items[i].attrLo)
  }

  /** The search for the highest attribute end starts from item 0's low end. */
  function AttrHighs(items: seq<Box>): (xs: seq<int>)
    ensures |xs| == |items|
    ensures forall i :: 0 <= i < |items| ==> xs[i] == if i == 0 then items[0].attrLo else items[i].attrHi
  {
    seq(|items|, i requires 0 <= i < |items| => if i == 0 then items[0].attrLo else items[i].attrHi)
  }

  /** No distance the seed search computes overflows. */
  ghost predicate Measurable(items: seq<Box>)
  {
    (forall i, j :: 0 <= i < |items| && 0 <= j < |items| ==> Starts(items)[j] - Starts(items)[i] <= INT64_MAX) &&
    forall i, j :: 0 <= i < |items| && 0 <= j < |items| ==> AttrHighs(items)[j] - AttrLows(items)[i] <= INT32_MAX
  }

  /** A seed that came out twice gets its successor. */
  function Apart(seed1: nat, seed2: nat, n: nat): (p: (nat, nat))
    requires seed1 < n && seed2 < n && n >= 2
    ensures p.0 == seed1 && p.1 < n && p.0 != p.1 && (seed1 != seed2 ==> p.1 == seed2)
  {
    if seed1 == seed2 then (seed1, (seed1 + 1) % n) else (seed1, seed2)
  }

  /** The wider of the two ranges gives the seeds, the first two items where
      both are empty. */
  function Choice(items: seq<Box>, a: nat, b: nat, c: nat, d: nat): (nat, nat)
    requires |items| >= 2 && a < |items| && b < |items| && c < |items| && d < |items|
  {
    var n, time, attr := |items|, Starts(items)[b] - Starts(items)[a], AttrHighs(items)[d] - AttrLows(items)[c];
    if attr > Max(time, 0) then Apart(c, d, n) else if time > 0 then Apart(a, b, n) else (0, 1)
  }

  /** Where start times and attributes are lowest and highest. */
  ghost predicate Extremes(items: seq<Box>, a: nat, b: nat, c: nat, d: nat)
  {
    var n := |items|;
    FirstLeast(Starts(items), n, a) && FirstMost(Starts(items), n, b) &&
    FirstLeast(AttrLows(items), n, c) && FirstMost(AttrHighs(items), n, d)
  }

  ghost predicate SeedsOf(items: seq<Box>, seed1: nat, seed2: nat)
  {
    |items| >= 2 &&
    exists a: nat, b: nat, c: nat, d: nat ::
      Extremes(items, a, b, c, d) && (seed1, seed2) == Choice(items, a, b, c, d)
  }

  lemma Widest(lows: seq<int>, highs: seq<int>, a: nat, b: nat, i: nat, j: nat)
    requires |lows| == |highs| && i < |lows| && j < |lows|
    requires FirstLeast(lows, |lows|, a) && FirstMost(highs, |highs|, b)
    ensures highs[j] - lows[i] <= highs[b] - lows[a]
  {
  }

  /** Item 0's high attribute end is not above its low one, or not above all
      others: the search misses nothing by starting from the low end. */
  ghost predicate FirstSeen(items: seq<Box>)
    requires items != []
  {
    items[0].attrHi <= items[0].attrLo || exists k :: 0 < k < |items| && items[0].attrHi <= items[k].attrHi
  }

  /** The search finds the widest attribute range exactly when it does not miss
      item 0's high end. */
  lemma AttrSearchIsExactIff(items: seq<Box>, c: nat, d: nat)
    requires FirstLeast(AttrLows(items), |items|, c) && FirstMost(AttrHighs(items), |items|, d)
    ensures (forall i, j :: 0 <= i < |items| && 0 <= j < |items| ==>
               items[j].attrHi - items[i].attrLo <= AttrHighs(items)[d] - AttrLows(items)[c]) <==> FirstSeen(items)
  {
    var lows, highs := AttrLows(items), AttrHighs(items);
    if FirstSeen(items) {
      forall i, j | 0 <= i < |items| && 0 <= j < |items|
        ensures items[j].attrHi - items[i].attrLo <= highs[d] - lows[c]
      {
        SeenHigh(items, d, j);
        assert lows[c] <= lows[i];
      }
    } else {
      assert highs[d] < items[0].attrHi;
      assert items[0].attrHi - items[c].attrLo > highs[d] - lows[c];
    }
  }

  lemma SeenHigh(items: seq<Box>, d: nat, j: nat)
    requires j < |items| && FirstSeen(items) && FirstMost(AttrHighs(items), |items|, d)
    ensures items[j].attrHi <= AttrHighs(items)[d]
  {
    var highs := AttrHighs(items);
    assert highs[0] <= highs[d] && highs[j] <= highs[d];
    if j == 0 && items[0].attrHi > items[0].attrLo {
      var k :| 0 < k < |items| && items[0].attrHi <= items[k].attrHi;
      assert highs[k] <= highs[d];
    }
  }

  /** How far apart the seeds are, or how wide the first one is. */
  function SeedSpan(items: seq<Box>, seed1: nat, seed2: nat): int
    requires seed1 < |items| && seed2 < |items|
  {
    Max(items[seed2].lower - items[seed1].lower,
        Max(items[seed2].attrHi, items[seed1].attrHi) - items[seed1].attrLo)
  }

  /** No two items are farther apart than that, in start time or in attribute. */
  ghost predicate Farthest(items: seq<Box>, seed1: nat, seed2: nat)
    requires seed1 < |items| && seed2 < |items|
  {
    forall i, j :: 0 <= i < |items| && 0 <= j < |items| ==>
      items[j].lower - items[i].lower <= SeedSpan(items, seed1, seed2) &&
      items[j].attrHi - items[i].attrLo <= SeedSpan(items, seed1, seed2)
  }

  ghost predicate LeastAttr(items: seq<Box>, seed1: nat)
    requires seed1 < |items|
  {
    forall i :: 0 <= i < |items| ==> items[seed1].attrLo <= items[i].attrLo
  }

  /** Missing item 0's high end does no harm: it is a seed next to or at the
      lowest attribute, or the seeds' start times are farther apart still. */
  ghost predicate Harmless(items: seq<Box>, seed1: nat, seed2: nat)
    requires seed1 < |items| && seed2 < |items|
  {
    ((seed1 == 0 || seed2 == 0) && LeastAttr(items, seed1)) ||
    forall i :: 0 <= i < |items| ==> items[0].attrHi - items[i].attrLo <= items[seed2].lower - items[seed1].lower
  }

  lemma SeedBounds(items: seq<Box>, seed1: nat, seed2: nat)
    requires SeedsOf(items, seed1, seed2)
    ensures seed1 < |items| && seed2 < |items| && seed1 != seed2
  {
    var a: nat, b: nat, c: nat, d: nat :|
      Extremes(items, a, b, c, d) && (seed1, seed2) == Choice(items, a, b, c, d);
  }

  /** Which items become seeds: those of the time range unless the attribute range
      is wider still; the first two items when neither range has any width. */
  lemma SeedsByRange(items: seq<Box>, a: nat, b: nat, c: nat, d: nat, seed1: nat, seed2: nat)
    requires SeedsOf(items, seed1, seed2) && Extremes(items, a, b, c, d)
    ensures var time, attr := items[b].lower - items[a].lower, AttrHighs(items)[d] - items[c].attrLo;
            (time > 0 && time >= attr ==> seed1 == a && seed2 == b) &&
            (attr > 0 && attr > time ==> seed1 == c && seed2 == if c != d then d else (c + 1) % |items|) &&
            (time <= 0 && attr <= 0 ==> seed1 == 0 && seed2 == 1)
  {
    var a': nat, b': nat, c': nat, d': nat :|
      Extremes(items, a', b', c', d') && (seed1, seed2) == Choice(items, a', b', c', d');
    SameLeast(Starts(items), a, a');
    SameMost(Starts(items), b, b');
    SameLeast(AttrLows(items), c, c');
    SameMost(AttrHighs(items), d, d');
    Widest(Starts(items), Starts(items), a, b, a, a);
  }

  lemma SameLeast(xs: seq<int>, a: nat, a': nat)
    requires FirstLeast(xs, |xs|, a) && FirstLeast(xs, |xs|, a')
    ensures a == a'
  {
    assert xs[a] == xs[a'];
  }

  lemma SameMost(xs: seq<int>, a: nat, a': nat)
    requires FirstMost(xs, |xs|, a) && FirstMost(xs, |xs|, a')
    ensures a == a'
  {
    assert xs[a] == xs[a'];
  }

  /** The seeds are the farthest apart, for a first item in order, exactly when
      its high attribute end is not missed or missing it does no harm. */
  lemma SeedsAreFarthestIff(items: seq<Box>, seed1: nat, seed2: nat)
    requires SeedsOf(items, seed1, seed2) && items[0].attrLo <= items[0].attrHi
    ensures seed1 < |items| && seed2 < |items| && seed1 != seed2
    ensures Farthest(items, seed1, seed2) <==> FirstSeen(items) || Harmless(items, seed1, seed2)
  {
    SeedBounds(items, seed1, seed2);
    var a: nat, b: nat, c: nat, d: nat :|
      Extremes(items, a, b, c, d) && (seed1, seed2) == Choice(items, a, b, c, d);
    SpanCoversSearch(items, a, b, c, d);
    hide Choice, FirstSeen, Harmless, Farthest, SeedSpan;
    if FirstSeen(items) {
      SeenIsFarthest(items, a, b, c, d);
    } else if Harmless(items, seed1, seed2) {
      HarmlessIsFarthest(items, a, b, c, d);
    } else {
      MissedIsNotFarthest(items, a, b, c, d);
    }
  }

  /** The seeds span what the search found. */
  lemma SpanCoversSearch(items: seq<Box>, a: nat, b: nat, c: nat, d: nat)
    requires |items| >= 2 && Extremes(items, a, b, c, d) && items[0].attrLo <= items[0].attrHi
    ensures var s := Choice(items, a, b, c, d);
            s.0 < |items| && s.1 < |items| &&
            items[b].lower - items[a].lower <= SeedSpan(items, s.0, s.1) &&
            AttrHighs(items)[d] - AttrLows(items)[c] <= SeedSpan(items, s.0, s.1)
  {
    Widest(Starts(items), Starts(items), a, b, 0, 1);
    Widest(Starts(items), Starts(items), a, b, 1, 0);
    hide FirstLeast, FirstMost;
  }

  lemma SeenIsFarthest(items: seq<Box>, a: nat, b: nat, c: nat, d: nat)
    requires |items| >= 2 && Extremes(items, a, b, c, d) && items[0].attrLo <= items[0].attrHi && FirstSeen(items)
    ensures var s := Choice(items, a, b, c, d); s.0 < |items| && s.1 < |items| && Farthest(items, s.0, s.1)
  {
    SpanCoversSearch(items, a, b, c, d);
    AttrSearchIsExactIff(items, c, d);
    var s := Choice(items, a, b, c, d);
    hide Choice, SeedSpan, FirstSeen;
    forall i, j | 0 <= i < |items| && 0 <= j < |items|
      ensures items[j].lower - items[i].lower <= SeedSpan(items, s.0, s.1)
      ensures items[j].attrHi - items[i].attrLo <= SeedSpan(items, s.0, s.1)
    {
      Widest(Starts(items), Starts(items), a, b, i, j);
    }
  }

  lemma HarmlessIsFarthest(items: seq<Box>, a: nat, b: nat, c: nat, d: nat)
    requires |items| >= 2 && Extremes(items, a, b, c, d) && items[0].attrLo <= items[0].attrHi
    requires var s := Choice(items, a, b, c, d); s.0 < |items| && s.1 < |items| && Harmless(items, s.0, s.1)
    ensures var s := Choice(items, a, b, c, d); Farthest(items, s.0, s.1)
  {
    SpanCoversSearch(items, a, b, c, d);
    var s := Choice(items, a, b, c, d);
    hide Choice;
    forall i, j | 0 <= i < |items| && 0 <= j < |items|
      ensures items[j].lower - items[i].lower <= SeedSpan(items, s.0, s.1)
      ensures items[j].attrHi - items[i].attrLo <= SeedSpan(items, s.0, s.1)
    {
      Widest(Starts(items), Starts(items), a, b, i, j);
      if j > 0 { Widest(AttrLows(items), AttrHighs(items), c, d, i, j); }
    }
  }

  lemma MissedIsNotFarthest(items: seq<Box>, a: nat, b: nat, c: nat, d: nat)
    requires |items| >= 2 && Extremes(items, a, b, c, d) && items[0].attrLo <= items[0].attrHi && !FirstSeen(items)
    requires var s := Choice(items, a, b, c, d); s.0 < |items| && s.1 < |items| && !Harmless(items, s.0, s.1)
    ensures var s := Choice(items, a, b, c, d); !Farthest(items, s.0, s.1)
  {
    var s := Choice(items, a, b, c, d);
    hide Choice;
    var i :| 0 <= i < |items| && items[0].attrHi - items[i].attrLo > items[s.1].lower - items[s.0].lower;
    assert AttrLows(items)[c] <= AttrLows(items)[i];
    assert AttrLows(items)[c] <= AttrLows(items)[s.0];
    assert s.1 != 0 ==> items[s.1].attrHi < items[0].attrHi;
    assert s.0 != 0 ==> items[s.0].attrHi < items[0].attrHi;
    if LeastAttr(items, s.0) {
      assert items[0].attrHi - items[c].attrLo > SeedSpan(items, s.0, s.1);
    } else {
      var k :| 0 <= k < |items| && items[s.0].attrLo > items[k].attrLo;
      assert AttrLows(items)[c] <= AttrLows(items)[k];
      assert items[0].attrHi - items[c].attrLo > SeedSpan(items, s.0, s.1);
    }
  }

  /** Three rows of one start time whose first has the highest attribute: the
      seeds are the other two, 60 apart, where 100 was to be had. */
  lemma SeedsMissFirstItem(seed1: nat, seed2: nat)
    requires SeedsOf(MissedItems(), seed1, seed2)
    ensures Measurable(MissedItems()) && !CurrentOnly(MissedItems())
    ensures seed1 == 1 && seed2 == 2 && !Farthest(MissedItems(), 1, 2)
  {
    var items := MissedItems();
    var a: nat, b: nat, c: nat, d: nat :|
      Extremes(items, a, b, c, d) && (seed1, seed2) == Choice(items, a, b, c, d);
    assert AttrLows(items)[c] <= AttrLows(items)[1] && AttrHighs(items)[d] >= AttrHighs(items)[2];
    assert items[0].attrHi - items[1].attrLo > SeedSpan(items, 1, 2);
    assert !items[0].upperInf;
  }

  function MissedItems(): seq<Box>
  {
    [Box(0, 1, 50, 100, 2, false, false, false), Box(0, 1, 0, 10, 2, false, false, false),
     Box(0, 1, 5, 60, 2, false, false, false)]
  }

  /** Without a word about item 0: as the search measures, none are farther apart. */
  lemma SeedsAreFarthest(items: seq<Box>, seed1: nat, seed2: nat, i: nat, j: nat)
    requires SeedsOf(items, seed1, seed2) && i < |items| && j < |items|
    ensures seed1 < |items| && seed2 < |items| && seed1 != seed2
    ensures var starts, lows, highs := Starts(items), AttrLows(items), AttrHighs(items);
            var apart := Max(starts[seed2] - starts[seed1], highs[seed2] - lows[seed1]);
            var own := highs[seed1] - lows[seed1];
            starts[j] - starts[i] <= Max(apart, own) && highs[j] - lows[i] <= Max(apart, own)
  {
    var a: nat, b: nat, c: nat, d: nat :|
      Extremes(items, a, b, c, d) && (seed1, seed2) == Choice(items, a, b, c, d);
    var starts, lows, highs := Starts(items), AttrLows(items), AttrHighs(items);
    Widest(starts, starts, a, b, i, j);
    Widest(starts, starts, a, b, 0, 1);
    Widest(starts, starts, a, b, 1, 0);
    Widest(lows, highs, c, d, i, j);
    hide Starts, AttrLows, AttrHighs, FirstLeast, FirstMost, Apart;
  }

  lemma LateFirstSeeds(seed1: nat, seed2: nat)
    requires SeedsOf(LateFirst(), seed1, seed2)
    ensures seed1 == 1
  {
    var items := LateFirst();
    var a: nat, b: nat, c: nat, d: nat :|
      Extremes(items, a, b, c, d) && (seed1, seed2) == Choice(items, a, b, c, d);
    assert Starts(items)[a] <= Starts(items)[1] && Starts(items)[b] >= Starts(items)[2];
    assert AttrLows(items)[c] == 5 && AttrHighs(items)[d] == 5;
  }

  /** Three items, the second of which starts first: the greedy left page has it
      in first place, so dealing out a page changes the order of its tuples. */
  lemma SplitReorders(penalty: (Box, Box) -> Penalty, left: seq<nat>, right: seq<nat>)
    requires Divided(LateFirst(), penalty, left, right)
    ensures left != [] && left[0] == 1
  {
    assert Measurable(LateFirst());
    hide Greedy, Measurable, SeedsOf, LateFirst;
    var items := LateFirst();
    var seed1: nat, seed2: nat :| seed1 < |items| && seed2 < |items| && seed1 != seed2 &&
      SeedsOf(items, seed1, seed2) && Sides(left, right) == Greedy(items, penalty, seed1, seed2, |items|);
    LateFirstSeeds(seed1, seed2);
  }

  function LateFirst(): seq<Box>
  {
    [Box(10, 11, 5, 5, 2, false, false, false), Box(0, 1, 5, 5, 2, false, false, false),
     Box(20, 21, 5, 5, 2, false, false, false)]
  }

  /** The first loop of the seed search. */
  method TimeRange(items: seq<Box>) returns (lo: int, hi: int, loAt: nat, hiAt: nat)
    requires items != []
    ensures FirstLeast(Starts(items), |items|, loAt) && lo == items[loAt].lower
    ensures FirstMost(Starts(items), |items|, hiAt) && hi == items[hiAt].lower
  {
    lo, hi, loAt, hiAt := items[0].lower, items[0].lower, 0, 0;
    for i := 1 to |items|
      invariant FirstLeast(Starts(items), i, loAt) && lo == items[loAt].lower
      invariant FirstMost(Starts(items), i, hiAt) && hi == items[hiAt].lower
    {
      if items[i].lower < lo {
        lo, loAt := items[i].lower, i;
      }
      if items[i].lower > hi {
        hi, hiAt := items[i].lower, i;
      }
    }
  }

  /** The second loop of the seed search. */
  method AttrRange(items: seq<Box>) returns (lo: int, hi: int, loAt: nat, hiAt: nat)
    requires items != []
    ensures FirstLeast(AttrLows(items), |items|, loAt) && lo == AttrLows(items)[loAt]
    ensures FirstMost(AttrHighs(items), |items|, hiAt) && hi == AttrHighs(items)[hiAt]
  {
    lo, hi, loAt, hiAt := items[0].attrLo, items[0].attrLo, 0, 0;
    for i := 1 to |items|
      invariant FirstLeast(AttrLows(items), i, loAt) && lo == AttrLows(items)[loAt]
      invariant FirstMost(AttrHighs(items), i, hiAt) && hi == AttrHighs(items)[hiAt]
    {
      if items[i].attrLo < lo {
        lo, loAt := items[i].attrLo, i;
      }
      if items[i].attrHi > hi {
        hi, hiAt := items[i].attrHi, i;
      }
    }
  }

  /** Seeds of the linear split: two different indices. */
  method PickSeeds(items: seq<Box>) returns (seed1: nat, seed2: nat)
    requires |items| >= 2
    ensures seed1 < |items| && seed2 < |items| && seed1 != seed2
    ensures Measurable(items) ==> SeedsOf(items, seed1, seed2)
  {
    seed1, seed2 := 0, 1;
    var minTime, maxTime, a, b := TimeRange(items);
    var separation := 0;
    var time := Distance(maxTime, minTime, INT64_MAX);
    if time > separation {
      separation, seed1, seed2 := time, a, b;
    }
    var minAttr, maxAttr, c, d := AttrRange(items);
    var attr := Distance(maxAttr, minAttr, INT32_MAX);
    if attr > separation {
      separation, seed1, seed2 := attr, c, d;
    }
    if seed1 == seed2 {
      seed2 := (seed1 + 1) % |items|;
    }
    assert Extremes(items, a, b, c, d);
    assert minTime <= maxTime && minAttr <= items[0].attrLo <= maxAttr;
  }

  // ------------------------------------------------------------------ greedy

  predicate Below(idxs: seq<nat>, n: nat) { forall k :: 0 <= k < |idxs| ==> idxs[k] < n }

  function Gather<T>(xs: seq<T>, idxs: seq<nat>): (ys: seq<T>)
    requires Below(idxs, |xs|)
    ensures |ys| == |idxs|
    ensures forall k :: 0 <= k < |idxs| ==> ys[k] == xs[idxs[k]]
  {
    seq(|idxs|, k requires 0 <= k < |idxs| => xs[idxs[k]])
  }

  datatype Sides = Sides(left: seq<nat>, right: seq<nat>)

  /** The box of the items dealt to one side. */
  function SideBox(items: seq<Box>, idxs: seq<nat>): Box
    requires Below(idxs, |items|)
  {
    Mbr(Gather(items, idxs))
  }

  /** The first `k` items and the seeds dealt: each item to the side whose box
      it costs less to add to, to the right on a tie. */
  function Greedy(items: seq<Box>, penalty: (Box, Box) -> Penalty, seed1: nat, seed2: nat, k: nat): (s: Sides)
    requires seed1 < |items| && seed2 < |items| && k <= |items|
    ensures Below(s.left, |items|) && Below(s.right, |items|) && s.left != [] && s.right != []
    ensures s.left[0] == seed1 && s.right[0] == seed2
  {
    if k == 0 then Sides([seed1], [seed2])
    else
      var s, i := Greedy(items, penalty, seed1, seed2, k - 1), k - 1;
      if i == seed1 || i == seed2 then s
      else if Less(penalty(SideBox(items, s.left), items[i]), penalty(SideBox(items, s.right), items[i])) then
        Sides(s.left + [i], s.right)
      else Sides(s.left, s.right + [i])
  }

  ghost function Seen(seed1: nat, seed2: nat, k: nat): nat -> bool { (j: nat) => j < k || j == seed1 || j == seed2 }

  lemma SeedsDealt(seed1: nat, seed2: nat)
    requires seed1 != seed2
    ensures Dealt([seed1], [seed2], Seen(seed1, seed2, 0))
  {
  }

  lemma SeedSkipped(left: seq<nat>, right: seq<nat>, seed1: nat, seed2: nat, i: nat)
    requires Dealt(left, right, Seen(seed1, seed2, i)) && (i == seed1 || i == seed2)
    ensures Dealt(left, right, Seen(seed1, seed2, i + 1))
  {
  }

  lemma {:induction false} GreedyDeals(items: seq<Box>, penalty: (Box, Box) -> Penalty, seed1: nat, seed2: nat, k: nat)
    requires seed1 < |items| && seed2 < |items| && seed1 != seed2 && k <= |items|
    ensures var s := Greedy(items, penalty, seed1, seed2, k); Dealt(s.left, s.right, Seen(seed1, seed2, k))
  {
    hide Dealt, SideBox;
    if k == 0 {
      SeedsDealt(seed1, seed2);
    } else {
      var s, i := Greedy(items, penalty, seed1, seed2, k - 1), k - 1;
      GreedyDeals(items, penalty, seed1, seed2, i);
      if i == seed1 || i == seed2 {
        SeedSkipped(s.left, s.right, seed1, seed2, i);
      } else {
        DealOne(s.left, s.right, i, Seen(seed1, seed2, i), Seen(seed1, seed2, k));
      }
    }
  }

  lemma GreedyPartition(items: seq<Box>, penalty: (Box, Box) -> Penalty, seed1: nat, seed2: nat)
    requires seed1 < |items| && seed2 < |items| && seed1 != seed2
    ensures var s := Greedy(items, penalty, seed1, seed2, |items|); Partition(s.left, s.right, |items|)
  {
    GreedyDeals(items, penalty, seed1, seed2, |items|);
  }

  lemma SideBoxOne(items: seq<Box>, i: nat)
    requires i < |items|
    ensures SideBox(items, [i]) == items[i]
  {
  }

  lemma SideBoxSnoc(items: seq<Box>, idxs: seq<nat>, i: nat)
    requires idxs != [] && Below(idxs, |items|) && i < |items|
    ensures SideBox(items, idxs + [i]) == Union(SideBox(items, idxs), items[i])
  {
    assert Gather(items, idxs + [i]) == Gather(items, idxs) + [items[i]];
  }

  method SplitGreedy(items: seq<Box>, penalty: (Box, Box) -> Penalty)
    returns (left: seq<nat>, right: seq<nat>, ghost seed1: nat, ghost seed2: nat)
    requires |items| >= 2
    ensures Partition(left, right, |items|) && left != [] && right != []
    ensures seed1 < |items| && seed2 < |items| && seed1 != seed2 && (Measurable(items) ==> SeedsOf(items, seed1, seed2))
    ensures Sides(left, right) == Greedy(items, penalty, seed1, seed2, |items|)
  {
    hide SideBox, SeedsOf, Measurable;
    var s1, s2 := PickSeeds(items);
    seed1, seed2 := s1, s2;
    left, right := [s1], [s2];
    var leftUnion, rightUnion := items[s1], items[s2];
    SideBoxOne(items, s1);
    SideBoxOne(items, s2);
    for i := 0 to |items|
      invariant Sides(left, right) == Greedy(items, penalty, seed1, seed2, i)
      invariant leftUnion == SideBox(items, left) && rightUnion == SideBox(items, right)
    {
      if i != s1 && i != s2 {
        if Less(penalty(leftUnion, items[i]), penalty(rightUnion, items[i])) {
          SideBoxSnoc(items, left, i);
          left := left + [i];
          leftUnion := Union(leftUnion, items[i]);
        } else {
          SideBoxSnoc(items, right, i);
          right := right + [i];
          rightUnion := Union(rightUnion, items[i]);
        }
      }
    }
    GreedyPartition(items, penalty, seed1, seed2);
  }

  /** What a page with a closed box is divided into. */
  ghost predicate Divided(items: seq<Box>, penalty: (Box, Box) -> Penalty, left: seq<nat>, right: seq<nat>)
  {
    exists seed1: nat, seed2: nat :: seed1 < |items| && seed2 < |items| && seed1 != seed2 &&
      (Measurable(items) ==> SeedsOf(items, seed1, seed2)) &&
      Sides(left, right) == Greedy(items, penalty, seed1, seed2, |items|)
  }

  /** `tr_picksplit`, for any penalty values and any arithmetic overflow. */
  method Pick(items: seq<Box>, penalty: (Box, Box) -> Penalty) returns (left: seq<nat>, right: seq<nat>)
    ensures Partition(left, right, |items|)
    ensures |items| >= 2 ==> left != [] && right != []
    ensures |items| >= 2 && CurrentOnly(items) && Spread(items) ==> exists time :: CutAt(items, left, right, time)
    ensures |items| >= 2 && CurrentOnly(items) && SumsFit(items) ==> MedianCut(items, left, right)
    ensures |items| >= 2 && !CurrentOnly(items) ==> Divided(items, penalty, left, right)
  {
    if |items| == 0 {
      left, right := [], [];
    } else if |items| == 1 {
      left, right := [0], [];
    } else {
      var currentOnly := ClassifyCurrentOnly(items);
      if currentOnly {
        left, right := SplitCurrentOnly(items);
      } else {
        ghost var seed1, seed2;
        left, right, seed1, seed2 := SplitGreedy(items, penalty);
      }
    }
  }

  // ------------------------------------------------ dealing out the tuples

  lemma PartitionBounds(left: seq<nat>, right: seq<nat>, n: nat)
    requires Partition(left, right, n)
    ensures Below(left, n) && Below(right, n)
  {
    forall k | 0 <= k < |left| ensures left[k] < n { assert left[k] in multiset(left); }
    forall k | 0 <= k < |right| ensures right[k] < n { assert right[k] in multiset(right); }
  }

  function Remove<T>(s: seq<T>, j: nat): seq<T>
    requires j < |s|
  {
    s[..j] + s[j + 1..]
  }

  lemma RemoveMultiset<T>(s: seq<T>, j: nat)
    requires j < |s|
    ensures multiset(s) == multiset(Remove(s, j)) + multiset{s[j]}
  {
    assert s == s[..j] + [s[j]] + s[j + 1..];
  }

  /** The two sides together hold the dealt tuples, each exactly once. */
  lemma {:induction false} GatherPartition<T>(xs: seq<T>, left: seq<nat>, right: seq<nat>)
    requires Partition(left, right, |xs|)
    requires Below(left, |xs|) && Below(right, |xs|)
    ensures multiset(Gather(xs, left)) + multiset(Gather(xs, right)) == multiset(xs)
    ensures |left| + |right| == |xs|
  {
    if xs == [] {
      assert left == [] && right == [];
    } else {
      var n := |xs| - 1;
      assert multiset(left)[n] + multiset(right)[n] == 1;
      if n in left {
        var j :| 0 <= j < |left| && left[j] == n;
        GatherSmaller(xs, left, right, j);
        GatherPartition(xs[..n], Remove(left, j), right);
        GatherLess(xs, left, right, j);
      } else {
        assert n in multiset(right);
        var j :| 0 <= j < |right| && right[j] == n;
        GatherSmaller(xs, right, left, j);
        GatherPartition(xs[..n], left, Remove(right, j));
        GatherLess(xs, right, left, j);
      }
    }
  }

  lemma GatherLess<T>(xs: seq<T>, a: seq<nat>, b: seq<nat>, j: nat)
    requires xs != [] && j < |a| && a[j] == |xs| - 1
    requires Below(a, |xs|) && Below(Remove(a, j), |xs| - 1) && Below(b, |xs| - 1)
    requires multiset(Gather(xs[..|xs| - 1], Remove(a, j))) + multiset(Gather(xs[..|xs| - 1], b)) ==
             multiset(xs[..|xs| - 1])
    ensures multiset(Gather(xs, a)) + multiset(Gather(xs, b)) == multiset(xs)
  {
    GatherRemove(xs, a, j);
    RemoveMultiset(Gather(xs, a), j);
    assert Gather(xs, b) == Gather(xs[..|xs| - 1], b);
    assert xs == xs[..|xs| - 1] + [xs[|xs| - 1]];
  }

  lemma GatherSmaller<T>(xs: seq<T>, a: seq<nat>, b: seq<nat>, j: nat)
    requires xs != [] && Partition(a, b, |xs|) && j < |a| && a[j] == |xs| - 1
    ensures Partition(Remove(a, j), b, |xs| - 1) && Partition(b, Remove(a, j), |xs| - 1)
    ensures Below(Remove(a, j), |xs| - 1) && Below(b, |xs| - 1)
  {
    RemoveMultiset(a, j);
    PartitionBounds(Remove(a, j), b, |xs| - 1);
  }

  lemma GatherRemove<T>(xs: seq<T>, a: seq<nat>, j: nat)
    requires xs != [] && j < |a| && a[j] == |xs| - 1
    requires Below(a, |xs|) && Below(Remove(a, j), |xs| - 1)
    ensures Remove(Gather(xs, a), j) == Gather(xs[..|xs| - 1], Remove(a, j))
  {
  }
}
