/** When both halves of a split fit, with tuples of any size: a tuple that does
    not fit its page is dropped without a word. */
module SplitFit {
  import opened Common
  import opened Boxes
  import opened PickSplit

  function Total(sizes: seq<nat>): nat
  {
    if sizes == [] then 0 else sizes[0] + Total(sizes[1..])
  }

  /** The tuples that get onto an empty page with `room` bytes, by their sizes. */
  function Added(room: nat, sizes: seq<nat>): seq<nat>
  {
    if sizes == [] then []
    else if sizes[0] <= room then [sizes[0]] + Added(room - sizes[0], sizes[1..])
    else Added(room, sizes[1..])
  }

  lemma {:induction false} AddedAtMost(room: nat, sizes: seq<nat>)
    ensures |Added(room, sizes)| <= |sizes|
  {
    if sizes != [] {
      if sizes[0] <= room { AddedAtMost(room - sizes[0], sizes[1..]); } else { AddedAtMost(room, sizes[1..]); }
    }
  }

  /** No tuple is dropped exactly when all of them fit together. */
  lemma {:induction false} AddedAllIff(room: nat, sizes: seq<nat>)
    ensures |Added(room, sizes)| == |sizes| <==> Total(sizes) <= room
  {
    if sizes != [] {
      if sizes[0] <= room {
        AddedAllIff(room - sizes[0], sizes[1..]);
      } else {
        AddedAtMost(room, sizes[1..]);
      }
    }
  }

  lemma {:induction false} TotalConcat(a: seq<nat>, b: seq<nat>)
    ensures Total(a + b) == Total(a) + Total(b)
  {
    if a == [] {
      assert a + b == b;
    } else {
      assert (a + b)[1..] == a[1..] + b;
      TotalConcat(a[1..], b);
    }
  }

  lemma TotalRemove(a: seq<nat>, j: nat)
    requires j < |a|
    ensures Total(a) == Total(Remove(a, j)) + a[j]
  {
    assert a == a[..j] + a[j..] && a[j..][1..] == a[j + 1..];
    TotalConcat(a[..j], a[j..]);
    TotalConcat(a[..j], a[j + 1..]);
  }

  lemma {:induction false} TotalPerm(a: seq<nat>, b: seq<nat>)
    requires multiset(a) == multiset(b)
    ensures Total(a) == Total(b)
  {
    if a == [] {
      assert |multiset(b)| == 0;
    } else {
      assert a[0] in multiset(b);
      var j :| 0 <= j < |b| && b[j] == a[0];
      RemoveMultiset(b, j);
      RemoveMultiset(a, 0);
      assert Remove(a, 0) == a[1..];
      assert multiset(a[1..]) == multiset(a) - multiset{a[0]};
      assert multiset(Remove(b, j)) == multiset(b) - multiset{a[0]};
      TotalPerm(a[1..], Remove(b, j));
      TotalRemove(b, j);
    }
  }

  /** A page keeps every tuple dealt to it. */
  ghost predicate SideKept(room: nat, sizes: seq<nat>, idxs: seq<nat>)
    requires Below(idxs, |sizes|)
  {
    |Added(room, Gather(sizes, idxs))| == |idxs|
  }

  ghost predicate KeepsAll(room: nat, sizes: seq<nat>, left: seq<nat>, right: seq<nat>)
    requires Below(left, |sizes|) && Below(right, |sizes|)
  {
    SideKept(room, sizes, left) && SideKept(room, sizes, right)
  }

  ghost predicate Deals(left: seq<nat>, right: seq<nat>, n: nat)
  {
    Partition(left, right, n) && left != [] && right != [] && Below(left, n) && Below(right, n)
  }

  lemma HalvesTotal(sizes: seq<nat>, left: seq<nat>, right: seq<nat>)
    requires Deals(left, right, |sizes|)
    ensures Total(Gather(sizes, left)) + Total(Gather(sizes, right)) == Total(sizes)
  {
    GatherPartition(sizes, left, right);
    assert multiset(Gather(sizes, left) + Gather(sizes, right)) == multiset(sizes);
    TotalPerm(Gather(sizes, left) + Gather(sizes, right), sizes);
    TotalConcat(Gather(sizes, left), Gather(sizes, right));
  }

  /** A half is no larger than everything but one tuple of the other half. */
  lemma SideFits(room: nat, sizes: seq<nat>, left: seq<nat>, right: seq<nat>)
    requires Deals(left, right, |sizes|)
    ensures Total(sizes) - sizes[left[0]] <= room ==> SideKept(room, sizes, right)
    ensures Total(sizes) - sizes[right[0]] <= room ==> SideKept(room, sizes, left)
  {
    HalvesTotal(sizes, left, right);
    TotalRemove(Gather(sizes, left), 0);
    TotalRemove(Gather(sizes, right), 0);
    AddedAllIff(room, Gather(sizes, left));
    AddedAllIff(room, Gather(sizes, right));
  }

  /** Setting one tuple apart keeps the others exactly when they fit together. */
  lemma RestKeptIff(room: nat, sizes: seq<nat>, one: seq<nat>, rest: seq<nat>)
    requires Deals(one, rest, |sizes|) && |one| == 1
    ensures SideKept(room, sizes, rest) <==> Total(sizes) - sizes[one[0]] <= room
    ensures SideKept(room, sizes, one) <==> sizes[one[0]] <= room
  {
    HalvesTotal(sizes, one, rest);
    assert Gather(sizes, one) == [sizes[one[0]]];
    assert Total([sizes[one[0]]]) == sizes[one[0]];
    AddedAllIff(room, Gather(sizes, one));
    AddedAllIff(room, Gather(sizes, rest));
  }

  lemma {:induction false} UpTo(n: nat) returns (s: seq<nat>)
    ensures Partition(s, [], n) && |s| == n
  {
    if n == 0 {
      s := [];
    } else {
      var t := UpTo(n - 1);
      s := t + [n - 1];
      DealOne(t, [], n - 1, (k: nat) => k < n - 1, (k: nat) => k < n);
    }
  }

  /** The split that sets one tuple apart. */
  lemma OneApart(n: nat, i: nat) returns (left: seq<nat>, right: seq<nat>)
    requires i < n && n >= 2
    ensures Deals(left, right, n) && left == [i]
  {
    var all := UpTo(n);
    var none: seq<nat> := [];
    assert multiset(all)[i] + multiset(none)[i] == 1;
    assert i in multiset(all);
    var j :| 0 <= j < n && all[j] == i;
    left, right := [i], Remove(all, j);
    RemoveMultiset(all, j);
    assert Partition(left, right, n);
    PartitionBounds(left, right, n);
  }

  /** Every way to deal the tuples keeps them all, exactly when all but any one
      of them fit on a page. */
  lemma KeepsAllIff(room: nat, sizes: seq<nat>)
    requires |sizes| >= 2
    ensures (forall left, right :: Deals(left, right, |sizes|) ==> KeepsAll(room, sizes, left, right)) <==>
            (forall i :: 0 <= i < |sizes| ==> Total(sizes) - sizes[i] <= room)
  {
    if forall i :: 0 <= i < |sizes| ==> Total(sizes) - sizes[i] <= room {
      forall left, right | Deals(left, right, |sizes|) ensures KeepsAll(room, sizes, left, right) {
        SideFits(room, sizes, left, right);
      }
    } else {
      var i :| 0 <= i < |sizes| && Total(sizes) - sizes[i] > room;
      var left, right := OneApart(|sizes|, i);
      RestKeptIff(room, sizes, left, right);
      assert !KeepsAll(room, sizes, left, right);
    }
  }

  function Repeat(x: nat, n: nat): seq<nat> { seq(n, i => x) }

  lemma {:induction false} TotalRepeat(x: nat, n: nat)
    ensures Total(Repeat(x, n)) == x * n
  {
    if n > 0 {
      assert Repeat(x, n)[1..] == Repeat(x, n - 1);
      TotalRepeat(x, n - 1);
    }
  }

  /** Tuples of one size: a page that was full keeps all of them when split. */
  lemma EqualSizesKeepAll(room: nat, size: nat, n: nat)
    requires n >= 2 && size * (n - 1) <= room
    ensures forall left, right :: Deals(left, right, n) ==> KeepsAll(room, Repeat(size, n), left, right)
  {
    TotalRepeat(size, n);
    assert size * n == size * (n - 1) + size;
    KeepsAllIff(room, Repeat(size, n));
  }

  // ------------------------------------------------------ the greedy division

  lemma GreedyIsDeal(items: seq<Box>, penalty: (Box, Box) -> Penalty, seed1: nat, seed2: nat)
    requires seed1 < |items| && seed2 < |items| && seed1 != seed2
    ensures var s := Greedy(items, penalty, seed1, seed2, |items|);
            Deals(s.left, s.right, |items|) && Deals(s.right, s.left, |items|)
  {
    GreedyPartition(items, penalty, seed1, seed2);
  }

  predicate SomeOf(items: seq<Box>, idxs: seq<nat>) { idxs != [] && Below(idxs, |items|) }

  /** No item is ever cheaper on the left. */
  ghost predicate Tied(items: seq<Box>, penalty: (Box, Box) -> Penalty)
  {
    forall a: seq<nat>, b: seq<nat>, i: nat :: SomeOf(items, a) && SomeOf(items, b) && i < |items| ==>
      !Less(penalty(SideBox(items, a), items[i]), penalty(SideBox(items, b), items[i]))
  }

  lemma TiedAt(items: seq<Box>, penalty: (Box, Box) -> Penalty, a: seq<nat>, b: seq<nat>, i: nat)
    requires Tied(items, penalty) && SomeOf(items, a) && SomeOf(items, b) && i < |items|
    ensures !Less(penalty(SideBox(items, a), items[i]), penalty(SideBox(items, b), items[i]))
  {
  }

  lemma {:induction false} TiesGoRight(items: seq<Box>, penalty: (Box, Box) -> Penalty, seed1: nat, seed2: nat, k: nat)
    requires seed1 < |items| && seed2 < |items| && k <= |items| && Tied(items, penalty)
    ensures Greedy(items, penalty, seed1, seed2, k).left == [seed1]
  {
    hide Tied, SideBox;
    if k > 0 {
      TiesGoRight(items, penalty, seed1, seed2, k - 1);
      var s := Greedy(items, penalty, seed1, seed2, k - 1);
      TiedAt(items, penalty, s.left, s.right, k - 1);
    }
  }

  /** Whatever the penalties, the right page keeps all that is dealt to it,
      exactly when everything but the first seed fits. */
  lemma RightKeptIff(room: nat, sizes: seq<nat>, items: seq<Box>, seed1: nat, seed2: nat)
    requires |sizes| == |items| && seed1 < |items| && seed2 < |items| && seed1 != seed2
    ensures (forall penalty: (Box, Box) -> Penalty ::
               SideKept(room, sizes, Greedy(items, penalty, seed1, seed2, |items|).right)) <==>
            Total(sizes) - sizes[seed1] <= room
  {
    if Total(sizes) - sizes[seed1] <= room {
      forall penalty: (Box, Box) -> Penalty
        ensures SideKept(room, sizes, Greedy(items, penalty, seed1, seed2, |items|).right)
      {
        GreedyIsDeal(items, penalty, seed1, seed2);
        var s := Greedy(items, penalty, seed1, seed2, |items|);
        SideFits(room, sizes, s.left, s.right);
      }
    } else {
      var penalty := (a: Box, b: Box) => NaN;
      TiesGoRight(items, penalty, seed1, seed2, |items|);
      GreedyIsDeal(items, penalty, seed1, seed2);
      var s := Greedy(items, penalty, seed1, seed2, |items|);
      RestKeptIff(room, sizes, s.left, s.right);
      assert !SideKept(room, sizes, Greedy(items, penalty, seed1, seed2, |items|).right);
    }
  }

  /** Costs that draw everything to the left as long as the right box is the
      second seed's. */
  function Leftward(items: seq<Box>, seed2: nat): (Box, Box) -> Penalty
    requires seed2 < |items|
  {
    (a: Box, b: Box) => if a == items[seed2] then Val(1.0) else Val(0.0)
  }

  /** The first seed reaches out of the second one's box. */
  ghost predicate Separate(items: seq<Box>, seed1: nat, seed2: nat)
    requires seed1 < |items| && seed2 < |items|
  {
    (forall i :: 0 <= i < |items| ==> !items[i].empty) && !BoxContains(items[seed2], items[seed1])
  }

  lemma SideBoxKeeps(items: seq<Box>, idxs: seq<nat>)
    requires idxs != [] && Below(idxs, |items|) && forall i :: 0 <= i < |items| ==> !items[i].empty
    ensures BoxContains(SideBox(items, idxs), items[idxs[0]])
  {
    MbrIsLeast(Gather(items, idxs));
    assert Gather(items, idxs)[0] in Gather(items, idxs);
  }

  lemma {:induction false} AllGoLeft(items: seq<Box>, seed1: nat, seed2: nat, k: nat)
    requires seed1 < |items| && seed2 < |items| && k <= |items|
    requires Separate(items, seed1, seed2)
    ensures Greedy(items, Leftward(items, seed2), seed1, seed2, k).right == [seed2]
  {
    if k > 0 {
      AllGoLeft(items, seed1, seed2, k - 1);
      var s := Greedy(items, Leftward(items, seed2), seed1, seed2, k - 1);
      SideBoxKeeps(items, s.left);
      SideBoxOne(items, seed2);
    }
  }

  /** Both pages keep everything, whatever the penalties. */
  ghost predicate GreedyKeepsAll(room: nat, sizes: seq<nat>, items: seq<Box>, seed1: nat, seed2: nat)
    requires |sizes| == |items| && seed1 < |items| && seed2 < |items|
  {
    forall penalty: (Box, Box) -> Penalty ::
      var s := Greedy(items, penalty, seed1, seed2, |items|); KeepsAll(room, sizes, s.left, s.right)
  }

  /** Enough is that everything but either seed fits; the first of the two is
      needed, and the second where its box does not contain the first's. */
  lemma GreedyKeepsAllIff(room: nat, sizes: seq<nat>, items: seq<Box>, seed1: nat, seed2: nat)
    requires |sizes| == |items| && seed1 < |items| && seed2 < |items| && seed1 != seed2
    ensures Total(sizes) - sizes[seed1] <= room && Total(sizes) - sizes[seed2] <= room ==>
            GreedyKeepsAll(room, sizes, items, seed1, seed2)
    ensures GreedyKeepsAll(room, sizes, items, seed1, seed2) ==> Total(sizes) - sizes[seed1] <= room
    ensures Separate(items, seed1, seed2) && GreedyKeepsAll(room, sizes, items, seed1, seed2) ==>
            Total(sizes) - sizes[seed2] <= room
  {
    RightKeptIff(room, sizes, items, seed1, seed2);
    if Total(sizes) - sizes[seed1] > room {
      var penalty: (Box, Box) -> Penalty :|
        !SideKept(room, sizes, Greedy(items, penalty, seed1, seed2, |items|).right);
      var s := Greedy(items, penalty, seed1, seed2, |items|);
      assert !KeepsAll(room, sizes, s.left, s.right);
    } else if Total(sizes) - sizes[seed2] <= room {
      forall penalty: (Box, Box) -> Penalty
        ensures var s := Greedy(items, penalty, seed1, seed2, |items|); KeepsAll(room, sizes, s.left, s.right)
      {
        LeftKept(room, sizes, items, penalty, seed1, seed2);
      }
    }
    if Separate(items, seed1, seed2) {
      LeftNeedsRoom(room, sizes, items, seed1, seed2);
    }
  }

  lemma LeftNeedsRoom(room: nat, sizes: seq<nat>, items: seq<Box>, seed1: nat, seed2: nat)
    requires |sizes| == |items| && seed1 < |items| && seed2 < |items| && seed1 != seed2
    requires Separate(items, seed1, seed2)
    ensures GreedyKeepsAll(room, sizes, items, seed1, seed2) ==> Total(sizes) - sizes[seed2] <= room
  {
    var penalty := Leftward(items, seed2);
    AllGoLeft(items, seed1, seed2, |items|);
    GreedyIsDeal(items, penalty, seed1, seed2);
    var s := Greedy(items, penalty, seed1, seed2, |items|);
    RestKeptIff(room, sizes, s.right, s.left);
    assert GreedyKeepsAll(room, sizes, items, seed1, seed2) ==> KeepsAll(room, sizes, s.left, s.right);
  }

  /** Where all boxes are the same, so each contains the other, everything but the
      first seed goes right, and the second seed's size does not matter. */
  lemma EqualBoxesKeepAllIff(room: nat, sizes: seq<nat>, items: seq<Box>, seed1: nat, seed2: nat)
    requires |sizes| == |items| && seed1 < |items| && seed2 < |items| && seed1 != seed2
    requires forall i :: 0 <= i < |items| ==> items[i] == items[0]
    ensures GreedyKeepsAll(room, sizes, items, seed1, seed2) <==>
            sizes[seed1] <= room && Total(sizes) - sizes[seed1] <= room
  {
    forall penalty: (Box, Box) -> Penalty
      ensures var s := Greedy(items, penalty, seed1, seed2, |items|);
              KeepsAll(room, sizes, s.left, s.right) <==> sizes[seed1] <= room && Total(sizes) - sizes[seed1] <= room
    {
      EqualIsTied(items, penalty);
      TiesGoRight(items, penalty, seed1, seed2, |items|);
      GreedyIsDeal(items, penalty, seed1, seed2);
      var s := Greedy(items, penalty, seed1, seed2, |items|);
      RestKeptIff(room, sizes, s.left, s.right);
    }
    var penalty := (a: Box, b: Box) => NaN;
    var s := Greedy(items, penalty, seed1, seed2, |items|);
    assert GreedyKeepsAll(room, sizes, items, seed1, seed2) ==> KeepsAll(room, sizes, s.left, s.right);
  }

  lemma {:induction false} EqualMbr(bs: seq<Box>, b: Box)
    requires bs != [] && forall i :: 0 <= i < |bs| ==> bs[i] == b
    ensures Mbr(bs) == b
  {
    if |bs| > 1 { EqualMbr(bs[..|bs| - 1], b); }
  }

  lemma EqualIsTied(items: seq<Box>, penalty: (Box, Box) -> Penalty)
    requires forall i :: 0 <= i < |items| ==> items[i] == items[0]
    ensures Tied(items, penalty)
  {
    forall a: seq<nat>, b: seq<nat>, i: nat | SomeOf(items, a) && SomeOf(items, b) && i < |items|
      ensures !Less(penalty(SideBox(items, a), items[i]), penalty(SideBox(items, b), items[i]))
    {
      EqualMbr(Gather(items, a), items[0]);
      EqualMbr(Gather(items, b), items[0]);
    }
  }

  lemma LeftKept(room: nat, sizes: seq<nat>, items: seq<Box>, penalty: (Box, Box) -> Penalty, seed1: nat, seed2: nat)
    requires |sizes| == |items| && seed1 < |items| && seed2 < |items| && seed1 != seed2
    ensures Total(sizes) - sizes[seed2] <= room ==>
            SideKept(room, sizes, Greedy(items, penalty, seed1, seed2, |items|).left)
  {
    GreedyIsDeal(items, penalty, seed1, seed2);
    var s := Greedy(items, penalty, seed1, seed2, |items|);
    SideFits(room, sizes, s.left, s.right);
  }

  // ------------------------------------------------- with the code's penalties

  function NormalizeAttr(a: int): real
  {
    if a <= 1 then 0.0 else if a >= 100 then 1.0 else (a as real - 1.0) / 99.0
  }

  /** Normalised area, whatever the normalised time width comes out as. */
  function Area(timeWidth: Box -> real, b: Box): real
  {
    timeWidth(b) * (if b.dims < 2 then 0.0 else NormalizeAttr(b.attrHi - b.attrLo))
  }

  /** `tr_penalty_normalized`, on real numbers. */
  function AreaPenalty(timeWidth: Box -> real): (Box, Box) -> Penalty
  {
    (child: Box, more: Box) =>
      var increase := Area(timeWidth, Union(child, more)) - Area(timeWidth, child);
      Val(if child.upperInf && more.upperInf then increase * 0.5
          else if child.upperInf != more.upperInf then increase * 2.0
          else increase)
  }

  /** A time width that is never negative and grows with the box. */
  ghost predicate Grows(timeWidth: Box -> real)
  {
    forall a: Box, b: Box :: BoxContains(a, b) ==> 0.0 <= timeWidth(b) <= timeWidth(a)
  }

  lemma NormalizeIs(a: int, b: int)
    requires a <= b
    ensures 0.0 <= NormalizeAttr(a) <= NormalizeAttr(b) <= 1.0
    ensures a < b && 1 < b && a < 100 ==> NormalizeAttr(a) < NormalizeAttr(b)
    ensures NormalizeAttr(1) == 0.0 && NormalizeAttr(100) == 1.0
  {
  }

  /** A box as decoding gives it: two-dimensional, in order, flags by its ends. */
  ghost predicate Proper(b: Box)
  {
    !b.empty && Ordered(b) && b.dims == 2 && INT64_MIN <= b.lower && b.upper <= INT64_MAX &&
    (b.upperInf <==> b.upper == INT64_MAX) && (b.lowerInf <==> b.lower == INT64_MIN)
  }

  function Width(b: Box): int { b.attrHi - b.attrLo }

  lemma AreaGrows(timeWidth: Box -> real, child: Box, u: Box)
    requires Grows(timeWidth) && Proper(child) && Proper(u) && BoxContains(u, child)
    ensures Area(timeWidth, child) <= Area(timeWidth, u)
    ensures Width(child) < Width(u) && 1 < Width(u) && Width(child) < 100 && timeWidth(u) > 0.0 ==>
            Area(timeWidth, child) < Area(timeWidth, u)
  {
    NormalizeIs(Width(child), Width(u));
    var t, t', x, x' := timeWidth(child), timeWidth(u), NormalizeAttr(Width(child)), NormalizeAttr(Width(u));
    assert Area(timeWidth, child) == t * x && Area(timeWidth, u) == t' * x';
    hide NormalizeAttr, Area;
    ProductGrows(t, t', x, x');
  }

  lemma ProductGrows(t: real, t': real, x: real, x': real)
    requires 0.0 <= t <= t' && 0.0 <= x <= x'
    ensures t * x <= t' * x' && (x < x' && t' > 0.0 ==> t * x < t' * x')
  {
    MulMono(t, t', x);
    MulMono(x, x', t');
    Commute(x, t');
    Commute(x', t');
    if x < x' && t' > 0.0 { MulStrict(x, x', t'); }
  }

  lemma Commute(x: real, y: real)
    ensures x * y == y * x
  {
  }

  lemma UnionProper(a: Box, b: Box)
    requires Proper(a) && Proper(b)
    ensures Proper(Union(a, b)) && BoxContains(Union(a, b), a) && (BoxContains(a, b) ==> Union(a, b) == a)
  {
  }

  /** Adding a box to one that contains it costs nothing, adding any box costs
      nothing less, and widening the attribute range within the scale costs
      something wherever the result has a time width. */
  lemma PenaltyIs(timeWidth: Box -> real, child: Box, more: Box)
    requires Grows(timeWidth) && Proper(child) && Proper(more)
    ensures AreaPenalty(timeWidth)(child, more).Val? && AreaPenalty(timeWidth)(child, more).v >= 0.0
    ensures BoxContains(child, more) ==> AreaPenalty(timeWidth)(child, more).v == 0.0
    ensures var u := Union(child, more);
            Width(child) < Width(u) && 1 < Width(u) && Width(child) < 100 && timeWidth(u) > 0.0 ==>
            AreaPenalty(timeWidth)(child, more).v > 0.0
  {
    UnionProper(child, more);
    AreaGrows(timeWidth, child, Union(child, more));
    hide Area, Union, Grows, Proper;
  }

  lemma MulStrict(x: real, y: real, p: real)
    requires x < y && p > 0.0
    ensures x * p < y * p
  {
  }

  /** Of two children that would grow by the same area, a current row costs less
      with the current one, a closed row with the closed one. */
  lemma PenaltyPrefersOwnKind(timeWidth: Box -> real, current: Box, closed: Box, more: Box)
    requires current.upperInf && !closed.upperInf
    requires Area(timeWidth, Union(current, more)) - Area(timeWidth, current) ==
             Area(timeWidth, Union(closed, more)) - Area(timeWidth, closed) > 0.0
    ensures if more.upperInf then Less(AreaPenalty(timeWidth)(current, more), AreaPenalty(timeWidth)(closed, more))
            else Less(AreaPenalty(timeWidth)(closed, more), AreaPenalty(timeWidth)(current, more))
  {
  }

  /** All attribute values lie at `lo` or right next to it. */
  ghost predicate Narrow(b: Box, lo: int) { lo <= b.attrLo <= b.attrHi <= lo + 1 }

  ghost predicate AllNarrow(items: seq<Box>, lo: int) { forall i :: 0 <= i < |items| ==> Narrow(items[i], lo) }

  lemma {:induction false} NarrowMbr(bs: seq<Box>, lo: int)
    requires bs != [] && forall i :: 0 <= i < |bs| ==> Narrow(bs[i], lo)
    ensures Narrow(Mbr(bs), lo)
  {
    if |bs| > 1 { NarrowMbr(bs[..|bs| - 1], lo); }
  }

  lemma NarrowCostsNothing(timeWidth: Box -> real, a: Box, b: Box, lo: int)
    requires Narrow(a, lo) && Narrow(b, lo)
    ensures AreaPenalty(timeWidth)(a, b) == Val(0.0)
  {
    assert Narrow(Union(a, b), lo);
  }

  lemma NarrowIsTied(timeWidth: Box -> real, items: seq<Box>, lo: int)
    requires AllNarrow(items, lo)
    ensures Tied(items, AreaPenalty(timeWidth))
  {
    forall a: seq<nat>, b: seq<nat>, i: nat | SomeOf(items, a) && SomeOf(items, b) && i < |items|
      ensures !Less(AreaPenalty(timeWidth)(SideBox(items, a), items[i]),
                    AreaPenalty(timeWidth)(SideBox(items, b), items[i]))
    {
      NarrowMbr(Gather(items, a), lo);
      NarrowMbr(Gather(items, b), lo);
      NarrowCostsNothing(timeWidth, SideBox(items, a), items[i], lo);
      NarrowCostsNothing(timeWidth, SideBox(items, b), items[i], lo);
    }
  }

  /** A page whose attributes hardly differ: the code sets the first seed apart,
      and loses a tuple unless all the others fit on one page. */
  lemma NarrowKeepsAllIff(timeWidth: Box -> real, room: nat, sizes: seq<nat>, items: seq<Box>, lo: int,
                          seed1: nat, seed2: nat, left: seq<nat>, right: seq<nat>)
    requires |sizes| == |items| && AllNarrow(items, lo) && seed1 < |items| && seed2 < |items| && seed1 != seed2
    requires Sides(left, right) == Greedy(items, AreaPenalty(timeWidth), seed1, seed2, |items|)
    ensures left == [seed1]
    ensures KeepsAll(room, sizes, left, right) <==> sizes[seed1] <= room && Total(sizes) - sizes[seed1] <= room
  {
    NarrowIsTied(timeWidth, items, lo);
    TiesGoRight(items, AreaPenalty(timeWidth), seed1, seed2, |items|);
    GreedyIsDeal(items, AreaPenalty(timeWidth), seed1, seed2);
    RestKeptIff(room, sizes, left, right);
  }

  // -------------------------------------------------------------- tuple sizes

  /** Bytes of a page for tuples and their line pointers. */
  const ROOM := 8152

  /** A tuple on a page: line pointer, tuple header, cube header, coordinates. */
  function Bytes(c: Cube): nat { 4 + 8 + 8 + 8 * |c.x| }

  function AllBytes(cubes: seq<Cube>): (sizes: seq<nat>)
    ensures |sizes| == |cubes| && forall i :: 0 <= i < |cubes| ==> sizes[i] == Bytes(cubes[i])
  {
    seq(|cubes|, i requires 0 <= i < |cubes| => Bytes(cubes[i]))
  }

  lemma SameSizesKeepAll(cubes: seq<Cube>, size: nat, left: seq<nat>, right: seq<nat>)
    requires Deals(left, right, |cubes|) && forall i :: 0 <= i < |cubes| ==> Bytes(cubes[i]) == size
    requires size * (|cubes| - 1) <= ROOM
    ensures KeepsAll(ROOM, AllBytes(cubes), left, right)
  {
    assert AllBytes(cubes) == Repeat(size, |cubes|);
    assert |cubes| >= 2 by { GatherPartition(AllBytes(cubes), left, right); }
    EqualSizesKeepAll(ROOM, size, |cubes|);
  }

  /** A page of current rows, all of one size, loses nothing however it is cut. */
  lemma CurrentPagesKeepAll(u: Int64, cubes: seq<Cube>, left: seq<nat>, right: seq<nat>)
    requires Deals(left, right, |cubes|) && 52 * (|cubes| - 1) <= ROOM
    requires forall i :: 0 <= i < |cubes| ==> InRange(cubes[i]) && Decode(u, cubes[i]).upperInf
    ensures KeepsAll(ROOM, AllBytes(cubes), left, right)
  {
    forall i | 0 <= i < |cubes| ensures Bytes(cubes[i]) == 52 {
      assert InRange(cubes[i]) && Decode(u, cubes[i]).upperInf;
    }
    SameSizesKeepAll(cubes, 52, left, right);
  }

  /** A box in order that is not a point: it is stored with all four ends. */
  predicate Extended(b: Box) { !b.empty && Ordered(b) && !Encode(b).point }

  /** The union of boxes that are not points is not one. */
  lemma {:induction false} BoxesStayBoxes(bs: seq<Box>)
    requires bs != [] && forall i :: 0 <= i < |bs| ==> Extended(bs[i])
    ensures Extended(Mbr(bs)) && Bytes(Encode(Mbr(bs))) == 52
  {
    if |bs| > 1 { BoxesStayBoxes(bs[..|bs| - 1]); }
  }

  /** Leaves of points do not have downlinks of one size: equal points give a
      point, different ones a box. */
  lemma PointLeavesMixSizes()
    ensures Bytes(Encode(Instant(0))) == 36 && Bytes(Encode(Instant(1))) == 36
    ensures Bytes(Encode(Mbr([Instant(0), Instant(0)]))) == 36
    ensures Bytes(Encode(Mbr([Instant(0), Instant(1)]))) == 52
  {
  }

  /** A cube with four coordinates can decode to a point, and gets a smaller
      downlink than its own tuple. */
  lemma RoundedBoxShrinks(u: Int64)
    ensures var c := Cube(2, false, [Num(5.0), Num(0.0), Num(5.0), Num(0.25)]);
            InRange(c) && Bytes(c) == 52 && Bytes(Encode(Decode(u, c))) == 36
  {
    assert Round(0.25) == 0 && Round(0.0) == 0 && Round(5.0) == 5;
  }

  // ----------------------------------------------------------- filling in bytes

  /** The tuples that get onto an empty page with `room` bytes. */
  function Fitting(room: nat, cubes: seq<Cube>): seq<Cube>
  {
    if cubes == [] then []
    else if Bytes(cubes[0]) <= room then [cubes[0]] + Fitting(room - Bytes(cubes[0]), cubes[1..])
    else Fitting(room, cubes[1..])
  }

  lemma {:induction false} FittingBytes(room: nat, cubes: seq<Cube>)
    ensures AllBytes(Fitting(room, cubes)) == Added(room, AllBytes(cubes)) && |Fitting(room, cubes)| <= |cubes|
    ensures |Fitting(room, cubes)| == |cubes| ==> Fitting(room, cubes) == cubes
  {
    if cubes != [] {
      var left := if Bytes(cubes[0]) <= room then room - Bytes(cubes[0]) else room;
      FittingBytes(left, cubes[1..]);
      assert AllBytes(cubes)[1..] == AllBytes(cubes[1..]);
      BytesCons(cubes[0], Fitting(left, cubes[1..]));
    }
  }

  lemma BytesCons(c: Cube, rest: seq<Cube>)
    ensures AllBytes([c] + rest) == [Bytes(c)] + AllBytes(rest)
  {
  }

  /** What gets on was among what was to be added. */
  lemma {:induction false} FittingAmong(room: nat, cubes: seq<Cube>)
    ensures multiset(Fitting(room, cubes)) <= multiset(cubes)
  {
    if cubes != [] {
      FittingAmong(if Bytes(cubes[0]) <= room then room - Bytes(cubes[0]) else room, cubes[1..]);
      assert cubes == [cubes[0]] + cubes[1..];
    }
  }

  /** All get on exactly when the side is kept. */
  lemma FittingIsKept(cubes: seq<Cube>, idxs: seq<nat>)
    requires Below(idxs, |cubes|)
    ensures |Fitting(ROOM, Gather(cubes, idxs))| <= |idxs|
    ensures SideKept(ROOM, AllBytes(cubes), idxs) <==> Fitting(ROOM, Gather(cubes, idxs)) == Gather(cubes, idxs)
    ensures SideKept(ROOM, AllBytes(cubes), idxs) <==> |Fitting(ROOM, Gather(cubes, idxs))| == |idxs|
  {
    assert AllBytes(Gather(cubes, idxs)) == Gather(AllBytes(cubes), idxs);
    FittingBytes(ROOM, Gather(cubes, idxs));
  }

  /** One of the two add loops of `rtree_split_page`, in bytes: a tuple that does
      not fit is skipped, later ones may still get on. */
  method FillBytes(cubes: seq<Cube>, idxs: seq<nat>) returns (page: seq<Cube>)
    requires Below(idxs, |cubes|)
    ensures page == Fitting(ROOM, Gather(cubes, idxs))
  {
    page := [];
    var room := ROOM;
    ghost var all := Gather(cubes, idxs);
    assert all[0..] == all;
    for k := 0 to |idxs|
      invariant room >= 0 && page + Fitting(room, all[k..]) == Fitting(ROOM, all)
    {
      var c := cubes[idxs[k]];
      assert all[k..][0] == c && all[k..][1..] == all[k + 1..];
      if Bytes(c) <= room {
        ghost var rest := Fitting(room - Bytes(c), all[k + 1..]);
        assert page + ([c] + rest) == (page + [c]) + rest;
        page, room := page + [c], room - Bytes(c);
      }
    }
  }

  function Decoded(u: Int64, cubes: seq<Cube>): (items: seq<Box>)
    ensures |items| == |cubes| && forall i :: 0 <= i < |cubes| ==> items[i] == Decode(u, cubes[i])
  {
    seq(|cubes|, i requires 0 <= i < |cubes| => Decode(u, cubes[i]))
  }

  /** `rtree_split_page` on tuples of any sizes: no tuple is lost, as a multiset,
      exactly when both sides of the division fit. */
  method SplitBytes(u: Int64, cubes: seq<Cube>, penalty: (Box, Box) -> Penalty)
    returns (left: seq<Cube>, right: seq<Cube>, ls: seq<nat>, rs: seq<nat>)
    requires |cubes| >= 2
    ensures Deals(ls, rs, |cubes|) && (!CurrentOnly(Decoded(u, cubes)) ==> Divided(Decoded(u, cubes), penalty, ls, rs))
    ensures left == Fitting(ROOM, Gather(cubes, ls)) && right == Fitting(ROOM, Gather(cubes, rs))
    ensures multiset(left) + multiset(right) == multiset(cubes) <==>
            Total(Gather(AllBytes(cubes), ls)) <= ROOM && Total(Gather(AllBytes(cubes), rs)) <= ROOM
  {
    ls, rs := Pick(Decoded(u, cubes), penalty);
    hide Divided, CurrentOnly, Spread, CutAt, Partition, Decoded;
    PartitionBounds(ls, rs, |cubes|);
    left := FillBytes(cubes, ls);
    right := FillBytes(cubes, rs);
    Conserves(cubes, ls, rs);
    KeepsAllIsFit(ROOM, AllBytes(cubes), ls, rs);
  }

  lemma KeepsAllIsFit(room: nat, sizes: seq<nat>, left: seq<nat>, right: seq<nat>)
    requires Below(left, |sizes|) && Below(right, |sizes|)
    ensures KeepsAll(room, sizes, left, right) <==>
            Total(Gather(sizes, left)) <= room && Total(Gather(sizes, right)) <= room
  {
    AddedAllIff(room, Gather(sizes, left));
    AddedAllIff(room, Gather(sizes, right));
  }

  lemma Conserves(cubes: seq<Cube>, l: seq<nat>, r: seq<nat>)
    requires Deals(l, r, |cubes|)
    ensures var left, right := Fitting(ROOM, Gather(cubes, l)), Fitting(ROOM, Gather(cubes, r));
            multiset(left) + multiset(right) == multiset(cubes) <==>
            KeepsAll(ROOM, AllBytes(cubes), l, r)
  {
    hide SideKept, Fitting;
    var left, right := Fitting(ROOM, Gather(cubes, l)), Fitting(ROOM, Gather(cubes, r));
    GatherPartition(cubes, l, r);
    FittingIsKept(cubes, l);
    FittingIsKept(cubes, r);
    if !KeepsAll(ROOM, AllBytes(cubes), l, r) {
      assert |left| + |right| < |cubes|;
      assert |multiset(left) + multiset(right)| == |left| + |right|;
    }
  }

  // ---------------------------------------------------------------- a lost row

  /** A row valid at one instant, and one valid for a while, of attribute 5. */
  function Instant(t: int): Box { Box(t, t, 5, 5, 2, false, false, false) }
  function Span(t: int): Box { Box(t, t + 10, 5, 5, 2, false, false, false) }

  predicate Spans(i: int) { i < 3 || i == 225 }

  function PageItem(i: int): Box { if i == 3 then Instant(0) else if Spans(i) then Span(10) else Instant(10) }

  /** 3 spans and 222 instants on a page, one instant first of all, and a span
      that is to be added. */
  function FullPage(): (items: seq<Box>)
    ensures |items| == 226 && forall i :: 0 <= i < 226 ==> items[i] == PageItem(i)
  {
    seq(226, i => PageItem(i))
  }

  function Stored(items: seq<Box>): (cubes: seq<Cube>)
    ensures |cubes| == |items| && forall i :: 0 <= i < |items| ==> cubes[i] == Encode(items[i])
  {
    seq(|items|, i requires 0 <= i < |items| => Encode(items[i]))
  }

  lemma ItemBytes(u: Int64, i: int)
    ensures Bytes(Encode(PageItem(i))) == if Spans(i) then 52 else 36
    ensures Decode(u, Encode(PageItem(i))) == PageItem(i)
  {
    SmallIsDouble(0);
    SmallIsDouble(10);
    SmallIsDouble(20);
    ExactIff(u, PageItem(i));
  }

  lemma FullPageBytes()
    ensures var sizes := AllBytes(Stored(FullPage()));
            sizes[3] == 36 && Total(sizes[..225]) == 8148 && Total(sizes) == 8200
  {
    var sizes := AllBytes(Stored(FullPage()));
    forall i | 0 <= i < 226 ensures sizes[i] == if Spans(i) then 52 else 36 { ItemBytes(0, i); }
    hide FullPage, Stored, AllBytes, PageItem;
    assert sizes[..225] == Repeat(52, 3) + Repeat(36, 222);
    assert sizes == sizes[..225] + Repeat(52, 1);
    TotalRepeat(52, 3);
    TotalRepeat(36, 222);
    TotalRepeat(52, 1);
    TotalConcat(Repeat(52, 3), Repeat(36, 222));
    TotalConcat(sizes[..225], Repeat(52, 1));
  }

  lemma FullPageSeeds(seed1: nat, seed2: nat)
    requires SeedsOf(FullPage(), seed1, seed2)
    ensures seed1 == 3
  {
    hide FullPage, Starts, AttrLows, AttrHighs;
    var items := FullPage();
    var a: nat, b: nat, c: nat, d: nat :| Extremes(items, a, b, c, d) && (seed1, seed2) == Choice(items, a, b, c, d);
    assert Starts(items)[a] <= Starts(items)[3] && Starts(items)[0] <= Starts(items)[b];
    assert Starts(items)[0] == 10 && Starts(items)[3] == 0 && Starts(items)[a] == PageItem(a).lower;
    assert items[c] == PageItem(c) && items[d] == PageItem(d) && items[0] == PageItem(0);
    assert AttrHighs(items)[d] == 5 && AttrLows(items)[c] == 5;
  }

  lemma FullPageFacts()
    ensures Measurable(FullPage()) && AllNarrow(FullPage(), 5) && !CurrentOnly(FullPage())
  {
    hide FullPage;
    assert FullPage()[3] == PageItem(3);
  }

  /** A full page from which the code's division drops a row: the tuples are what
      the code reads their boxes from, and all but the new one fit. */
  lemma MixedSizesLoseATuple(u: Int64, timeWidth: Box -> real, left: seq<nat>, right: seq<nat>)
    requires Divided(FullPage(), AreaPenalty(timeWidth), left, right)
    ensures var cubes := Stored(FullPage());
            var sizes := AllBytes(cubes);
            (forall i :: 0 <= i < |cubes| ==> Decode(u, cubes[i]) == FullPage()[i]) && !CurrentOnly(FullPage()) &&
            Total(sizes[..225]) <= ROOM && Below(left, 226) && Below(right, 226) && !KeepsAll(ROOM, sizes, left, right)
  {
    FullPageFacts();
    hide Measurable, AllNarrow, CurrentOnly, FullPage, SeedsOf, Stored, AllBytes, AreaPenalty, KeepsAll, PageItem;
    var items, sizes := FullPage(), AllBytes(Stored(FullPage()));
    var seed1: nat, seed2: nat :| seed1 < |items| && seed2 < |items| && seed1 != seed2 &&
      SeedsOf(items, seed1, seed2) &&
      Sides(left, right) == Greedy(items, AreaPenalty(timeWidth), seed1, seed2, |items|);
    FullPageSeeds(seed1, seed2);
    FullPageBytes();
    NarrowKeepsAllIff(timeWidth, ROOM, sizes, items, 5, seed1, seed2, left, right);
    forall i | 0 <= i < 226 ensures Decode(u, Stored(items)[i]) == items[i] { ItemBytes(u, i); }
  }

  lemma FullPageDecoded(u: Int64)
    ensures Decoded(u, Stored(FullPage())) == FullPage()
  {
    forall i | 0 <= i < 226 ensures Decode(u, Stored(FullPage())[i]) == FullPage()[i] { ItemBytes(u, i); }
  }

  /** The split of that page: a row is gone. */
  method SplitFullPage(u: Int64, timeWidth: Box -> real) returns (left: seq<Cube>, right: seq<Cube>)
    ensures multiset(left) + multiset(right) != multiset(Stored(FullPage()))
  {
    var cubes := Stored(FullPage());
    var ls, rs;
    left, right, ls, rs := SplitBytes(u, cubes, AreaPenalty(timeWidth));
    hide Divided, CurrentOnly, KeepsAll, Measurable, AllNarrow, FullPage, Stored, Decoded, AreaPenalty;
    FullPageFacts();
    FullPageDecoded(u);
    MixedSizesLoseATuple(u, timeWidth, ls, rs);
    KeepsAllIsFit(ROOM, AllBytes(cubes), ls, rs);
  }
}
