/** The real codec seen by the tree, and the pruned descent it would allow. */
module Pruning {
  import opened Common
  import opened Boxes
  import opened Flatten
  import opened PageTree

  /** Boxes stored as cubes, on a platform whose `llround` answers `u` outside
      the 64-bit range. */
  function CubeCodec(u: Int64): Codec
  {
    Codec((b: Box) => Encode(b), (c: Cube) => Decode(u, c), (b: Box) => OnGrid(b) && Exact(u, b))
  }

  lemma CubeCodecLawful(u: Int64)
    ensures Lawful(CubeCodec(u))
  {
    var cd := CubeCodec(u);
    forall a, b | cd.good(a) && cd.good(b) ensures cd.good(Union(a, b)) { UnionExact(u, a, b); }
  }

  /** Tight boxes can be relied on for an in-range cube exactly when its time end
      is closed, or the platform's `llround` saturates. */
  lemma GoodCubeIff(u: Int64, it: Item)
    requires InRange(it.key) && DoubleCoords(it.key)
    ensures Good(CubeCodec(u), it) <==> it.key.UR(1) != PosInf || u == INT64_MAX
  {
    DecodeOnGrid(u, it.key);
    ExactIff(u, Decode(u, it.key));
  }

  // ------------------------------------------------------------------ pruning

  predicate MayMatch(box: Box, query: Box, s: Strategy)
  {
    match s
    case Overlap => Overlaps(box, query)
    case Contains => BoxContains(box, query)
    case Contained => Overlaps(box, query)
  }

  function Matcher(cd: Codec, query: Box, s: Strategy): Item -> bool
  {
    (it: Item) => Matches(cd.dec(it.key), query, s)
  }

  /** A leaf match shows through every box that contains the leaf's. */
  lemma MatchShowsThrough(outer: Box, leaf: Box, query: Box, s: Strategy)
    requires BoxContains(outer, leaf) && Matches(leaf, query, s)
    requires s == Contained ==> Ordered(leaf)
    ensures MayMatch(outer, query, s)
  {
  }

  /** A child is skipped only for the query, not for lack of care: whenever it is
      not skipped, some box inside its own could match. */
  lemma MayMatchIff(outer: Box, query: Box, s: Strategy)
    requires Ordered(outer) && Ordered(query)
    ensures MayMatch(outer, query, s) <==>
            exists leaf: Box :: Ordered(leaf) && BoxContains(outer, leaf) && Matches(leaf, query, s)
  {
    if MayMatch(outer, query, s) {
      var leaf := if s == Contained then Intersect(outer, query) else outer;
      assert Ordered(leaf) && BoxContains(outer, leaf) && Matches(leaf, query, s);
    }
    if leaf: Box :| Ordered(leaf) && BoxContains(outer, leaf) && Matches(leaf, query, s) {
      MatchShowsThrough(outer, leaf, query, s);
    }
  }

  /** What two boxes have in common. */
  function Intersect(a: Box, b: Box): Box
  {
    a.(lower := Max(a.lower, b.lower), upper := Min(a.upper, b.upper),
       attrLo := Max(a.attrLo, b.attrLo), attrHi := Min(a.attrHi, b.attrHi))
  }

  /** The descent that skips every child whose box cannot match. */
  ghost function Pruned(cd: Codec, bs: Blocks, b: nat, l: nat, query: Box, s: Strategy): seq<Item>
    decreases l, 0
  {
    if b !in bs then []
    else if l == 0 then Filter(bs[b].items, Matcher(cd, query, s))
    else FlatMap(bs[b].items, PrunedOf(cd, bs, l - 1, query, s))
  }

  ghost function PrunedOf(cd: Codec, bs: Blocks, l: nat, query: Box, s: Strategy): Item -> seq<Item>
    decreases l, 1
  {
    (it: Item) => if MayMatch(cd.dec(it.key), query, s) then Pruned(cd, bs, it.tid.block, l, query, s) else []
  }

  ghost predicate Usable(cd: Codec, leaves: seq<Item>, s: Strategy)
  {
    s == Contained ==> forall x :: x in leaves ==> Ordered(cd.dec(x.key))
  }

  /** Over tight boxes the pruned descent returns what the exhaustive one does. */
  lemma {:induction false} PrunedIsExhaustive(cd: Codec, bs: Blocks, b: nat, l: nat, query: Box, s: Strategy)
    requires Lawful(cd) && Tight(cd, bs, b, l) && Usable(cd, Leaves(bs, b, l), s)
    ensures Pruned(cd, bs, b, l, query, s) == Filter(Leaves(bs, b, l), Matcher(cd, query, s))
    decreases l, 0
  {
    if l > 0 {
      var items := bs[b].items;
      forall it | it in items
        ensures PrunedOf(cd, bs, l - 1, query, s)(it) == Filter(LeavesOf(bs, l - 1)(it), Matcher(cd, query, s))
      {
        UsableChild(cd, bs, b, l, it, s);
        PrunedChild(cd, bs, it, l - 1, query, s);
      }
      FilterFlatMap(items, LeavesOf(bs, l - 1), PrunedOf(cd, bs, l - 1, query, s), Matcher(cd, query, s));
    }
  }

  lemma UsableChild(cd: Codec, bs: Blocks, b: nat, l: nat, it: Item, s: Strategy)
    requires l > 0 && b in bs && it in bs[b].items && Usable(cd, Leaves(bs, b, l), s)
    ensures Usable(cd, Leaves(bs, it.tid.block, l - 1), s)
  {
    FlatMapPart(bs[b].items, LeavesOf(bs, l - 1), it);
  }

  lemma {:induction false} PrunedChild(cd: Codec, bs: Blocks, it: Item, l: nat, query: Box, s: Strategy)
    requires Lawful(cd) && TightKid(cd, bs, it, l) && Usable(cd, Leaves(bs, it.tid.block, l), s)
    ensures PrunedOf(cd, bs, l, query, s)(it) == Filter(LeavesOf(bs, l)(it), Matcher(cd, query, s))
    decreases l, 1
  {
    if MayMatch(cd.dec(it.key), query, s) {
      PrunedIsExhaustive(cd, bs, it.tid.block, l, query, s);
    } else {
      SkippedHoldsNothing(cd, bs, it, l, query, s);
    }
  }

  lemma SkippedHoldsNothing(cd: Codec, bs: Blocks, it: Item, l: nat, query: Box, s: Strategy)
    requires Lawful(cd) && TightKid(cd, bs, it, l) && Usable(cd, Leaves(bs, it.tid.block, l), s)
    requires !MayMatch(cd.dec(it.key), query, s)
    ensures Filter(Leaves(bs, it.tid.block, l), Matcher(cd, query, s)) == []
  {
    forall x | x in Leaves(bs, it.tid.block, l) ensures !Matcher(cd, query, s)(x) {
      TightContains(cd, bs, it, l, x);
      if Matches(cd.dec(x.key), query, s) {
        MatchShowsThrough(cd.dec(it.key), cd.dec(x.key), query, s);
      }
    }
    FilterNone(Leaves(bs, it.tid.block, l), Matcher(cd, query, s));
  }

  // ------------------------------------------------ why open ends rule it out

  /** One row under a root, whose downlink carries `link`. */
  ghost function OneRow(key: Cube, link: Cube): Blocks
  {
    map[1 := Page([Item(key, Tid(7, 1))], true, false, 0, None),
        2 := Page([Item(link, Tid(1, 1))], false, true, 1, None)]
  }

  ghost predicate Finds(cd: Codec, bs: Blocks, b: nat, l: nat, q: Box, s: Strategy)
  {
    Pruned(cd, bs, b, l, q, s) == Filter(Leaves(bs, b, l), Matcher(cd, q, s))
  }

  lemma OneRowDescents(cd: Codec, key: Cube, link: Cube, q: Box, s: Strategy)
    ensures var bs, hits := OneRow(key, link), if Matches(cd.dec(key), q, s) then [Item(key, Tid(7, 1))] else [];
            Filter(Leaves(bs, 2, 1), Matcher(cd, q, s)) == hits &&
            Pruned(cd, bs, 2, 1, q, s) == if MayMatch(cd.dec(link), q, s) then hits else []
  {
    var bs, leaf := OneRow(key, link), Item(key, Tid(7, 1));
    assert bs[2].items == [Item(link, Tid(1, 1))];
    FlatMapOne(bs[2].items[0], LeavesOf(bs, 0));
    FlatMapOne(bs[2].items[0], PrunedOf(cd, bs, 0, q, s));
    assert Filter([leaf], Matcher(cd, q, s)) == if Matches(cd.dec(key), q, s) then [leaf] else [];
  }

  /** A downlink box that misses the query hides the row. */
  lemma StaleLinkLosesRow(cd: Codec, key: Cube, link: Cube, q: Box)
    requires Overlaps(cd.dec(key), q) && !Overlaps(cd.dec(link), q)
    ensures Filter(Leaves(OneRow(key, link), 2, 1), Matcher(cd, q, Overlap)) == [Item(key, Tid(7, 1))]
    ensures Pruned(cd, OneRow(key, link), 2, 1, q, Overlap) == []
  {
    OneRowDescents(cd, key, link, q, Overlap);
  }

  /** A current row under its own downlink is found by every pruned descent,
      exactly when `llround` saturates; where it answers a time before the row's
      start, even the query for the row's own box misses it. */
  lemma PruningLosesCurrentRow(u: Int64, key: Cube)
    requires InRange(key) && DoubleCoords(key) && key.UR(1) == PosInf && Ordered(Decode(u, key))
    ensures var bs := OneRow(key, Encode(Decode(u, key)));
            (forall q: Box, s: Strategy :: Finds(CubeCodec(u), bs, 2, 1, q, s)) <==> u == INT64_MAX
    ensures u < Decode(u, key).lower ==>
            !Finds(CubeCodec(u), OneRow(key, Encode(Decode(u, key))), 2, 1, Decode(u, key), Overlap)
  {
    var cd, row, link := CubeCodec(u), Decode(u, key), Encode(Decode(u, key));
    DecodeOnGrid(u, key);
    ExactIff(u, row);
    assert Decode(u, link).upper == u;
    hide Encode, Decode;
    if u == INT64_MAX {
      forall q: Box, s: Strategy ensures Finds(cd, OneRow(key, link), 2, 1, q, s) {
        OneRowDescents(cd, key, link, q, s);
        if Matches(row, q, s) { MatchShowsThrough(row, row, q, s); }
      }
    } else {
      var q := row.(lower := INT64_MAX);
      StaleLinkLosesRow(cd, key, link, q);
      assert !Finds(cd, OneRow(key, link), 2, 1, q, Overlap);
    }
    if u < row.lower { StaleLinkLosesRow(cd, key, link, row); }
  }
}
