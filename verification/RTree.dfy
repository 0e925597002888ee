/** The temporal R-tree as an object: its blocks, its meta page, and the
    operations that change them. */
module RTree {
  import opened Common
  import opened Boxes
  import opened Flatten
  import opened PageTree
  import opened PickSplit
  import opened Growth
  import opened Rightlinks
  import opened Sweep

  /** Downlink `i` is the first of least penalty; when no penalty is below the
      starting value, the first downlink of all. */
  ghost predicate Cheapest(cd: Codec, items: seq<Item>, box: Box, worst: Penalty, penalty: (Box, Box) -> Penalty,
                           i: nat)
    requires i < |items|
  {
    var p := (j: nat) requires j < |items| => penalty(cd.dec(items[j].key), box);
    if p(i).Val? && worst.Val? && p(i).v < worst.v then
      forall j: nat :: j < |items| && p(j).Val? ==> p(i).v <= p(j).v && (j < i ==> p(i).v < p(j).v)
    else
      i == 0 && forall j: nat :: j < |items| ==> !(p(j).Val? && worst.Val? && p(j).v < worst.v)
  }

  /** `choose_subtree_insert`. */
  method ChooseSubtree(cd: Codec, items: seq<Item>, box: Box, worst: Penalty, penalty: (Box, Box) -> Penalty)
    returns (child: Option<nat>)
    ensures child == None <==> items == []
    ensures child.Some? ==>
            exists i: nat :: i < |items| && items[i].tid.block == child.value &&
              Cheapest(cd, items, box, worst, penalty, i)
  {
    child := None;
    var best, at := worst, 0;
    for i := 0 to |items|
      invariant child.None? ==> best == worst
      invariant child.Some? ==>
                at < i && child.value == items[at].tid.block &&
                best == penalty(cd.dec(items[at].key), box) && Less(best, worst)
      invariant forall j :: 0 <= j < i ==> !Less(penalty(cd.dec(items[j].key), box), best)
      invariant child.Some? ==> forall j :: 0 <= j < at ==> penalty(cd.dec(items[j].key), box) != best
    {
      var p := penalty(cd.dec(items[i].key), box);
      if Less(p, best) {
        best, child, at := p, Some(items[i].tid.block), i;
      }
    }
    if child == None && items != [] {
      child := Some(items[0].tid.block);
      assert Cheapest(cd, items, box, worst, penalty, 0);
    } else if items != [] {
      assert Cheapest(cd, items, box, worst, penalty, at);
    }
  }

  /** The offset of the downlink to a block. */
  method FindDownlink(items: seq<Item>, child: nat) returns (i: nat)
    requires exists j :: 0 <= j < |items| && items[j].tid.block == child
    ensures i < |items| && items[i].tid.block == child
    ensures forall j :: 0 <= j < i ==> items[j].tid.block != child
  {
    i := 0;
    while items[i].tid.block != child
      invariant i < |items|
      decreases |items| - i
      invariant forall j :: 0 <= j < i ==> items[j].tid.block != child
    {
      i := i + 1;
    }
  }

  /** `rtree_page_mbr`. */
  method PageMbr(cd: Codec, items: seq<Item>) returns (mbr: Box)
    ensures mbr == PageBox(cd, items)
  {
    mbr := EMPTY_BOX;
    var first := true;
    for i := 0 to |items|
      invariant first <==> i == 0
      invariant mbr == Mbr(PageBoxes(cd, items)[..i])
    {
      var boxes := PageBoxes(cd, items);
      assert boxes[..i + 1][..i] == boxes[..i];
      if first {
        mbr, first := cd.dec(items[i].key), false;
      } else {
        mbr := Union(mbr, cd.dec(items[i].key));
      }
    }
    assert PageBoxes(cd, items)[..|items|] == PageBoxes(cd, items);
  }

  /** Adding tuples one by one; a tuple that does not fit is skipped without a
      word, as the split does. */
  method FillPage(cap: nat, items: seq<Item>, idxs: seq<nat>) returns (page: seq<Item>)
    requires Below(idxs, |items|)
    ensures |idxs| <= cap ==> page == Gather(items, idxs)
    ensures |page| <= cap
  {
    page := [];
    for k := 0 to |idxs|
      invariant |page| <= cap && |page| <= k
      invariant |idxs| <= cap ==> page == Gather(items, idxs)[..k]
    {
      if |page| < cap {
        page := page + [items[idxs[k]]];
      }
    }
  }

  /** The two pages hold what `tr_picksplit` dealt them. */
  ghost predicate DealtBy(boxes: seq<Box>, penalty: (Box, Box) -> Penalty, items: seq<Item>,
                          left: seq<Item>, right: seq<Item>)
    requires |boxes| == |items|
  {
    exists ls: seq<nat>, rs: seq<nat> :: Below(ls, |items|) && Below(rs, |items|) &&
      left == Gather(items, ls) && right == Gather(items, rs) &&
      (!CurrentOnly(boxes) ==> Divided(boxes, penalty, ls, rs)) &&
      (CurrentOnly(boxes) && SumsFit(boxes) ==> MedianCut(boxes, ls, rs))
  }

  /** The meta page names the root and its level; the root alone carries the root
      flag, and only a leaf root may be empty. */
  ghost predicate IsRooted(cap: nat, bs: Blocks, n: nat, root: nat, l: nat)
  {
    n >= 2 && Allocated(bs, n) && Tree(cap, bs, root, l) && Distinct(multiset(Nodes(bs, root, l))) &&
    bs[root].root && (l > 0 ==> bs[root].items != [])
  }

  /** Every page is reachable and every level is one chain; the leaf chain starts
      at block 1, the first leaf, which inner splits may move out of first place
      in tree order. */
  ghost predicate AllLinked(bs: Blocks, chains: seq<seq<nat>>, root: nat, l: nat)
  {
    Chains(bs, chains) && |chains| == l + 1 && FromFirst(chains) && forall x :: x in bs ==> x in Nodes(bs, root, l)
  }

  ghost predicate FromFirst(chains: seq<seq<nat>>) { chains != [] && chains[0] != [] && chains[0][0] == 1 }

  /** Below page `b`, only the subtree of the cheapest downlink has changed. */
  ghost predicate DescendsInto(cd: Codec, bs0: Blocks, bs1: Blocks, b: nat, l: nat, box: Box,
                               worst: Penalty, penalty: (Box, Box) -> Penalty)
    requires b in bs0 && l > 0
  {
    var items := bs0[b].items;
    exists i: nat :: i < |items| && Cheapest(cd, items, box, worst, penalty, i) &&
      Outside(bs0, bs1, [b] + Nodes(bs0, items[i].tid.block, l - 1))
  }

  lemma InsertedOutside(cap: nat, cd: Codec, bs0: Blocks, n0: nat, bs1: Blocks, n1: nat, b: nat, l: nat, i: nat,
                        it: Item, res: InsertResult, bs2: Blocks)
    requires l > 0 && b in bs0 && i < |bs0[b].items|
    requires Inserted(cap, cd, bs0, n0, bs1, n1, bs0[b].items[i].tid.block, l - 1, it, res)
    requires Outside(bs1, bs2, [b])
    ensures Outside(bs0, bs2, [b] + Nodes(bs0, bs0[b].items[i].tid.block, l - 1))
  {
  }

  lemma RootedParts(cap: nat, bs: Blocks, n: nat, root: nat, l: nat)
    requires IsRooted(cap, bs, n, root, l)
    ensures n >= 2 && Allocated(bs, n) && Tree(cap, bs, root, l) && Distinct(multiset(Nodes(bs, root, l)))
    ensures bs[root].root && (l > 0 ==> bs[root].items != [])
  {
  }

  lemma InsertedInRoot(cap: nat, cd: Codec, bs0: Blocks, n0: nat, bs1: Blocks, n1: nat, root: nat, l: nat, it: Item,
                       res: InsertResult)
    requires IsRooted(cap, bs0, n0, root, l) && Inserted(cap, cd, bs0, n0, bs1, n1, root, l, it, res) && !res.split
    ensures n0 <= n1 && IsRooted(cap, bs1, n1, root, l)
    ensures multiset(Leaves(bs1, root, l)) == multiset(Leaves(bs0, root, l)) + multiset{it}
    ensures Lawful(cd) && Tight(cd, bs0, root, l) && Good(cd, it) ==> Tight(cd, bs1, root, l)
  {
    InsertedDistinct(cap, cd, bs0, n0, bs1, n1, root, l, it, res);
    assert AllNodes(bs1, root, l, res) == multiset(Nodes(bs1, root, l));
    assert AllLeaves(bs1, root, l, res) == multiset(Leaves(bs1, root, l));
  }

  lemma InsertedLinks(cap: nat, cd: Codec, bs0: Blocks, n0: nat, bs1: Blocks, n1: nat, root: nat, l: nat, it: Item,
                      res: InsertResult, chains: seq<seq<nat>>)
    requires IsRooted(cap, bs0, n0, root, l) && Inserted(cap, cd, bs0, n0, bs1, n1, root, l, it, res) && !res.split
    requires forall x :: x in bs0 ==> x in Nodes(bs0, root, l)
    requires Chains(bs1, chains) && |chains| == l + 1 && FromFirst(chains)
    ensures AllLinked(bs1, chains, root, l)
  {
    InsertedCovers(cap, cd, bs0, n0, bs1, n1, root, l, it, res);
    assert AllNodes(bs1, root, l, res) == multiset(Nodes(bs1, root, l));
  }

  /** A root split in two and put under a new root. */
  lemma Promoted(cap: nat, cd: Codec, bs0: Blocks, n0: nat, bs1: Blocks, n1: nat, b: nat, l: nat, it: Item,
                 res: InsertResult, bs2: Blocks)
    requires cap >= 2 && IsRooted(cap, bs0, n0, b, l) && Inserted(cap, cd, bs0, n0, bs1, n1, b, l, it, res) && res.split
    requires bs2 == bs1[n1 := Page(RootLinks(cd, b, res), false, true, l + 1, None)]
    ensures n0 <= n1 && b in bs1 && !bs1[b].root && Allocated(bs1, n1)
    ensures IsRooted(cap, bs2, n1 + 1, n1, l + 1)
  {
    hide Tight, TightHalves, Lawful, Nodes, Leaves;
    InsertedDistinct(cap, cd, bs0, n0, bs1, n1, b, l, it, res);
    AllNodesAllocated(cap, cd, bs1, b, l, res);
    Promote(cap, cd, bs1, n1, b, l, res, bs2);
    PromoteDistinct(AllNodes(bs1, b, l, res), n1);
  }

  lemma PromotedLeaves(cap: nat, cd: Codec, bs0: Blocks, n0: nat, bs1: Blocks, n1: nat, b: nat, l: nat, it: Item,
                       res: InsertResult, bs2: Blocks)
    requires cap >= 2 && Inserted(cap, cd, bs0, n0, bs1, n1, b, l, it, res) && res.split && n1 >= 1
    requires bs2 == bs1[n1 := Page(RootLinks(cd, b, res), false, true, l + 1, None)]
    ensures multiset(Leaves(bs2, n1, l + 1)) == multiset(Leaves(bs0, b, l)) + multiset{it}
    ensures Leaves(bs2, n1, l + 1) == Leaves(bs1, b, l) + Leaves(bs1, res.right, l)
    ensures Lawful(cd) && Tight(cd, bs0, b, l) && Good(cd, it) ==> Tight(cd, bs2, n1, l + 1)
  {
    hide Tight, TightHalves, Lawful, Nodes, Leaves, Tree;
    Promote(cap, cd, bs1, n1, b, l, res, bs2);
    PromoteOrder(cap, cd, bs1, n1, b, l, res, bs2);
  }

  lemma PromotedLinks(cap: nat, cd: Codec, bs0: Blocks, n0: nat, bs1: Blocks, n1: nat, b: nat, l: nat, it: Item,
                      res: InsertResult, bs2: Blocks, chains: seq<seq<nat>>)
    requires cap >= 2 && IsRooted(cap, bs0, n0, b, l) && Inserted(cap, cd, bs0, n0, bs1, n1, b, l, it, res) && res.split
    requires forall x :: x in bs0 ==> x in Nodes(bs0, b, l)
    requires Chains(bs1, chains) && |chains| == l + 1 && FromFirst(chains)
    requires bs2 == bs1[n1 := Page(RootLinks(cd, b, res), false, true, l + 1, None)]
    ensures AllLinked(bs2, chains + [[n1]], n1, l + 1)
  {
    hide Tight, TightHalves, Lawful, Nodes, Leaves, Tree;
    InsertedCovers(cap, cd, bs0, n0, bs1, n1, b, l, it, res);
    Promote(cap, cd, bs1, n1, b, l, res, bs2);
    PromoteChains(bs1, n1, bs2[n1], chains);
    forall x | x in bs2 ensures x in Nodes(bs2, n1, l + 1) {
      assert x in multiset{n1} + AllNodes(bs1, b, l, res);
    }
  }

  /** A rooted tree whose inner root may have lost all its children. */
  ghost predicate Settled(cap: nat, bs: Blocks, n: nat, root: nat, l: nat)
  {
    n >= 2 && Allocated(bs, n) && Tree(cap, bs, root, l) && Distinct(multiset(Nodes(bs, root, l))) && bs[root].root
  }

  lemma SweptRoot(cap: nat, bs0: Blocks, n: nat, bs1: Blocks, root: nat, l: nat, keep: Item -> bool)
    requires IsRooted(cap, bs0, n, root, l) && Swept(cap, bs0, bs1, root, l, keep)
    ensures Settled(cap, bs1, n, root, l)
    ensures root in bs1 && Leaves(bs1, root, l) == Filter(Leaves(bs0, root, l), keep)
    ensures bs1[root].items == [] <==> Leaves(bs1, root, l) == []
  {
    DistinctSub(multiset(Nodes(bs1, root, l)), multiset(Nodes(bs0, root, l)));
    assert forall x :: x in bs1 <==> x in bs0;
  }

  lemma EmptiedRoot(cap: nat, bs0: Blocks, n: nat, root: nat, l: nat, bs1: Blocks)
    requires Settled(cap, bs0, n, root, l) && l > 0 && bs0[root].items == []
    requires bs1 == bs0[root := Page([], true, true, 0, None)]
    ensures IsRooted(cap, bs1, n, root, 0) && Leaves(bs1, root, 0) == Leaves(bs0, root, l) == []
  {
    assert Nodes(bs1, root, 0) == [root];
  }

  /** The only child's page moved into the root block. */
  lemma AbsorbedChild(cap: nat, cd: Codec, bs0: Blocks, n: nat, root: nat, l: nat, bs1: Blocks)
    requires Settled(cap, bs0, n, root, l) && l > 0 && |bs0[root].items| == 1
    requires Kid(cap, bs0, bs0[root].items[0], l - 1) && bs0[root].items[0].tid.block in bs0
    requires bs1 == bs0[root := bs0[bs0[root].items[0].tid.block].(root := true)]
    ensures IsRooted(cap, bs1, n, root, l - 1) && Leaves(bs1, root, l - 1) == Leaves(bs0, root, l)
    ensures |Nodes(bs1, root, l - 1)| == |Nodes(bs0, root, l)| - 1
    ensures Tight(cd, bs0, root, l) ==> Tight(cd, bs1, root, l - 1)
  {
    var c := bs0[root].items[0].tid.block;
    OnlyChild(bs0, root, l);
    if Tight(cd, bs0, root, l) { ChildIsTight(cd, bs0, root, l, 0); }
    DistinctSplit([root], Nodes(bs0, c, l - 1));
    assert root in [root];
    NodesAllocated(cap, bs0, c, l - 1);
    if l > 1 { AbsorbedInner(cap, cd, bs0, root, l, c, bs1); }
  }

  lemma OnlyChild(bs: Blocks, root: nat, l: nat)
    requires l > 0 && root in bs && |bs[root].items| == 1
    ensures Nodes(bs, root, l) == [root] + Nodes(bs, bs[root].items[0].tid.block, l - 1)
    ensures Leaves(bs, root, l) == Leaves(bs, bs[root].items[0].tid.block, l - 1)
  {
    var it := bs[root].items[0];
    assert bs[root].items == [it];
    FlatMapOne(it, NodesOf(bs, l - 1));
    FlatMapOne(it, LeavesOf(bs, l - 1));
  }

  lemma AbsorbedInner(cap: nat, cd: Codec, bs0: Blocks, root: nat, l: nat, c: nat, bs1: Blocks)
    requires l > 1 && Tree(cap, bs0, c, l - 1) && root !in Nodes(bs0, c, l - 1)
    requires Distinct(multiset(Nodes(bs0, c, l - 1)))
    requires bs1 == bs0[root := bs0[c].(root := true)]
    ensures Tree(cap, bs1, root, l - 1) && Distinct(multiset(Nodes(bs1, root, l - 1)))
    ensures Leaves(bs1, root, l - 1) == Leaves(bs0, c, l - 1)
    ensures |Nodes(bs1, root, l - 1)| == |Nodes(bs0, c, l - 1)|
    ensures Tight(cd, bs0, c, l - 1) ==> Tight(cd, bs1, root, l - 1)
  {
    var kids := FlatMap(bs0[c].items, NodesOf(bs0, l - 2));
    NodesAllocated(cap, bs0, c, l - 1);
    DistinctSplit([c], kids);
    assert forall x :: x in kids ==> x in Nodes(bs0, c, l - 1);
    Install(cap, cd, bs0, bs1, root, l - 1);
    DistinctCons(root, kids);
  }

  lemma DistinctCons(x: nat, s: seq<nat>)
    requires Distinct(multiset(s)) && x !in s
    ensures Distinct(multiset([x] + s))
  {
    assert multiset([x] + s) == multiset{x} + multiset(s);
  }

  /** The tuples a bulk deletion keeps; without a callback, all of them. */
  function Keep(dead: Option<Tid -> bool>): Item -> bool
  {
    (it: Item) => !(dead.Some? && dead.value(it.tid))
  }

  /** What is kept: each tuple the callback does not name, as often as before. */
  lemma KeptAre(items: seq<Item>, dead: Option<Tid -> bool>)
    ensures forall x :: multiset(Filter(items, Keep(dead)))[x] ==
              if dead.Some? && dead.value(x.tid) then 0 else multiset(items)[x]
  {
    FilterMultiset(items, Keep(dead));
  }

  lemma SweptKept(cap: nat, bs0: Blocks, bs1: Blocks, b: nat, l: nat, dead: Option<Tid -> bool>)
    requires Swept(cap, bs0, bs1, b, l, Keep(dead))
    ensures forall x :: multiset(Leaves(bs1, b, l))[x] ==
              if dead.Some? && dead.value(x.tid) then 0 else multiset(Leaves(bs0, b, l))[x]
  {
    KeptAre(Leaves(bs0, b, l), dead);
  }

  /** The box a swept page reports, accumulated over its kept boxes. */
  method Aggregate(boxes: seq<Box>) returns (box: Box)
    ensures (forall i :: 0 <= i < |boxes| ==> !boxes[i].empty) ==> box == Mbr(boxes)
  {
    box := EMPTY_BOX;
    for i := 0 to |boxes|
      invariant (forall j :: 0 <= j < i ==> !boxes[j].empty) ==> box == Mbr(boxes[..i]) && (box.empty <==> i == 0)
    {
      assert boxes[..i + 1][..i] == boxes[..i];
      box := if box.empty then boxes[i] else Union(box, boxes[i]);
    }
    assert boxes[..|boxes|] == boxes;
  }

  /** The boxes collected while sweeping are the ones the kept tuples read back as. */
  ghost predicate ReadBack(cd: Codec, kept: seq<Item>, boxes: seq<Box>)
  {
    |boxes| == |kept| && forall i :: 0 <= i < |kept| ==> cd.dec(kept[i].key) == boxes[i] && cd.good(boxes[i])
  }

  lemma AggregateIsBox(cd: Codec, kept: seq<Item>, boxes: seq<Box>, box: Box)
    requires Lawful(cd) && ReadBack(cd, kept, boxes)
    requires (forall i :: 0 <= i < |boxes| ==> !boxes[i].empty) ==> box == Mbr(boxes)
    ensures box == PageBox(cd, kept)
  {
    assert PageBoxes(cd, kept) == boxes;
  }

  lemma LeafReadBack(cd: Codec, items: seq<Item>, keep: Item -> bool)
    requires KeptGood(cd, items, keep)
    ensures ReadBack(cd, Filter(items, keep), PageBoxes(cd, Filter(items, keep)))
  {
    var kept := Filter(items, keep);
    FilterMembers(items, keep);
    forall i | 0 <= i < |kept| ensures cd.good(cd.dec(kept[i].key)) {
      assert kept[i] in kept;
      assert Good(cd, kept[i]);
    }
  }

  /** The statistics gathered while sweeping a page's first children. */
  ghost predicate Tally(bs0: Blocks, bs1: Blocks, done: seq<Item>, l: nat, kept: seq<Item>, indexTuples: int,
                        removed: int, deleted: int)
  {
    indexTuples == |FlatMap(kept, LeavesOf(bs1, l))| + |FlatMap(kept, NodesOf(bs1, l))| &&
    removed == |FlatMap(done, LeavesOf(bs0, l))| - |FlatMap(kept, LeavesOf(bs1, l))| &&
    deleted == |FlatMap(done, NodesOf(bs0, l))| - |FlatMap(kept, NodesOf(bs1, l))|
  }

  /** Sweeping a child tightly keeps the page's downlinks tight. */
  lemma TightLink(cap: nat, cd: Codec, bs0: Blocks, bs1: Blocks, bs2: Blocks, done: seq<Item>, l: nat, c: nat,
                  kept: seq<Item>, boxes: seq<Box>, keep: Item -> bool, box: Box)
    requires Lawful(cd) && Sweeping(cap, bs0, bs1, done, l, kept, keep)
    requires forall x :: x in Nodes(bs0, c, l) ==> x !in FlatMap(done, NodesOf(bs0, l))
    requires Nodes(bs1, c, l) == Nodes(bs0, c, l) && Swept(cap, bs1, bs2, c, l, keep)
    requires TightKids(cd, bs1, kept, l) && ReadBack(cd, kept, boxes)
    requires Tight(cd, bs2, c, l)
    requires bs2[c].items != [] ==> box == PageBox(cd, bs2[c].items)
    ensures TightKids(cd, bs2, kept, l)
    ensures bs2[c].items != [] ==> TightKids(cd, bs2, kept + [Item(cd.enc(box), Tid(c, 1))], l)
    ensures bs2[c].items != [] ==> ReadBack(cd, kept + [Item(cd.enc(box), Tid(c, 1))], boxes + [box])
  {
    KeptFrame(cap, cd, bs0, bs1, bs2, done, l, c, kept, keep);
    if bs2[c].items != [] {
      FormedReadsBack(cd, bs2, c, l, box);
      AddLink(cd, bs2, l, kept, boxes, Item(cd.enc(box), Tid(c, 1)), box);
    }
  }

  lemma AddLink(cd: Codec, bs: Blocks, l: nat, kept: seq<Item>, boxes: seq<Box>, link: Item, box: Box)
    requires TightKids(cd, bs, kept, l) && ReadBack(cd, kept, boxes)
    requires TightKid(cd, bs, link, l) && cd.dec(link.key) == box && cd.good(box)
    ensures TightKids(cd, bs, kept + [link], l) && ReadBack(cd, kept + [link], boxes + [box])
  {
  }

  lemma FormedReadsBack(cd: Codec, bs: Blocks, c: nat, l: nat, box: Box)
    requires Lawful(cd) && Tight(cd, bs, c, l) && bs[c].items != [] && box == PageBox(cd, bs[c].items)
    ensures TightKid(cd, bs, Item(cd.enc(box), Tid(c, 1)), l) && cd.dec(cd.enc(box)) == box && cd.good(box)
  {
    FormedIsTight(cd, bs, Item(cd.enc(box), Tid(c, 1)), l);
    TightIsGood(cd, bs, c, l);
    PageBoxGood(cd, bs[c].items);
  }

  lemma KeptGoodChild(cd: Codec, bs: Blocks, b: nat, l: nat, it: Item, keep: Item -> bool)
    requires l > 0 && b in bs && it in bs[b].items && KeptGood(cd, Leaves(bs, b, l), keep)
    ensures KeptGood(cd, Leaves(bs, it.tid.block, l - 1), keep)
  {
    FlatMapPart(bs[b].items, LeavesOf(bs, l - 1), it);
  }

  lemma TallyChild(cap: nat, cd: Codec, bs0: Blocks, bs1: Blocks, bs2: Blocks, done: seq<Item>, l: nat, it: Item,
                   kept: seq<Item>, kept': seq<Item>, keep: Item -> bool, link: Item,
                   n: int, r: int, p: int, n': int, r': int, p': int)
    requires Sweeping(cap, bs0, bs1, done, l, kept, keep)
    requires forall x :: x in Nodes(bs0, it.tid.block, l) ==> x !in FlatMap(done, NodesOf(bs0, l))
    requires Nodes(bs1, it.tid.block, l) == Nodes(bs0, it.tid.block, l)
    requires Leaves(bs1, it.tid.block, l) == Leaves(bs0, it.tid.block, l)
    requires Swept(cap, bs1, bs2, it.tid.block, l, keep) && link.tid.block == it.tid.block
    requires kept' == if bs2[it.tid.block].items == [] then kept else kept + [link]
    requires Tally(bs0, bs1, done, l, kept, n, r, p)
    requires var c := it.tid.block;
             n' == n + |Leaves(bs2, c, l)| + |Nodes(bs2, c, l)| - (if bs2[c].items == [] then 1 else 0) &&
             r' == r + |Leaves(bs1, c, l)| - |Leaves(bs2, c, l)| &&
             p' == p + |Nodes(bs1, c, l)| - |Nodes(bs2, c, l)| + (if bs2[c].items == [] then 1 else 0)
    ensures Tally(bs0, bs2, done + [it], l, kept', n', r', p')
  {
    SweepCounts(cap, cd, bs0, bs1, bs2, done, l, it, kept, kept', keep, link);
  }

  class Stats {
    var numPages: nat
    var numIndexTuples: nat
    var tuplesRemoved: nat
    var pagesDeleted: nat
    var pagesNewlyDeleted: nat

    constructor ()
      ensures numPages == 0 && numIndexTuples == 0 && tuplesRemoved == 0 && pagesDeleted == 0 && pagesNewlyDeleted == 0
    {
      numPages, numIndexTuples, tuplesRemoved, pagesDeleted, pagesNewlyDeleted := 0, 0, 0, 0, 0;
    }
  }

  class Index {
    const cap: nat                                // tuples per page
    const cd: Codec
    const worst: Penalty                          // starting value of the subtree search
    const subtreePenalty: (Box, Box) -> Penalty
    const splitPenalty: (Box, Box) -> Penalty

    var nblocks: nat                              // 0 before the meta page exists
    var blocks: Blocks
    var root: nat
    var rootLevel: nat
    ghost var chains: seq<seq<nat>>               // per level, the pages in rightlink order

    ghost predicate Rooted()
      reads this
    {
      IsRooted(cap, blocks, nblocks, root, rootLevel)
    }

    ghost predicate Valid()
      reads this
    {
      cap >= 2 && if nblocks == 0 then blocks == map[] else Rooted()
    }

    /** The leaf tuples, left to right. */
    ghost function Entries(): seq<Item>
      reads this
    {
      if nblocks == 0 then [] else Leaves(blocks, root, rootLevel)
    }

    ghost predicate TightBoxes()
      reads this
    {
      nblocks != 0 ==> Tight(cd, blocks, root, rootLevel)
    }

    /** Every box survives storage, and the downlinks' boxes are exact. */
    ghost predicate WellBoxed()
      reads this
    {
      TightBoxes() && AllGood(cd, Entries())
    }

    ghost predicate Linked()
      reads this
    {
      nblocks != 0 ==> AllLinked(blocks, chains, root, rootLevel)
    }

    constructor (cap: nat, cd: Codec, worst: Penalty, subtreePenalty: (Box, Box) -> Penalty,
                 splitPenalty: (Box, Box) -> Penalty)
      requires cap >= 2
      ensures Valid() && nblocks == 0 && this.cap == cap && this.cd == cd && TightBoxes() && Linked()
    {
      this.cap, this.cd, this.worst := cap, cd, worst;
      this.subtreePenalty, this.splitPenalty := subtreePenalty, splitPenalty;
      nblocks, blocks, root, rootLevel, chains := 0, map[], 0, 0, [];
    }

    /** `rtree_meta_and_root_init`, on an empty relation. */
    method BuildEmpty()
      requires cap >= 2 && nblocks == 0
      modifies this
      ensures Rooted() && Entries() == [] && nblocks == 2 && TightBoxes() && Linked()
    {
      root, rootLevel, nblocks := 1, 0, 2;
      blocks := map[1 := Page([], true, true, 0, None)];
      chains := [[1]];
      assert Nodes(blocks, root, rootLevel) == [1];
      assert chains[0] == [1];
    }

    /** `rtree_split_page` on a full page. */
    method SplitPage(b: nat, it: Item, box: Box, l: nat)
      returns (res: InsertResult, ghost left: seq<Item>, ghost right: seq<Item>)
      requires cap >= 2 && b in blocks && Allocated(blocks, nblocks)
      requires blocks[b].level == l && (blocks[b].leaf <==> l == 0) && |blocks[b].items| == cap
      modifies this`blocks, this`nblocks, this`chains
      ensures nblocks == old(nblocks) + 1
      ensures SplitInto(old(blocks), old(nblocks), b, l, left, right, blocks)
      ensures multiset(left) + multiset(right) == multiset(old(blocks)[b].items + [it])
      ensures var items := old(blocks)[b].items;
              DealtBy(PageBoxes(cd, items) + [box], splitPenalty, items + [it], left, right)
      ensures 0 < |left| <= cap && 0 < |right| <= cap
      ensures res == Result(true, old(nblocks), PageBox(cd, left), PageBox(cd, right))
      ensures old(Chains(blocks, chains)) ==> Chains(blocks, chains) && SameHeads(old(chains), chains)
    {
      hide Divided, CurrentOnly, SumsFit, MedianCut, Spread, CutAt, Partition, Chains, PageBox;
      var page, n := blocks[b], nblocks;
      var items, boxes := page.items + [it], PageBoxes(cd, page.items) + [box];
      var li, ri := Pick(boxes, splitPenalty);
      PartitionBounds(li, ri, |items|);
      GatherPartition(items, li, ri);
      var leftItems := FillPage(cap, items, li);
      var rightItems := FillPage(cap, items, ri);
      left, right := leftItems, rightItems;
      assert left == Gather(items, li) && right == Gather(items, ri);
      ghost var bs0 := blocks;
      nblocks := nblocks + 1;
      blocks := blocks[b := Page(leftItems, page.leaf, false, l, Some(n))]
                      [n := Page(rightItems, page.leaf, false, l, page.rightlink)];
      if Chains(bs0, chains) {
        chains := SplitChains(bs0, n, b, l, left, right, blocks, chains);
      }
      var leftBox := PageMbr(cd, leftItems);
      var rightBox := PageMbr(cd, rightItems);
      res := Result(true, n, leftBox, rightBox);
    }

    /** New tuples on a page, under the same header. */
    method WritePage(b: nat, items: seq<Item>)
      requires b in blocks
      modifies this`blocks
      ensures blocks == old(blocks)[b := old(blocks)[b].(items := items)]
      ensures old(Chains(blocks, chains)) ==> Chains(blocks, chains)
    {
      ghost var before := blocks;
      blocks := blocks[b := blocks[b].(items := items)];
      if Chains(before, chains) { KeepChains(before, blocks, chains); }
    }

    /** The staged tuples fit: write them, and report the page's box. */
    method InsertInPlace(b: nat, l: nat, items: seq<Item>, ghost it: Item, ghost bs0: Blocks, ghost n0: nat)
      returns (res: InsertResult)
      requires b in blocks && |items| <= cap
      requires Staged(cap, cd, bs0, n0, blocks, nblocks, b, l, it, items)
      modifies this`blocks
      ensures Inserted(cap, cd, bs0, n0, blocks, nblocks, b, l, it, res)
      ensures !res.split && Outside(old(blocks), blocks, [b])
      ensures old(Chains(blocks, chains)) ==> Chains(blocks, chains)
    {
      ghost var bs1 := blocks;
      WritePage(b, items);
      var mbr := PageMbr(cd, items);
      res := Result(false, 0, mbr, EMPTY_BOX);
      FinishInPlace(cap, cd, bs0, n0, bs1, nblocks, b, l, it, items, blocks, res);
    }

    /** The page is full: split it around the extra tuple. */
    method InsertSplitting(b: nat, l: nat, more: Item, box: Box, ghost it: Item, ghost bs0: Blocks, ghost n0: nat)
      returns (res: InsertResult)
      requires cap >= 2 && b in blocks && Allocated(blocks, nblocks)
      requires blocks[b].level == l && (blocks[b].leaf <==> l == 0) && |blocks[b].items| == cap
      requires Staged(cap, cd, bs0, n0, blocks, nblocks, b, l, it, blocks[b].items + [more])
      modifies this`blocks, this`nblocks, this`chains
      ensures Inserted(cap, cd, bs0, n0, blocks, nblocks, b, l, it, res)
      ensures res.split && Outside(old(blocks), blocks, [b])
      ensures old(Chains(blocks, chains)) ==> Chains(blocks, chains) && SameHeads(old(chains), chains)
    {
      hide Inserted, Staged;
      ghost var bs1, n1, left, right := blocks, nblocks, [], [];
      res, left, right := SplitPage(b, more, box, l);
      FinishSplit(cap, cd, bs0, n0, bs1, n1, b, l, it, bs1[b].items + [more], blocks, res, left, right);
    }

    /** `rtree_insert_page`. */
    method InsertPage(b: nat, l: nat, it: Item, box: Box) returns (res: InsertResult)
      requires cap >= 2 && Allocated(blocks, nblocks)
      requires Tree(cap, blocks, b, l) && Distinct(multiset(Nodes(blocks, b, l))) && (l > 0 ==> blocks[b].items != [])
      requires box == cd.dec(it.key)
      modifies this`blocks, this`nblocks, this`chains
      ensures Inserted(cap, cd, old(blocks), old(nblocks), blocks, nblocks, b, l, it, res)
      ensures res.split ==> |old(blocks)[b].items| == cap
      ensures old(Chains(blocks, chains)) ==> Chains(blocks, chains) && SameHeads(old(chains), chains)
      decreases l
    {
      if l == 0 || blocks[b].leaf {
        res := InsertLeaf(b, it, box);
      } else {
        res := InsertInner(b, l, it, box);
      }
    }

    /** `rtree_insert_leaf`. */
    method InsertLeaf(b: nat, it: Item, box: Box) returns (res: InsertResult)
      requires cap >= 2 && Allocated(blocks, nblocks)
      requires Tree(cap, blocks, b, 0) && Distinct(multiset(Nodes(blocks, b, 0))) && box == cd.dec(it.key)
      modifies this`blocks, this`nblocks, this`chains
      ensures Inserted(cap, cd, old(blocks), old(nblocks), blocks, nblocks, b, 0, it, res)
      ensures res.split <==> |old(blocks)[b].items| == cap
      ensures old(Chains(blocks, chains)) ==> Chains(blocks, chains) && SameHeads(old(chains), chains)
    {
      hide Inserted;
      if |blocks[b].items| < cap {
        res := InsertInPlace(b, 0, blocks[b].items + [it], it, blocks, nblocks);
      } else {
        res := InsertSplitting(b, 0, it, box, it, blocks, nblocks);
      }
    }

    /** The inner case of `rtree_insert_page`: descend, then bring the page up to
        date with what became of the child. */
    method InsertInner(b: nat, l: nat, it: Item, box: Box) returns (res: InsertResult)
      requires cap >= 2 && Allocated(blocks, nblocks) && l > 0
      requires Tree(cap, blocks, b, l) && Distinct(multiset(Nodes(blocks, b, l))) && blocks[b].items != []
      requires box == cd.dec(it.key)
      modifies this`blocks, this`nblocks, this`chains
      ensures Inserted(cap, cd, old(blocks), old(nblocks), blocks, nblocks, b, l, it, res)
      ensures res.split ==> |old(blocks)[b].items| == cap
      ensures DescendsInto(cd, old(blocks), blocks, b, l, cd.dec(it.key), worst, subtreePenalty)
      ensures old(Chains(blocks, chains)) ==> Chains(blocks, chains) && SameHeads(old(chains), chains)
      decreases l, 0
    {
      hide Inserted, Staged;
      ghost var bs0, n0 := blocks, nblocks;
      var items := blocks[b].items;
      var child := ChooseSubtree(cd, items, box, worst, subtreePenalty);
      ghost var best: nat :| best < |items| && items[best].tid.block == child.value &&
        Cheapest(cd, items, box, worst, subtreePenalty, best);
      var i := FindDownlink(items, child.value);
      assert ReadyChild(cap, bs0, b, l, i) by { ChildReady(cap, bs0, b, l, i); }
      var childRes := InsertPage(child.value, l - 1, it, box);
      ghost var bs1, n1 := blocks, nblocks;
      StageParent(cap, cd, bs0, n0, blocks, nblocks, b, l, i, it, childRes);
      res := UpdateParent(b, l, i, childRes, it, bs0, n0);
      InsertedOutside(cap, cd, bs0, n0, bs1, n1, b, l, best, it, childRes, blocks);
    }

    /** After the child: replace its downlink, add one for a new sibling. */
    method UpdateParent(b: nat, l: nat, i: nat, childRes: InsertResult,
                        ghost it: Item, ghost bs0: Blocks, ghost n0: nat)
      returns (res: InsertResult)
      requires cap >= 2 && l > 0 && b in bs0 && i < |bs0[b].items| <= cap
      requires Allocated(blocks, nblocks) && bs0[b].level == l && !bs0[b].leaf
      requires Staged(cap, cd, bs0, n0, blocks, nblocks, b, l, it, Relinked(cd, bs0[b].items, i, childRes))
      requires b in blocks && blocks[b] == bs0[b]
      modifies this`blocks, this`nblocks, this`chains
      ensures Inserted(cap, cd, bs0, n0, blocks, nblocks, b, l, it, res)
      ensures Outside(old(blocks), blocks, [b]) && (res.split <==> childRes.split && |bs0[b].items| == cap)
      ensures old(Chains(blocks, chains)) ==> Chains(blocks, chains) && SameHeads(old(chains), chains)
    {
      hide Inserted, Staged;
      ghost var bs1 := blocks;
      var items := blocks[b].items;
      var updated := items[..i] + [Item(cd.enc(childRes.leftBox), items[i].tid)] + items[i + 1..];
      if !childRes.split {
        assert updated == Relinked(cd, items, i, childRes);
        res := InsertInPlace(b, l, updated, it, bs0, n0);
      } else {
        var more := Item(cd.enc(childRes.rightBox), Tid(childRes.right, 1));
        WritePage(b, updated);
        assert updated + [more] == Relinked(cd, items, i, childRes);
        Restage(cap, cd, bs0, n0, bs1, nblocks, b, l, it, updated + [more], blocks, updated);
        if |updated| < cap {
          res := InsertInPlace(b, l, updated + [more], it, bs0, n0);
        } else {
          res := InsertSplitting(b, l, more, childRes.rightBox, it, bs0, n0);
        }
      }
    }

    /** `rtree_root_promote`, and the meta page update that follows it. */
    method PromoteRoot(res: InsertResult)
      requires Allocated(blocks, nblocks) && root in blocks && !blocks[root].root
      modifies this`blocks, this`nblocks, this`root, this`rootLevel
      ensures var page := Page(RootLinks(cd, old(root), res), false, true, old(rootLevel) + 1, None);
              blocks == old(blocks)[old(nblocks) := page]
      ensures nblocks == old(nblocks) + 1 && root == old(nblocks) && rootLevel == old(rootLevel) + 1
    {
      var n, left := nblocks, root;
      blocks := blocks[n := Page(RootLinks(cd, left, res), false, true, rootLevel + 1, None)];
      nblocks := nblocks + 1;
      blocks := blocks[left := blocks[left].(root := false)];
      root, rootLevel := n, rootLevel + 1;
    }

    /** `temporal_rtree_insert`. A null key is accepted and not indexed. */
    method Insert(key: Option<Cube>, tid: Tid) returns (done: bool)
      requires Valid()
      modifies this
      ensures done && Valid() && nblocks >= 2 && nblocks >= old(nblocks)
      ensures key.None? ==> Entries() == old(Entries())
      ensures key.Some? ==> multiset(Entries()) == multiset(old(Entries())) + multiset{Item(key.value, tid)}
      ensures Lawful(cd) && old(TightBoxes()) && (key.Some? ==> cd.good(cd.dec(key.value))) ==> TightBoxes()
      ensures old(Linked()) ==> Linked()
    {
      if nblocks < 2 {
        BuildEmpty();
      }
      done := true;
      if key.Some? {
        InsertTuple(Item(key.value, tid));
      }
    }

    method InsertTuple(it: Item)
      requires cap >= 2 && Rooted()
      modifies this
      ensures Rooted() && nblocks >= old(nblocks)
      ensures multiset(Entries()) == multiset(old(Entries())) + multiset{it}
      ensures Lawful(cd) && old(TightBoxes()) && Good(cd, it) ==> TightBoxes()
      ensures old(Linked()) ==> Linked()
    {
      hide Inserted, IsRooted, Lawful, Tight, Nodes, Leaves, Tree, Chains;
      ghost var bs0, n0, b, l, chains0 := blocks, nblocks, root, rootLevel, chains;
      RootedParts(cap, blocks, nblocks, b, l);
      var res := InsertPage(root, rootLevel, it, cd.dec(it.key));
      ghost var bs1, n1 := blocks, nblocks;
      if res.split {
        ghost var top := Page(RootLinks(cd, b, res), false, true, l + 1, None);
        Promoted(cap, cd, bs0, n0, bs1, n1, b, l, it, res, bs1[n1 := top]);
        PromoteRoot(res);
        PromotedLeaves(cap, cd, bs0, n0, bs1, n1, b, l, it, res, blocks);
        if AllLinked(bs0, chains0, b, l) {
          PromotedLinks(cap, cd, bs0, n0, bs1, n1, b, l, it, res, blocks, chains);
          chains := chains + [[n1]];
        }
      } else {
        InsertedInRoot(cap, cd, bs0, n0, bs1, n1, b, l, it, res);
        if AllLinked(bs0, chains0, b, l) { InsertedLinks(cap, cd, bs0, n0, bs1, n1, b, l, it, res, chains); }
      }
    }

    /** The leaf half of `rtree_vacuum_page`: the tuples the callback spares. */
    method SweepTuples(items: seq<Item>, dead: Option<Tid -> bool>, stats: Stats)
      returns (kept: seq<Item>, boxes: seq<Box>)
      modifies stats
      ensures kept == Filter(items, Keep(dead)) && boxes == PageBoxes(cd, kept)
      ensures forall x :: multiset(kept)[x] == if dead.Some? && dead.value(x.tid) then 0 else multiset(items)[x]
      ensures stats.numIndexTuples == old(stats.numIndexTuples) + |kept|
      ensures stats.tuplesRemoved == old(stats.tuplesRemoved) + |items| - |kept|
      ensures stats.pagesDeleted == old(stats.pagesDeleted)
      ensures stats.pagesNewlyDeleted == old(stats.pagesNewlyDeleted) && stats.numPages == old(stats.numPages)
    {
      kept, boxes := [], [];
      for i := 0 to |items|
        invariant kept == Filter(items[..i], Keep(dead)) && |boxes| == |kept|
        invariant forall j :: 0 <= j < |kept| ==> boxes[j] == cd.dec(kept[j].key)
        invariant stats.numIndexTuples == old(stats.numIndexTuples) + |kept|
        invariant stats.tuplesRemoved == old(stats.tuplesRemoved) + i - |kept|
        invariant stats.pagesDeleted == old(stats.pagesDeleted)
        invariant stats.pagesNewlyDeleted == old(stats.pagesNewlyDeleted) && stats.numPages == old(stats.numPages)
      {
        FilterSnoc(items, i, Keep(dead));
        if dead.Some? && dead.value(items[i].tid) {
          stats.tuplesRemoved := stats.tuplesRemoved + 1;
        } else {
          kept, boxes := kept + [items[i]], boxes + [cd.dec(items[i].key)];
          stats.numIndexTuples := stats.numIndexTuples + 1;
        }
      }
      assert items[..|items|] == items;
      KeptAre(items, dead);
    }

    /** `rtree_vacuum_page`. */
    method SweepPage(b: nat, ghost l: nat, dead: Option<Tid -> bool>, stats: Stats) returns (empty: bool, box: Box)
      requires Tree(cap, blocks, b, l) && Distinct(multiset(Nodes(blocks, b, l)))
      modifies this`blocks, stats
      ensures Swept(cap, old(blocks), blocks, b, l, Keep(dead))
      ensures forall x :: multiset(Leaves(blocks, b, l))[x] ==
                if dead.Some? && dead.value(x.tid) then 0 else multiset(Leaves(old(blocks), b, l))[x]
      ensures empty <==> blocks[b].items == []
      ensures Lawful(cd) && KeptGood(cd, Leaves(old(blocks), b, l), Keep(dead)) ==>
              Tight(cd, blocks, b, l) && (!empty ==> box == PageBox(cd, blocks[b].items))
      ensures stats.numIndexTuples == old(stats.numIndexTuples) + |Leaves(blocks, b, l)| + |Nodes(blocks, b, l)| - 1
      ensures stats.tuplesRemoved == old(stats.tuplesRemoved) + |Leaves(old(blocks), b, l)| - |Leaves(blocks, b, l)|
      ensures stats.pagesDeleted == old(stats.pagesDeleted) + |Nodes(old(blocks), b, l)| - |Nodes(blocks, b, l)| +
              if empty then 1 else 0
      ensures stats.pagesNewlyDeleted - old(stats.pagesNewlyDeleted) == stats.pagesDeleted - old(stats.pagesDeleted)
      ensures stats.numPages == old(stats.numPages)
      decreases l, 2
    {
      hide Lawful, KeptGood, Sweeping, Swept, Tight, TightKids, ReadBack, PageBox, Nodes, Leaves;
      ghost var bs0 := blocks;
      var kept, boxes;
      if blocks[b].leaf {
        kept, boxes := SweepTuples(blocks[b].items, dead, stats);
        blocks := blocks[b := blocks[b].(items := kept)];
        SweepLeaf(cap, cd, bs0, blocks, b, Keep(dead));
      } else {
        kept, boxes := SweepKids(b, l, dead, stats);
        ghost var bs1 := blocks;
        blocks := blocks[b := blocks[b].(items := kept)];
        SweepInner(cap, cd, bs0, bs1, blocks, b, l, kept, Keep(dead));
      }
      box := Aggregate(boxes);
      empty := kept == [];
      SweptKept(cap, bs0, blocks, b, l, dead);
      if Lawful(cd) && KeptGood(cd, Leaves(bs0, b, l), Keep(dead)) {
        if l == 0 { LeafReadBack(cd, bs0[b].items, Keep(dead)); }
        AggregateIsBox(cd, kept, boxes, box);
      }
      if empty {
        stats.pagesDeleted := stats.pagesDeleted + 1;
        stats.pagesNewlyDeleted := stats.pagesNewlyDeleted + 1;
      }
    }

    /** The inner half of `rtree_vacuum_page`: sweep every child, keep a fresh
        downlink to each one that is not empty afterwards. */
    method SweepKids(b: nat, ghost l: nat, dead: Option<Tid -> bool>, stats: Stats)
      returns (kept: seq<Item>, boxes: seq<Box>)
      requires Tree(cap, blocks, b, l) && Distinct(multiset(Nodes(blocks, b, l))) && l > 0
      modifies this`blocks, stats
      ensures b in blocks && blocks[b] == old(blocks)[b]
      ensures Sweeping(cap, old(blocks), blocks, old(blocks)[b].items, l - 1, kept, Keep(dead))
      ensures Lawful(cd) && KeptGood(cd, Leaves(old(blocks), b, l), Keep(dead)) ==>
              TightKids(cd, blocks, kept, l - 1) && ReadBack(cd, kept, boxes)
      ensures |boxes| == |kept|
      ensures stats.numIndexTuples == old(stats.numIndexTuples) + |FlatMap(kept, LeavesOf(blocks, l - 1))| +
              |FlatMap(kept, NodesOf(blocks, l - 1))|
      ensures stats.tuplesRemoved == old(stats.tuplesRemoved) +
              |Leaves(old(blocks), b, l)| - |FlatMap(kept, LeavesOf(blocks, l - 1))|
      ensures stats.pagesDeleted == old(stats.pagesDeleted) +
              |Nodes(old(blocks), b, l)| - 1 - |FlatMap(kept, NodesOf(blocks, l - 1))|
      ensures stats.pagesNewlyDeleted - old(stats.pagesNewlyDeleted) == stats.pagesDeleted - old(stats.pagesDeleted)
      ensures stats.numPages == old(stats.numPages)
      decreases l, 1
    {
      ghost var bs0, n0, r0, p0, q0 := blocks, stats.numIndexTuples, stats.tuplesRemoved, stats.pagesDeleted,
        stats.pagesNewlyDeleted;
      ghost var good := Lawful(cd) && KeptGood(cd, Leaves(blocks, b, l), Keep(dead));
      var items := blocks[b].items;
      kept, boxes := [], [];
      for i := 0 to |items|
        invariant Sweeping(cap, bs0, blocks, items[..i], l - 1, kept, Keep(dead)) && |boxes| == |kept|
        invariant good ==> TightKids(cd, blocks, kept, l - 1) && ReadBack(cd, kept, boxes)
        invariant Tally(bs0, blocks, items[..i], l - 1, kept,
                        stats.numIndexTuples - n0, stats.tuplesRemoved - r0, stats.pagesDeleted - p0)
        invariant stats.pagesNewlyDeleted - q0 == stats.pagesDeleted - p0 && stats.numPages == old(stats.numPages)
      {
        kept, boxes := SweepNext(b, l, items, i, kept, boxes, dead, stats, bs0, n0, r0, p0, q0);
      }
      assert items[..|items|] == items;
      DistinctSplit([b], FlatMap(items, NodesOf(bs0, l - 1)));
    }

    method SweepNext(ghost b: nat, ghost l: nat, items: seq<Item>, i: nat, kept: seq<Item>, boxes: seq<Box>,
                     dead: Option<Tid -> bool>, stats: Stats,
                     ghost bs0: Blocks, ghost n0: nat, ghost r0: nat, ghost p0: nat, ghost q0: nat)
      returns (kept': seq<Item>, boxes': seq<Box>)
      requires Tree(cap, bs0, b, l) && Distinct(multiset(Nodes(bs0, b, l))) && l > 0 && items == bs0[b].items
      requires i < |items|
      requires Sweeping(cap, bs0, blocks, items[..i], l - 1, kept, Keep(dead)) && |boxes| == |kept|
      requires Lawful(cd) && KeptGood(cd, Leaves(bs0, b, l), Keep(dead)) ==>
               TightKids(cd, blocks, kept, l - 1) && ReadBack(cd, kept, boxes)
      requires Tally(bs0, blocks, items[..i], l - 1, kept,
                     stats.numIndexTuples - n0, stats.tuplesRemoved - r0, stats.pagesDeleted - p0)
      requires stats.pagesNewlyDeleted - q0 == stats.pagesDeleted - p0
      modifies this`blocks, stats
      ensures Sweeping(cap, bs0, blocks, items[..i + 1], l - 1, kept', Keep(dead)) && |boxes'| == |kept'|
      ensures Lawful(cd) && KeptGood(cd, Leaves(bs0, b, l), Keep(dead)) ==>
              TightKids(cd, blocks, kept', l - 1) && ReadBack(cd, kept', boxes')
      ensures Tally(bs0, blocks, items[..i + 1], l - 1, kept',
                    stats.numIndexTuples - n0, stats.tuplesRemoved - r0, stats.pagesDeleted - p0)
      ensures stats.pagesNewlyDeleted - q0 == stats.pagesDeleted - p0 && stats.numPages == old(stats.numPages)
      decreases l, 0
    {
      hide Sweeping, Swept, Tally, Tight, TightKids, ReadBack, Lawful, KeptGood, Nodes, Leaves;
      ghost var bs1, done, n1, r1, p1 := blocks, items[..i], stats.numIndexTuples, stats.tuplesRemoved,
        stats.pagesDeleted;
      var c := items[i].tid.block;
      ChildReady(cap, bs0, b, l, i);
      ChildApart(bs0, b, l, i);
      Unswept(cap, cd, bs0, bs1, done, l - 1, items[i], kept, Keep(dead));
      var childEmpty, childBox := SweepPage(c, l - 1, dead, stats);
      var link := Item(cd.enc(childBox), Tid(c, 1));
      kept', boxes' := kept, boxes;
      if !childEmpty {
        kept', boxes' := kept + [link], boxes + [childBox];
        stats.numIndexTuples := stats.numIndexTuples + 1;
      }
      assert items[..i + 1] == done + [items[i]];
      SweepChild(cap, cd, bs0, bs1, blocks, done, l - 1, items[i], kept, kept', Keep(dead), link);
      TallyChild(cap, cd, bs0, bs1, blocks, done, l - 1, items[i], kept, kept', Keep(dead), link,
                 n1 - n0, r1 - r0, p1 - p0,
                 stats.numIndexTuples - n0, stats.tuplesRemoved - r0, stats.pagesDeleted - p0);
      if Lawful(cd) && KeptGood(cd, Leaves(bs0, b, l), Keep(dead)) {
        KeptGoodChild(cd, bs0, b, l, items[i], Keep(dead));
        TightLink(cap, cd, bs0, bs1, blocks, done, l - 1, c, kept, boxes, Keep(dead), childBox);
      }
    }

    /** `rtree_vacuum_shrink_root`. */
    method ShrinkRoot() returns (changed: bool)
      requires cap >= 2 && Settled(cap, blocks, nblocks, root, rootLevel)
      modifies this`blocks, this`rootLevel
      ensures Rooted() && Entries() == Leaves(old(blocks), old(root), old(rootLevel))
      ensures Tight(cd, old(blocks), old(root), old(rootLevel)) ==> TightBoxes()
      ensures changed <==> old(rootLevel > 0 && |blocks[root].items| <= 1)
      ensures changed ==> rootLevel < old(rootLevel)
      ensures !changed ==> blocks == old(blocks) && rootLevel == old(rootLevel)
      ensures |Nodes(blocks, root, rootLevel)| ==
              |Nodes(old(blocks), root, old(rootLevel))| - if changed && old(blocks)[root].items != [] then 1 else 0
    {
      ghost var bs0, l := blocks, rootLevel;
      changed := false;
      if blocks[root].leaf || rootLevel == 0 {
      } else if |blocks[root].items| == 0 {
        blocks := blocks[root := Page([], true, true, 0, None)];
        rootLevel := 0;
        changed := true;
        EmptiedRoot(cap, bs0, nblocks, root, l, blocks);
      } else if |blocks[root].items| == 1 {
        var child := blocks[root].items[0].tid.block;
        ChildIsKid(cap, bs0, root, l, 0);
        blocks := blocks[root := blocks[child].(root := true)];
        rootLevel := blocks[child].level;
        changed := true;
        AbsorbedChild(cap, cd, bs0, nblocks, root, l, blocks);
      }
    }

    /** `temporal_rtree_bulkdelete`. The tuple statistic counts kept downlinks as
        well as leaf tuples; a root that takes over its only child has one
        downlink fewer afterwards. */
    method BulkDelete(dead: Option<Tid -> bool>, stats: Stats)
      requires Valid()
      modifies this, stats
      ensures Valid() && nblocks == old(nblocks) && root == old(root) && rootLevel <= old(rootLevel)
      ensures Entries() == Filter(old(Entries()), Keep(dead))
      ensures forall x :: multiset(Entries())[x] ==
                if dead.Some? && dead.value(x.tid) then 0 else multiset(old(Entries()))[x]
      ensures dead.None? ==> Entries() == old(Entries())
      ensures Lawful(cd) && KeptGood(cd, old(Entries()), Keep(dead)) ==> TightBoxes()
      ensures stats.numPages == nblocks
      ensures stats.tuplesRemoved == old(stats.tuplesRemoved) + |old(Entries())| - |Entries()|
      ensures nblocks != 0 ==>
              var absorbed := if rootLevel < old(rootLevel) && Entries() != [] then 1 else 0;
              stats.numIndexTuples == |Entries()| + Downlinks() + absorbed &&
              stats.pagesDeleted == old(Downlinks()) - Downlinks() - absorbed + if Entries() == [] then 1 else 0
    {
      hide Lawful, KeptGood, Tight, IsRooted, Settled, Swept, Tree, Nodes, Leaves;
      stats.numPages, stats.numIndexTuples, stats.pagesDeleted := nblocks, 0, 0;
      if nblocks != 0 { RootedParts(cap, blocks, nblocks, root, rootLevel); }
      if nblocks < 2 {
        return;
      }
      ghost var bs0, l := blocks, rootLevel;
      var empty, box := SweepPage(root, rootLevel, dead, stats);
      SweptRoot(cap, bs0, nblocks, blocks, root, l, Keep(dead));
      var changed := ShrinkRoot();
      if dead.None? { FilterAll(Leaves(bs0, root, l), Keep(dead)); }
      KeptAre(Leaves(bs0, root, l), dead);
    }

    /** How many downlinks the tree has: one to each block below the root. */
    ghost function Downlinks(): int
      reads this
    {
      |Nodes(blocks, root, rootLevel)| - 1
    }

    /** `temporal_rtree_build`: one insertion per heap row. The tuple count it
        returns includes rows whose key is null. */
    method Build(rows: seq<Row>) returns (indexTuples: nat)
      requires cap >= 2 && nblocks == 0
      modifies this
      ensures Valid() && nblocks >= 2 && Linked()
      ensures multiset(Entries()) == multiset(RowItems(rows)) && indexTuples == |rows|
      ensures Lawful(cd) && (forall it :: it in RowItems(rows) ==> Good(cd, it)) ==> TightBoxes()
    {
      hide IsRooted, AllLinked, Tight, Leaves, Lawful, RowItems;
      ghost var good := Lawful(cd) && (forall it :: it in RowItems(rows) ==> Good(cd, it));
      BuildEmpty();
      indexTuples := 0;
      assert RowItems(rows[..0]) == [] by { NoRows(); }
      for i := 0 to |rows|
        invariant Valid() && nblocks >= 2 && Linked() && indexTuples == i
        invariant multiset(Entries()) == multiset(RowItems(rows[..i]))
        invariant good ==> TightBoxes()
      {
        RowItemsSnoc(rows, i);
        assert rows[i].key.Some? ==> Item(rows[i].key.value, rows[i].tid) in RowItem(rows[i]);
        var done := Insert(rows[i].key, rows[i].tid);
        if done {
          indexTuples := indexTuples + 1;
        }
      }
      assert rows[..|rows|] == rows;
    }
  }

  /** A heap row as the index sees it. */
  datatype Row = Row(key: Option<Cube>, tid: Tid)

  function RowItem(r: Row): seq<Item> { if r.key.Some? then [Item(r.key.value, r.tid)] else [] }

  /** The tuples that rows with a key give rise to. */
  function RowItems(rows: seq<Row>): seq<Item> { FlatMap(rows, RowItem) }

  lemma NoRows()
    ensures RowItems([]) == []
  {
  }

  lemma RowItemsSnoc(rows: seq<Row>, i: nat)
    requires i < |rows|
    ensures RowItems(rows[..i + 1]) == RowItems(rows[..i]) + RowItem(rows[i])
    ensures forall it :: it in RowItem(rows[i]) ==> it in RowItems(rows)
  {
    FlatMapAt(rows, i, RowItem);
    FlatMapPart(rows, RowItem, rows[i]);
  }

  // ------------------------------------------------------------ serial runs

  datatype Op = InsertOp(key: Option<Cube>, tid: Tid) | DeleteOp(dead: Option<Tid -> bool>)

  /** How often a plain bag that held `x` `before` times holds it after `op`. */
  ghost function Effect(op: Op, x: Item, before: nat): nat
  {
    match op
    case InsertOp(key, tid) => if key == Some(x.key) && tid == x.tid then before + 1 else before
    case DeleteOp(dead) => if dead.Some? && dead.value(x.tid) then 0 else before
  }

  ghost function Count(base: multiset<Item>, ops: seq<Op>, x: Item): nat
  {
    if ops == [] then base[x] else Effect(ops[|ops| - 1], x, Count(base, ops[..|ops| - 1], x))
  }

  ghost predicate GoodOp(cd: Codec, op: Op)
  {
    op.InsertOp? && op.key.Some? ==> cd.good(cd.dec(op.key.value))
  }

  ghost predicate GoodOps(cd: Codec, ops: seq<Op>) { forall i :: 0 <= i < |ops| ==> GoodOp(cd, ops[i]) }

  ghost predicate AllGood(cd: Codec, entries: seq<Item>) { forall x :: x in entries ==> Good(cd, x) }

  method Apply(index: Index, op: Op)
    requires index.Valid()
    modifies index
    ensures index.Valid() && index.nblocks >= old(index.nblocks)
    ensures forall x :: multiset(index.Entries())[x] == Effect(op, x, multiset(old(index.Entries()))[x])
    ensures Lawful(index.cd) && GoodOp(index.cd, op) && old(index.WellBoxed()) ==> index.WellBoxed()
    ensures old(index.Linked()) && op.InsertOp? ==> index.Linked()
  {
    hide IsRooted, AllLinked, Tight, Leaves, Lawful, Filter;
    ghost var before := index.Entries();
    match op
    case InsertOp(key, tid) =>
      var done := index.Insert(key, tid);
      InsertMembers(before, index.Entries(), key, tid);
    case DeleteOp(dead) =>
      var stats := new Stats();
      index.BulkDelete(dead, stats);
      FilterMultiset(before, Keep(dead));
      FilterMembers(before, Keep(dead));
  }

  /** Any serial run of inserts and bulk deletes: the tree stays well formed and
      holds exactly the plain bag; its boxes stay tight while every key's box
      survives storage; its chains stay whole while nothing is deleted. */
  method Run(index: Index, ops: seq<Op>)
    requires index.Valid()
    modifies index
    ensures index.Valid() && index.nblocks >= old(index.nblocks)
    ensures forall x :: multiset(index.Entries())[x] == Count(multiset(old(index.Entries())), ops, x)
    ensures Lawful(index.cd) && GoodOps(index.cd, ops) && old(index.WellBoxed()) ==> index.WellBoxed()
    ensures old(index.Linked()) && (forall i :: 0 <= i < |ops| ==> ops[i].InsertOp?) ==> index.Linked()
  {
    hide IsRooted, AllLinked, Tight, Leaves, Lawful, AllGood, GoodOp, Effect;
    ghost var base := multiset(index.Entries());
    for i := 0 to |ops|
      invariant index.Valid() && index.nblocks >= old(index.nblocks)
      invariant forall x :: multiset(index.Entries())[x] == Count(base, ops[..i], x)
      invariant Lawful(index.cd) && GoodOps(index.cd, ops[..i]) && old(index.WellBoxed()) ==> index.WellBoxed()
      invariant old(index.Linked()) && (forall j :: 0 <= j < i ==> ops[j].InsertOp?) ==> index.Linked()
    {
      assert ops[..i + 1][..i] == ops[..i];
      Apply(index, ops[i]);
    }
    assert ops[..|ops|] == ops;
  }

  lemma InsertMembers(before: seq<Item>, after: seq<Item>, key: Option<Cube>, tid: Tid)
    requires key.None? ==> after == before
    requires key.Some? ==> multiset(after) == multiset(before) + multiset{Item(key.value, tid)}
    ensures forall x :: x in after <==> x in before || (key == Some(x.key) && tid == x.tid)
    ensures forall x :: multiset(after)[x] == multiset(before)[x] + if key == Some(x.key) && tid == x.tid then 1 else 0
  {
    forall x ensures x in after <==> x in before || (key == Some(x.key) && tid == x.tid) {
      assert x in after <==> x in multiset(after);
    }
  }
}
