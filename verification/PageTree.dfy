/** The paged tree: blocks that hold tuples and downlinks, and what the pages
    below a block stand for. */
module PageTree {
  import opened Common
  import opened Boxes
  import opened Flatten

  datatype Item = Item(key: Cube, tid: Tid)

  datatype Page = Page(items: seq<Item>, leaf: bool, root: bool, level: nat, rightlink: Option<nat>)

  type Blocks = map<nat, Page>

  /** How boxes are stored in tuples: the two conversions, and the boxes the
      round trip is relied on for. */
  datatype Codec = Codec(enc: Box -> Cube, dec: Cube -> Box, good: Box -> bool)

  ghost predicate Lawful(cd: Codec)
  {
    (forall b :: cd.good(b) ==> !b.empty && cd.dec(cd.enc(b)) == b) &&
    (forall a, b {:trigger cd.good(Union(a, b))} :: cd.good(a) && cd.good(b) ==> cd.good(Union(a, b)))
  }

  // ------------------------------------------------- what a block stands for

  /** The blocks below `b`, `b` first. */
  ghost function Nodes(bs: Blocks, b: nat, l: nat): seq<nat>
    decreases l, 0
  {
    if l == 0 || b !in bs then [b] else [b] + FlatMap(bs[b].items, NodesOf(bs, l - 1))
  }

  ghost function NodesOf(bs: Blocks, l: nat): Item -> seq<nat>
    decreases l, 1
  {
    (it: Item) => Nodes(bs, it.tid.block, l)
  }

  /** The leaf tuples below `b`, left to right. */
  ghost function Leaves(bs: Blocks, b: nat, l: nat): seq<Item>
    decreases l, 0
  {
    if b !in bs then []
    else if l == 0 then bs[b].items
    else FlatMap(bs[b].items, LeavesOf(bs, l - 1))
  }

  ghost function LeavesOf(bs: Blocks, l: nat): Item -> seq<Item>
    decreases l, 1
  {
    (it: Item) => Leaves(bs, it.tid.block, l)
  }

  // -------------------------------------------------------------- invariants

  /** A height-balanced subtree: each downlink drops one level, a page is a leaf
      exactly at level 0, and pages below the top are neither empty nor root. */
  ghost predicate Tree(cap: nat, bs: Blocks, b: nat, l: nat)
    decreases l, 0
  {
    b in bs && bs[b].level == l && (bs[b].leaf <==> l == 0) && |bs[b].items| <= cap &&
    (l > 0 ==> forall it :: it in bs[b].items ==> Kid(cap, bs, it, l - 1))
  }

  ghost predicate Kid(cap: nat, bs: Blocks, it: Item, l: nat)
    decreases l, 1
  {
    Tree(cap, bs, it.tid.block, l) && bs[it.tid.block].items != [] && !bs[it.tid.block].root
  }

  function PageBoxes(cd: Codec, items: seq<Item>): (boxes: seq<Box>)
    ensures |boxes| == |items|
    ensures forall i :: 0 <= i < |items| ==> boxes[i] == cd.dec(items[i].key)
  {
    seq(|items|, i requires 0 <= i < |items| => cd.dec(items[i].key))
  }

  function PageBox(cd: Codec, items: seq<Item>): Box { Mbr(PageBoxes(cd, items)) }

  ghost predicate Good(cd: Codec, it: Item) { cd.good(cd.dec(it.key)) }

  /** Every downlink's box is the box of the page it points to. */
  ghost predicate Tight(cd: Codec, bs: Blocks, b: nat, l: nat)
    decreases l, 0
  {
    b in bs &&
    if l == 0 then forall it :: it in bs[b].items ==> Good(cd, it)
    else forall it :: it in bs[b].items ==> TightKid(cd, bs, it, l - 1)
  }

  ghost predicate TightKid(cd: Codec, bs: Blocks, it: Item, l: nat)
    decreases l, 1
  {
    it.tid.block in bs && bs[it.tid.block].items != [] &&
    it.key == cd.enc(PageBox(cd, bs[it.tid.block].items)) && cd.dec(it.key) == PageBox(cd, bs[it.tid.block].items) &&
    Tight(cd, bs, it.tid.block, l)
  }

  ghost predicate Same(bs: Blocks, bs': Blocks, s: seq<nat>)
  {
    forall x :: x in s ==> x in bs && x in bs' && bs[x] == bs'[x]
  }

  /** Nothing outside the listed blocks changed or went away. */
  ghost predicate Outside(bs: Blocks, bs': Blocks, s: seq<nat>)
  {
    forall x :: x in bs && x !in s ==> x in bs' && bs'[x] == bs[x]
  }

  // ------------------------------------------------------------------ frames

  lemma {:induction false} NodesAllocated(cap: nat, bs: Blocks, b: nat, l: nat)
    requires Tree(cap, bs, b, l)
    ensures forall x :: x in Nodes(bs, b, l) ==> x in bs && bs[x].level <= l
    ensures b in Nodes(bs, b, l)
    decreases l
  {
    if l > 0 {
      forall x | x in Nodes(bs, b, l) ensures x in bs && bs[x].level <= l {
        if x != b {
          FlatMapIn(bs[b].items, NodesOf(bs, l - 1), x);
          var it :| it in bs[b].items && x in NodesOf(bs, l - 1)(it);
          NodesAllocated(cap, bs, it.tid.block, l - 1);
        }
      }
    }
  }

  /** What a subtree stands for depends only on its own blocks. */
  lemma {:induction false} Frame(cap: nat, cd: Codec, bs: Blocks, bs': Blocks, b: nat, l: nat)
    requires Tree(cap, bs, b, l) && Same(bs, bs', Nodes(bs, b, l))
    ensures Tree(cap, bs', b, l)
    ensures Nodes(bs', b, l) == Nodes(bs, b, l) && Leaves(bs', b, l) == Leaves(bs, b, l)
    ensures Tight(cd, bs, b, l) ==> Tight(cd, bs', b, l)
    decreases l, 0
  {
    NodesAllocated(cap, bs, b, l);
    if l > 0 {
      ForestFrame(cap, cd, bs, bs', bs[b].items, l - 1);
    }
  }

  ghost predicate Kids(cap: nat, bs: Blocks, items: seq<Item>, l: nat)
  {
    forall it :: it in items ==> Kid(cap, bs, it, l)
  }

  ghost predicate TightKids(cd: Codec, bs: Blocks, items: seq<Item>, l: nat)
  {
    forall it :: it in items ==> TightKid(cd, bs, it, l)
  }

  lemma {:induction false} ForestFrame(cap: nat, cd: Codec, bs: Blocks, bs': Blocks, items: seq<Item>, l: nat)
    requires Kids(cap, bs, items, l) && Same(bs, bs', FlatMap(items, NodesOf(bs, l)))
    ensures Kids(cap, bs', items, l)
    ensures FlatMap(items, NodesOf(bs', l)) == FlatMap(items, NodesOf(bs, l))
    ensures FlatMap(items, LeavesOf(bs', l)) == FlatMap(items, LeavesOf(bs, l))
    ensures forall it :: it in items && TightKid(cd, bs, it, l) ==> TightKid(cd, bs', it, l)
    decreases l, 1
  {
    forall it | it in items
      ensures Kid(cap, bs', it, l) && NodesOf(bs', l)(it) == NodesOf(bs, l)(it)
      ensures LeavesOf(bs', l)(it) == LeavesOf(bs, l)(it)
      ensures TightKid(cd, bs, it, l) ==> TightKid(cd, bs', it, l)
    {
      FlatMapPart(items, NodesOf(bs, l), it);
      NodesAllocated(cap, bs, it.tid.block, l);
      Frame(cap, cd, bs, bs', it.tid.block, l);
    }
    FlatMapEq(items, NodesOf(bs', l), NodesOf(bs, l));
    FlatMapEq(items, LeavesOf(bs', l), LeavesOf(bs, l));
  }

  lemma KidsAllocated(cap: nat, bs: Blocks, items: seq<Item>, l: nat)
    requires Kids(cap, bs, items, l)
    ensures forall x :: x in FlatMap(items, NodesOf(bs, l)) ==> x in bs
  {
    forall x | x in FlatMap(items, NodesOf(bs, l)) ensures x in bs {
      FlatMapIn(items, NodesOf(bs, l), x);
      var it :| it in items && x in NodesOf(bs, l)(it);
      NodesAllocated(cap, bs, it.tid.block, l);
    }
  }

  /** A page written over finished children stands for them. */
  lemma Install(cap: nat, cd: Codec, bs: Blocks, bs': Blocks, b: nat, l: nat)
    requires l > 0 && b in bs' && bs'[b].level == l && !bs'[b].leaf && |bs'[b].items| <= cap
    requires Kids(cap, bs, bs'[b].items, l - 1) && Same(bs, bs', FlatMap(bs'[b].items, NodesOf(bs, l - 1)))
    ensures Tree(cap, bs', b, l)
    ensures Nodes(bs', b, l) == [b] + FlatMap(bs'[b].items, NodesOf(bs, l - 1))
    ensures Leaves(bs', b, l) == FlatMap(bs'[b].items, LeavesOf(bs, l - 1))
    ensures TightKids(cd, bs, bs'[b].items, l - 1) ==> Tight(cd, bs', b, l)
  {
    ForestFrame(cap, cd, bs, bs', bs'[b].items, l - 1);
  }

  // ------------------------------------------------------------- tight boxes

  /** On a tight page every box survives storage. */
  lemma {:induction false} TightIsGood(cd: Codec, bs: Blocks, b: nat, l: nat)
    requires Lawful(cd) && Tight(cd, bs, b, l)
    ensures forall it :: it in bs[b].items ==> Good(cd, it)
    decreases l
  {
    if l > 0 {
      forall it | it in bs[b].items ensures Good(cd, it) {
        TightIsGood(cd, bs, it.tid.block, l - 1);
        PageBoxGood(cd, bs[it.tid.block].items);
      }
    }
  }

  lemma {:induction false} MbrGood(cd: Codec, boxes: seq<Box>)
    requires Lawful(cd) && boxes != [] && forall i :: 0 <= i < |boxes| ==> cd.good(boxes[i])
    ensures cd.good(Mbr(boxes))
  {
    if |boxes| > 1 {
      MbrGood(cd, boxes[..|boxes| - 1]);
      assert cd.good(Union(Mbr(boxes[..|boxes| - 1]), boxes[|boxes| - 1]));
    }
  }

  lemma PageBoxGood(cd: Codec, items: seq<Item>)
    requires Lawful(cd) && items != [] && forall it :: it in items ==> Good(cd, it)
    ensures cd.good(PageBox(cd, items))
  {
    forall i | 0 <= i < |items| ensures cd.good(PageBoxes(cd, items)[i]) { assert items[i] in items; }
    MbrGood(cd, PageBoxes(cd, items));
  }

  lemma PageBoxContains(cd: Codec, items: seq<Item>, it: Item)
    requires Lawful(cd) && it in items && forall x :: x in items ==> Good(cd, x)
    ensures BoxContains(PageBox(cd, items), cd.dec(it.key))
  {
    var boxes := PageBoxes(cd, items);
    forall b | b in boxes ensures !b.empty {
      var i :| 0 <= i < |items| && boxes[i] == b;
      assert Good(cd, items[i]);
    }
    MbrIsLeast(boxes);
    var i :| 0 <= i < |items| && items[i] == it;
    assert boxes[i] in boxes;
  }

  /** A downlink formed from a page's box is tight for that page. */
  lemma FormedIsTight(cd: Codec, bs: Blocks, it: Item, l: nat)
    requires Lawful(cd) && Tight(cd, bs, it.tid.block, l) && bs[it.tid.block].items != []
    requires it.key == cd.enc(PageBox(cd, bs[it.tid.block].items))
    ensures TightKid(cd, bs, it, l)
  {
    TightIsGood(cd, bs, it.tid.block, l);
    PageBoxGood(cd, bs[it.tid.block].items);
  }

  lemma TightPageContains(cd: Codec, bs: Blocks, b: nat, l: nat, it: Item)
    requires Lawful(cd) && Tight(cd, bs, b, l) && it in bs[b].items
    ensures BoxContains(PageBox(cd, bs[b].items), cd.dec(it.key))
  {
    TightIsGood(cd, bs, b, l);
    PageBoxContains(cd, bs[b].items, it);
  }

  /** A tight downlink's box contains the box of every leaf tuple below it. */
  lemma {:induction false} TightContains(cd: Codec, bs: Blocks, it: Item, l: nat, leaf: Item)
    requires Lawful(cd) && TightKid(cd, bs, it, l) && leaf in Leaves(bs, it.tid.block, l)
    ensures BoxContains(cd.dec(it.key), cd.dec(leaf.key))
    decreases l
  {
    var items := bs[it.tid.block].items;
    if l == 0 {
      TightPageContains(cd, bs, it.tid.block, l, leaf);
    } else {
      FlatMapIn(items, LeavesOf(bs, l - 1), leaf);
      var kid :| kid in items && leaf in LeavesOf(bs, l - 1)(kid);
      TightContains(cd, bs, kid, l - 1, leaf);
      TightPageContains(cd, bs, it.tid.block, l, kid);
      ContainsTrans(cd.dec(it.key), cd.dec(kid.key), cd.dec(leaf.key));
    }
  }

  lemma ContainsTrans(a: Box, b: Box, c: Box)
    requires BoxContains(a, b) && BoxContains(b, c)
    ensures BoxContains(a, c)
  {
  }
}
