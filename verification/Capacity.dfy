/** When counting tuples is the same as counting bytes. */
module Capacity {
  import opened Common
  import opened Boxes
  import opened Flatten
  import opened PickSplit
  import opened PageTree
  import SplitFit
  import opened Pruning
  import opened RTree
  import opened Cursor

  /** As many tuples of 52 bytes as a page has room for. */
  const FULL := 156

  function Keys(items: seq<Item>): (keys: seq<Cube>)
    ensures |keys| == |items| && forall i :: 0 <= i < |items| ==> keys[i] == items[i].key
  {
    seq(|items|, i requires 0 <= i < |items| => items[i].key)
  }

  function PageBytes(items: seq<Item>): nat { SplitFit.Total(SplitFit.AllBytes(Keys(items))) }

  ghost predicate Boxy(items: seq<Item>) { forall it :: it in items ==> SplitFit.Bytes(it.key) == 52 }

  /** Every tuple of every page below `b` has 52 bytes. */
  ghost predicate Sized(bs: Blocks, b: nat, l: nat)
    decreases l
  {
    b in bs && Boxy(bs[b].items) && (l > 0 ==> forall it :: it in bs[b].items ==> Sized(bs, it.tid.block, l - 1))
  }

  /** A leaf tuple stored with all four ends, which it keeps when read. */
  ghost predicate SizedLeaf(u: Int64, c: Cube) { SplitFit.Bytes(c) == 52 && SplitFit.Extended(Decode(u, c)) }

  lemma ExtendedPage(u: Int64, items: seq<Item>)
    requires items != [] && forall it :: it in items ==> SizedEntry(u, it)
    ensures SplitFit.Extended(PageBox(CubeCodec(u), items))
    ensures SplitFit.Bytes(CubeCodec(u).enc(PageBox(CubeCodec(u), items))) == 52
  {
    var boxes := PageBoxes(CubeCodec(u), items);
    forall i | 0 <= i < |boxes| ensures SplitFit.Extended(boxes[i]) { assert SizedEntry(u, items[i]); }
    SplitFit.BoxesStayBoxes(boxes);
  }

  /** Over tight boxes, leaf tuples of boxes make every tuple of the tree one. */
  lemma {:induction false} TightIsSized(u: Int64, bs: Blocks, b: nat, l: nat)
    requires Tight(CubeCodec(u), bs, b, l)
    requires forall x :: x in Leaves(bs, b, l) ==> SizedLeaf(u, x.key)
    ensures Sized(bs, b, l)
    ensures bs[b].items != [] ==> SplitFit.Extended(PageBox(CubeCodec(u), bs[b].items))
    decreases l
  {
    hide CubeCodec, SplitFit.Extended, SplitFit.Bytes, PageBox, SizedLeaf;
    if l == 0 {
      SizedLeaves(u, bs[b].items);
    } else {
      forall it | it in bs[b].items ensures SizedEntry(u, it) && Sized(bs, it.tid.block, l - 1) {
        SizedChild(u, bs, b, l, it);
        TightIsSized(u, bs, it.tid.block, l - 1);
        SizedLink(u, bs, it, l - 1);
      }
    }
    if bs[b].items != [] { ExtendedPage(u, bs[b].items); }
  }

  ghost predicate SizedEntry(u: Int64, it: Item)
  {
    SplitFit.Bytes(it.key) == 52 && SplitFit.Extended(CubeCodec(u).dec(it.key))
  }

  lemma SizedLeaves(u: Int64, items: seq<Item>)
    requires forall x :: x in items ==> SizedLeaf(u, x.key)
    ensures forall it :: it in items ==> SizedEntry(u, it)
  {
  }

  lemma SizedChild(u: Int64, bs: Blocks, b: nat, l: nat, it: Item)
    requires l > 0 && b in bs && it in bs[b].items && forall x :: x in Leaves(bs, b, l) ==> SizedLeaf(u, x.key)
    ensures forall x :: x in Leaves(bs, it.tid.block, l - 1) ==> SizedLeaf(u, x.key)
  {
    FlatMapPart(bs[b].items, LeavesOf(bs, l - 1), it);
  }

  lemma SizedLink(u: Int64, bs: Blocks, it: Item, l: nat)
    requires TightKid(CubeCodec(u), bs, it, l)
    requires SplitFit.Extended(PageBox(CubeCodec(u), bs[it.tid.block].items))
    ensures SizedEntry(u, it)
  {
    SplitFit.BoxesStayBoxes([PageBox(CubeCodec(u), bs[it.tid.block].items)]);
  }

  /** Bytes used, the free-space test before an insertion, and a page's limit, all
      by count. The test asks for one line pointer more than the tuple takes. */
  lemma CountIsBytes(items: seq<Item>)
    requires Boxy(items)
    ensures PageBytes(items) == 52 * |items|
    ensures PageBytes(items) <= SplitFit.ROOM <==> |items| <= FULL
    ensures PageBytes(items) + 52 + 4 <= SplitFit.ROOM <==> |items| < FULL
  {
    forall i | 0 <= i < |items| ensures SplitFit.Bytes(items[i].key) == 52 { assert items[i] in items; }
    assert SplitFit.AllBytes(Keys(items)) == SplitFit.Repeat(52, |items|);
    SplitFit.TotalRepeat(52, |items|);
  }

  /** A full page and one more such tuple: no division loses any of them. */
  lemma FullPageSplits(items: seq<Item>, left: seq<nat>, right: seq<nat>)
    requires Boxy(items) && |items| == FULL + 1 && SplitFit.Deals(left, right, |items|)
    ensures SplitFit.KeepsAll(SplitFit.ROOM, SplitFit.AllBytes(Keys(items)), left, right)
  {
    forall i | 0 <= i < |items| ensures SplitFit.Bytes(Keys(items)[i]) == 52 { assert items[i] in items; }
    SplitFit.SameSizesKeepAll(Keys(items), 52, left, right);
  }

  lemma {:induction false} SizedPages(cap: nat, bs: Blocks, b: nat, l: nat, x: nat)
    requires Tree(cap, bs, b, l) && Sized(bs, b, l) && x in Nodes(bs, b, l)
    ensures x in bs && Boxy(bs[x].items) && |bs[x].items| <= cap
    decreases l
  {
    if l > 0 && x != b {
      FlatMapIn(bs[b].items, NodesOf(bs, l - 1), x);
      var it :| it in bs[b].items && x in NodesOf(bs, l - 1)(it);
      SizedPages(cap, bs, it.tid.block, l - 1, x);
    }
  }

  /** No page of a sized tree is over its room, and the free-space test before an
      insertion passes exactly where the count says there is room. */
  ghost predicate Counted(bs: Blocks, x: nat)
  {
    x in bs && PageBytes(bs[x].items) <= SplitFit.ROOM &&
    (PageBytes(bs[x].items) + 52 + 4 <= SplitFit.ROOM <==> |bs[x].items| < FULL)
  }

  lemma SizedIsCounted(bs: Blocks, b: nat, l: nat)
    requires Tree(FULL, bs, b, l) && Sized(bs, b, l)
    ensures forall x :: x in Nodes(bs, b, l) ==> Counted(bs, x)
  {
    hide Tree, Sized, Nodes;
    forall x | x in Nodes(bs, b, l) ensures Counted(bs, x) {
      SizedPages(FULL, bs, b, l, x);
      CountIsBytes(bs[x].items);
    }
  }

  /** A key of four coordinates that decodes to a box which survives storage. */
  ghost predicate SizedKey(u: Int64, c: Cube)
  {
    Prunable(u, Overlap, c) && !c.point && SplitFit.Extended(Decode(u, c))
  }

  ghost function SizedKeys(u: Int64): Cube -> bool { (c: Cube) => SizedKey(u, c) }

  lemma SizedIsPrunable(u: Int64, rows: seq<Row>, ops: seq<Op>)
    requires AllKeys(SizedKeys(u), rows, ops)
    ensures AllKeys(PrunableKey(u, Overlap), rows, ops)
  {
    hide Prunable;
  }

  lemma SizedEntries(u: Int64, rows: seq<Row>, ops: seq<Op>, entries: seq<Item>)
    requires AllKeys(SizedKeys(u), rows, ops)
    requires forall x :: multiset(entries)[x] == Count(multiset(RowItems(rows)), ops, x)
    ensures forall x :: x in entries ==> SizedLeaf(u, x.key)
  {
    hide Prunable, Count, AllKeys;
    forall x | x in entries ensures SizedLeaf(u, x.key) {
      assert x in multiset(entries) && ops[..|ops|] == ops;
      CountedKeys(SizedKeys(u), rows, ops, |ops|, x);
      FourCoordinates(u, x.key);
    }
  }

  lemma FourCoordinates(u: Int64, c: Cube)
    requires SizedKey(u, c)
    ensures SizedLeaf(u, c)
  {
  }

  /** Build, then any serial run, all keys boxes that survive storage: every tuple
      on every page has 52 bytes, so `FULL` tuples are what a page holds. */
  method BuildRunSized(index: Index, rows: seq<Row>, ops: seq<Op>, ghost u: Int64)
    requires index.Valid() && index.nblocks == 0 && index.cd == CubeCodec(u) && index.cap == FULL
    requires AllKeys(SizedKeys(u), rows, ops)
    modifies index
    ensures index.Valid() && index.nblocks >= 2 && Sized(index.blocks, index.root, index.rootLevel)
    ensures forall x :: x in Nodes(index.blocks, index.root, index.rootLevel) ==> Counted(index.blocks, x)
    ensures forall x :: multiset(index.Entries())[x] == Count(multiset(RowItems(rows)), ops, x)
  {
    hide Nodes, Tree, Counted, IsRooted, Leaves, Lawful, Tight, AllLinked, RowItems, AllGood, GoodOps, AllKeys,
         CubeCodec, Count, Sized;
    SizedIsPrunable(u, rows, ops);
    CubeCodecLawful(u);
    GoodRun(u, Overlap, rows, ops);
    BagGood(index.cd, RowItems(rows));
    var indexTuples := index.Build(rows);
    GoodPerm(index.cd, RowItems(rows), index.Entries());
    Run(index, ops);
    SizedEntries(u, rows, ops, index.Entries());
    TightIsSized(u, index.blocks, index.root, index.rootLevel);
    RootedParts(FULL, index.blocks, index.nblocks, index.root, index.rootLevel);
    SizedIsCounted(index.blocks, index.root, index.rootLevel);
  }
}
