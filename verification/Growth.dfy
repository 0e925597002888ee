/** How one insertion changes the blocks of a subtree. */
module Growth {
  import opened Common
  import opened Boxes
  import opened Flatten
  import opened PageTree

  datatype InsertResult = Result(split: bool, right: nat, leftBox: Box, rightBox: Box)

  /** Block 0 is the meta page; data blocks are numbered from 1 without gaps. */
  ghost predicate Allocated(bs: Blocks, n: nat)
  {
    forall x :: x in bs <==> 1 <= x < n
  }

  /** The blocks allocated while the relation grew from `lo` to `hi` blocks. */
  ghost function Range(lo: nat, hi: nat): (r: multiset<nat>)
    ensures forall x :: r[x] == if lo <= x < hi then 1 else 0
  {
    if hi <= lo then multiset{} else Range(lo, hi - 1) + multiset{hi - 1}
  }

  ghost function AllNodes(bs: Blocks, b: nat, l: nat, res: InsertResult): multiset<nat>
  {
    multiset(Nodes(bs, b, l)) + if res.split then multiset(Nodes(bs, res.right, l)) else multiset{}
  }

  ghost function AllLeaves(bs: Blocks, b: nat, l: nat, res: InsertResult): multiset<Item>
  {
    multiset(Leaves(bs, b, l)) + if res.split then multiset(Leaves(bs, res.right, l)) else multiset{}
  }

  /** The relation only grew, and nothing outside the subtree changed. */
  ghost predicate Grown(bs0: Blocks, n0: nat, bs1: Blocks, n1: nat, b: nat, l: nat)
  {
    n0 <= n1 && Allocated(bs1, n1) && Outside(bs0, bs1, Nodes(bs0, b, l))
  }

  ghost predicate Half(cap: nat, cd: Codec, bs: Blocks, b: nat, l: nat, box: Box)
  {
    Tree(cap, bs, b, l) && bs[b].items != [] && box == PageBox(cd, bs[b].items)
  }

  /** What the insertion left: one subtree, or two of the same height. */
  ghost predicate Halves(cap: nat, cd: Codec, bs: Blocks, b: nat, l: nat, res: InsertResult)
  {
    Half(cap, cd, bs, b, l, res.leftBox) &&
    (res.split ==> Half(cap, cd, bs, res.right, l, res.rightBox) && !bs[b].root && !bs[res.right].root)
  }

  /** The subtree's blocks are the old ones and the new ones; its tuples are the
      old ones and the new one. */
  ghost predicate Conserved(bs0: Blocks, n0: nat, bs1: Blocks, n1: nat, b: nat, l: nat, it: Item, res: InsertResult)
  {
    AllNodes(bs1, b, l, res) == multiset(Nodes(bs0, b, l)) + Range(n0, n1) &&
    AllLeaves(bs1, b, l, res) == multiset(Leaves(bs0, b, l)) + multiset{it}
  }

  ghost predicate TightHalves(cd: Codec, bs: Blocks, b: nat, l: nat, res: InsertResult)
  {
    Tight(cd, bs, b, l) && (res.split ==> Tight(cd, bs, res.right, l))
  }

  /** Inserting `it` below `b` turned `bs0` into `bs1`. */
  ghost predicate Inserted(cap: nat, cd: Codec, bs0: Blocks, n0: nat, bs1: Blocks, n1: nat,
                           b: nat, l: nat, it: Item, res: InsertResult)
  {
    b in bs0 && Grown(bs0, n0, bs1, n1, b, l) &&
    Halves(cap, cd, bs1, b, l, res) && (!res.split ==> bs1[b].root == bs0[b].root) &&
    Conserved(bs0, n0, bs1, n1, b, l, it, res) &&
    (Tight(cd, bs0, b, l) && Good(cd, it) && Lawful(cd) ==> TightHalves(cd, bs1, b, l, res))
  }

  /** A page's tuples once the downlink at `i` reflects what became of its child. */
  function Relinked(cd: Codec, items: seq<Item>, i: nat, res: InsertResult): seq<Item>
    requires i < |items|
  {
    items[..i] + [Item(cd.enc(res.leftBox), items[i].tid)] + items[i + 1..] +
    if res.split then [Item(cd.enc(res.rightBox), Tid(res.right, 1))] else []
  }

  ghost predicate SameHeader(p: Page, q: Page)
  {
    p.leaf == q.leaf && p.root == q.root && p.level == q.level && p.rightlink == q.rightlink
  }

  /** `items` is what page `b` is about to hold. */
  ghost predicate Staged(cap: nat, cd: Codec, bs0: Blocks, n0: nat, bs1: Blocks, n1: nat,
                         b: nat, l: nat, it: Item, items: seq<Item>)
  {
    n0 <= n1 && Allocated(bs0, n0) && Allocated(bs1, n1) &&
    Tree(cap, bs0, b, l) && Distinct(multiset(Nodes(bs0, b, l))) &&
    Outside(bs0, bs1, Nodes(bs0, b, l)) && b in bs1 && SameHeader(bs0[b], bs1[b]) && items != [] &&
    (if l == 0 then bs1 == bs0 && n1 == n0 && items == bs0[b].items + [it]
     else StagedKids(cap, cd, bs0, n0, bs1, n1, b, l, it, items))
  }

  ghost predicate StagedKids(cap: nat, cd: Codec, bs0: Blocks, n0: nat, bs1: Blocks, n1: nat,
                             b: nat, l: nat, it: Item, items: seq<Item>)
    requires l > 0
  {
    Kids(cap, bs1, items, l - 1) &&
    multiset{b} + multiset(FlatMap(items, NodesOf(bs1, l - 1))) == multiset(Nodes(bs0, b, l)) + Range(n0, n1) &&
    multiset(FlatMap(items, LeavesOf(bs1, l - 1))) == multiset(Leaves(bs0, b, l)) + multiset{it} &&
    (Tight(cd, bs0, b, l) && Good(cd, it) && Lawful(cd) ==> TightKids(cd, bs1, items, l - 1))
  }

  // ------------------------------------------------------- from child to parent

  /** One child's blocks are apart from the page and from the other children. */
  lemma ChildApart(bs: Blocks, b: nat, l: nat, i: nat)
    requires l > 0 && b in bs && i < |bs[b].items| && Distinct(multiset(Nodes(bs, b, l)))
    ensures var f, items := NodesOf(bs, l - 1), bs[b].items;
            Distinct(multiset(f(items[i]))) && b !in f(items[i]) &&
            (forall x :: x in f(items[i]) ==> x !in FlatMap(items[..i], f) && x !in FlatMap(items[i + 1..], f)) &&
            (forall x :: x in f(items[i]) || x in FlatMap(items[..i], f) || x in FlatMap(items[i + 1..], f) ==>
               x in Nodes(bs, b, l))
  {
    DistinctAt(b, bs[b].items, i, NodesOf(bs, l - 1));
  }

  lemma SliceMembers<T>(xs: seq<T>, i: nat)
    requires i < |xs|
    ensures xs[i] in xs && forall x :: x in xs[..i] || x in xs[i + 1..] ==> x in xs
  {
  }

  /** The page above the inserted-into child is as it was. */
  lemma ParentUnchanged(cap: nat, bs0: Blocks, bs1: Blocks, b: nat, l: nat, i: nat)
    requires l > 0 && Tree(cap, bs0, b, l) && Distinct(multiset(Nodes(bs0, b, l)))
    requires i < |bs0[b].items| && Outside(bs0, bs1, Nodes(bs0, bs0[b].items[i].tid.block, l - 1))
    ensures b in bs1 && bs1[b] == bs0[b] && Outside(bs0, bs1, Nodes(bs0, b, l))
  {
    ChildApart(bs0, b, l, i);
    NodesAllocated(cap, bs0, b, l);
  }

  lemma ChildIsKid(cap: nat, bs: Blocks, b: nat, l: nat, i: nat)
    requires l > 0 && Tree(cap, bs, b, l) && i < |bs[b].items|
    ensures Kid(cap, bs, bs[b].items[i], l - 1)
  {
    assert bs[b].items[i] in bs[b].items;
  }

  ghost predicate Avoids(bs: Blocks, s: seq<nat>, changed: seq<nat>)
  {
    forall y :: y in s ==> y !in changed && y in bs
  }

  /** A child is ready to be inserted into. */
  ghost predicate ReadyChild(cap: nat, bs: Blocks, b: nat, l: nat, i: nat)
    requires b in bs && i < |bs[b].items| && l > 0
  {
    Kid(cap, bs, bs[b].items[i], l - 1) && Distinct(multiset(Nodes(bs, bs[b].items[i].tid.block, l - 1)))
  }

  lemma ChildReady(cap: nat, bs: Blocks, b: nat, l: nat, i: nat)
    requires l > 0 && Tree(cap, bs, b, l) && i < |bs[b].items| && Distinct(multiset(Nodes(bs, b, l)))
    ensures ReadyChild(cap, bs, b, l, i)
  {
    ChildIsKid(cap, bs, b, l, i);
    ChildApart(bs, b, l, i);
  }

  /** So is any part of its children apart from the inserted-into one. */
  lemma Apart(cap: nat, cd: Codec, bs0: Blocks, bs1: Blocks, b: nat, l: nat, changed: seq<nat>, part: seq<Item>)
    requires l > 0 && Tree(cap, bs0, b, l) && Outside(bs0, bs1, changed)
    requires forall x :: x in part ==> x in bs0[b].items
    requires Avoids(bs0, FlatMap(part, NodesOf(bs0, l - 1)), changed)
    ensures Kids(cap, bs1, part, l - 1)
    ensures FlatMap(part, NodesOf(bs1, l - 1)) == FlatMap(part, NodesOf(bs0, l - 1))
    ensures FlatMap(part, LeavesOf(bs1, l - 1)) == FlatMap(part, LeavesOf(bs0, l - 1))
    ensures Tight(cd, bs0, b, l) ==> TightKids(cd, bs1, part, l - 1)
  {
    ForestFrame(cap, cd, bs0, bs1, part, l - 1);
  }

  lemma Siblings(cap: nat, cd: Codec, bs0: Blocks, bs1: Blocks, b: nat, l: nat, i: nat, part: seq<Item>)
    requires l > 0 && Tree(cap, bs0, b, l) && Distinct(multiset(Nodes(bs0, b, l)))
    requires i < |bs0[b].items| && Outside(bs0, bs1, Nodes(bs0, bs0[b].items[i].tid.block, l - 1))
    requires part == bs0[b].items[..i] || part == bs0[b].items[i + 1..]
    ensures Kids(cap, bs1, part, l - 1)
    ensures FlatMap(part, NodesOf(bs1, l - 1)) == FlatMap(part, NodesOf(bs0, l - 1))
    ensures FlatMap(part, LeavesOf(bs1, l - 1)) == FlatMap(part, LeavesOf(bs0, l - 1))
    ensures Tight(cd, bs0, b, l) ==> TightKids(cd, bs1, part, l - 1)
  {
    forall x | x in part ensures x in bs0[b].items { SliceMembers(bs0[b].items, i); }
    assert Avoids(bs0, FlatMap(part, NodesOf(bs0, l - 1)), Nodes(bs0, bs0[b].items[i].tid.block, l - 1)) by {
      ChildApart(bs0, b, l, i);
      NodesAllocated(cap, bs0, b, l);
    }
    Apart(cap, cd, bs0, bs1, b, l, Nodes(bs0, bs0[b].items[i].tid.block, l - 1), part);
  }

  lemma RelinkedFlat<T>(cd: Codec, items: seq<Item>, i: nat, res: InsertResult, f: Item -> seq<T>)
    requires i < |items|
    ensures var r := Relinked(cd, items, i, res);
            multiset(FlatMap(r, f)) ==
            multiset(FlatMap(items[..i], f)) + multiset(FlatMap(items[i + 1..], f)) +
            multiset(f(Item(cd.enc(res.leftBox), items[i].tid))) +
            if res.split then multiset(f(Item(cd.enc(res.rightBox), Tid(res.right, 1)))) else multiset{}
  {
    var left := Item(cd.enc(res.leftBox), items[i].tid);
    var right := Item(cd.enc(res.rightBox), Tid(res.right, 1));
    FlatMapOne(left, f);
    FlatMapOne(right, f);
    FlatMapConcat(items[..i], [left], f);
    FlatMapConcat(items[..i] + [left], items[i + 1..], f);
    FlatMapConcat(items[..i] + [left] + items[i + 1..], if res.split then [right] else [], f);
  }

  lemma FlatSplit<T>(items: seq<Item>, i: nat, f: Item -> seq<T>)
    requires i < |items|
    ensures multiset(FlatMap(items, f)) ==
            multiset(FlatMap(items[..i], f)) + multiset(FlatMap(items[i + 1..], f)) + multiset(f(items[i]))
  {
    FlatMapAt(items, i, f);
  }

  lemma RelinkedMembers(cd: Codec, items: seq<Item>, i: nat, res: InsertResult, x: Item)
    requires i < |items| && x in Relinked(cd, items, i, res)
    ensures x in items[..i] || x in items[i + 1..] || x == Item(cd.enc(res.leftBox), items[i].tid) ||
            (res.split && x == Item(cd.enc(res.rightBox), Tid(res.right, 1)))
  {
  }

  /** Every relinked downlink leads to a finished child. */
  lemma RelinkedKids(cap: nat, cd: Codec, bs: Blocks, items: seq<Item>, l: nat, i: nat, res: InsertResult)
    requires i < |items| && Kids(cap, bs, items[..i], l) && Kids(cap, bs, items[i + 1..], l)
    requires Kid(cap, bs, Item(cd.enc(res.leftBox), items[i].tid), l)
    requires res.split ==> Kid(cap, bs, Item(cd.enc(res.rightBox), Tid(res.right, 1)), l)
    ensures Kids(cap, bs, Relinked(cd, items, i, res), l)
  {
    forall x | x in Relinked(cd, items, i, res) ensures Kid(cap, bs, x, l) {
      RelinkedMembers(cd, items, i, res, x);
    }
  }

  lemma RelinkedTight(cd: Codec, bs: Blocks, items: seq<Item>, l: nat, i: nat, res: InsertResult)
    requires i < |items| && TightKids(cd, bs, items[..i], l) && TightKids(cd, bs, items[i + 1..], l)
    requires TightKid(cd, bs, Item(cd.enc(res.leftBox), items[i].tid), l)
    requires res.split ==> TightKid(cd, bs, Item(cd.enc(res.rightBox), Tid(res.right, 1)), l)
    ensures TightKids(cd, bs, Relinked(cd, items, i, res), l)
  {
    forall x | x in Relinked(cd, items, i, res) ensures TightKid(cd, bs, x, l) {
      RelinkedMembers(cd, items, i, res, x);
    }
  }

  lemma StageKids(cap: nat, cd: Codec, bs0: Blocks, n0: nat, bs1: Blocks, n1: nat,
                  b: nat, l: nat, i: nat, it: Item, res: InsertResult)
    requires l > 0 && Tree(cap, bs0, b, l) && Distinct(multiset(Nodes(bs0, b, l))) && i < |bs0[b].items|
    requires Inserted(cap, cd, bs0, n0, bs1, n1, bs0[b].items[i].tid.block, l - 1, it, res)
    ensures Kids(cap, bs1, Relinked(cd, bs0[b].items, i, res), l - 1)
  {
    hide Nodes, Leaves, Tight, Conserved, Lawful, Relinked;
    var items := bs0[b].items;
    assert Kids(cap, bs1, items[..i], l - 1) by { Siblings(cap, cd, bs0, bs1, b, l, i, items[..i]); }
    assert Kids(cap, bs1, items[i + 1..], l - 1) by { Siblings(cap, cd, bs0, bs1, b, l, i, items[i + 1..]); }
    ChildIsKid(cap, bs0, b, l, i);
    RelinkedKids(cap, cd, bs1, items, l - 1, i, res);
  }

  /** Downlinks formed from the two halves' boxes are tight. */
  lemma FormedLinks(cd: Codec, bs: Blocks, c: nat, tid: Tid, l: nat, res: InsertResult)
    requires Lawful(cd) && tid.block == c && Tight(cd, bs, c, l) && bs[c].items != []
    requires res.leftBox == PageBox(cd, bs[c].items)
    requires res.split ==>
             Tight(cd, bs, res.right, l) && bs[res.right].items != [] &&
             res.rightBox == PageBox(cd, bs[res.right].items)
    ensures TightKid(cd, bs, Item(cd.enc(res.leftBox), tid), l)
    ensures res.split ==> TightKid(cd, bs, Item(cd.enc(res.rightBox), Tid(res.right, 1)), l)
  {
    FormedIsTight(cd, bs, Item(cd.enc(res.leftBox), tid), l);
    if res.split { FormedIsTight(cd, bs, Item(cd.enc(res.rightBox), Tid(res.right, 1)), l); }
  }

  lemma ChildIsTight(cd: Codec, bs: Blocks, b: nat, l: nat, i: nat)
    requires l > 0 && Tight(cd, bs, b, l) && i < |bs[b].items|
    ensures Tight(cd, bs, bs[b].items[i].tid.block, l - 1)
  {
    assert bs[b].items[i] in bs[b].items;
  }

  lemma SiblingsTight(cap: nat, cd: Codec, bs0: Blocks, bs1: Blocks, b: nat, l: nat, i: nat)
    requires l > 0 && Tree(cap, bs0, b, l) && Distinct(multiset(Nodes(bs0, b, l))) && Tight(cd, bs0, b, l)
    requires i < |bs0[b].items| && Outside(bs0, bs1, Nodes(bs0, bs0[b].items[i].tid.block, l - 1))
    ensures TightKids(cd, bs1, bs0[b].items[..i], l - 1) && TightKids(cd, bs1, bs0[b].items[i + 1..], l - 1)
  {
    Siblings(cap, cd, bs0, bs1, b, l, i, bs0[b].items[..i]);
    Siblings(cap, cd, bs0, bs1, b, l, i, bs0[b].items[i + 1..]);
  }

  lemma StageTight(cap: nat, cd: Codec, bs0: Blocks, n0: nat, bs1: Blocks, n1: nat,
                   b: nat, l: nat, i: nat, it: Item, res: InsertResult)
    requires l > 0 && Tree(cap, bs0, b, l) && Distinct(multiset(Nodes(bs0, b, l))) && i < |bs0[b].items|
    requires Inserted(cap, cd, bs0, n0, bs1, n1, bs0[b].items[i].tid.block, l - 1, it, res)
    requires Tight(cd, bs0, b, l) && Good(cd, it) && Lawful(cd)
    ensures TightKids(cd, bs1, Relinked(cd, bs0[b].items, i, res), l - 1)
  {
    hide Nodes, Leaves, Lawful, TightKids, Relinked, Conserved;
    var items := bs0[b].items;
    SiblingsTight(cap, cd, bs0, bs1, b, l, i);
    ChildIsTight(cd, bs0, b, l, i);
    FormedLinks(cd, bs1, items[i].tid.block, items[i].tid, l - 1, res);
    RelinkedTight(cd, bs1, items, l - 1, i, res);
  }

  /** Replacing one part of a sum replaces it in the sum. */
  lemma Regroup<T>(whole0: multiset<T>, whole1: multiset<T>, pre: multiset<T>, post: multiset<T>,
                   part0: multiset<T>, part1: multiset<T>, more: multiset<T>)
    requires whole0 == pre + post + part0 && whole1 == pre + post + part1 && part1 == part0 + more
    ensures whole1 == whole0 + more
  {
  }

  lemma StageNodes(cap: nat, cd: Codec, bs0: Blocks, n0: nat, bs1: Blocks, n1: nat,
                   b: nat, l: nat, i: nat, it: Item, res: InsertResult)
    requires l > 0 && Tree(cap, bs0, b, l) && Distinct(multiset(Nodes(bs0, b, l))) && i < |bs0[b].items|
    requires Inserted(cap, cd, bs0, n0, bs1, n1, bs0[b].items[i].tid.block, l - 1, it, res)
    ensures multiset(FlatMap(Relinked(cd, bs0[b].items, i, res), NodesOf(bs1, l - 1))) ==
            multiset(FlatMap(bs0[b].items, NodesOf(bs0, l - 1))) + Range(n0, n1)
  {
    var items, c := bs0[b].items, bs0[b].items[i].tid.block;
    Siblings(cap, cd, bs0, bs1, b, l, i, items[..i]);
    Siblings(cap, cd, bs0, bs1, b, l, i, items[i + 1..]);
    RelinkedFlat(cd, items, i, res, NodesOf(bs1, l - 1));
    FlatSplit(items, i, NodesOf(bs0, l - 1));
    Regroup(multiset(FlatMap(items, NodesOf(bs0, l - 1))),
            multiset(FlatMap(Relinked(cd, items, i, res), NodesOf(bs1, l - 1))),
            multiset(FlatMap(items[..i], NodesOf(bs0, l - 1))), multiset(FlatMap(items[i + 1..], NodesOf(bs0, l - 1))),
            multiset(Nodes(bs0, c, l - 1)), AllNodes(bs1, c, l - 1, res), Range(n0, n1));
  }

  lemma StageLeaves(cap: nat, cd: Codec, bs0: Blocks, n0: nat, bs1: Blocks, n1: nat,
                    b: nat, l: nat, i: nat, it: Item, res: InsertResult)
    requires l > 0 && Tree(cap, bs0, b, l) && Distinct(multiset(Nodes(bs0, b, l))) && i < |bs0[b].items|
    requires Inserted(cap, cd, bs0, n0, bs1, n1, bs0[b].items[i].tid.block, l - 1, it, res)
    ensures multiset(FlatMap(Relinked(cd, bs0[b].items, i, res), LeavesOf(bs1, l - 1))) ==
            multiset(FlatMap(bs0[b].items, LeavesOf(bs0, l - 1))) + multiset{it}
  {
    var items, c := bs0[b].items, bs0[b].items[i].tid.block;
    Siblings(cap, cd, bs0, bs1, b, l, i, items[..i]);
    Siblings(cap, cd, bs0, bs1, b, l, i, items[i + 1..]);
    RelinkedFlat(cd, items, i, res, LeavesOf(bs1, l - 1));
    FlatSplit(items, i, LeavesOf(bs0, l - 1));
    Regroup(multiset(FlatMap(items, LeavesOf(bs0, l - 1))),
            multiset(FlatMap(Relinked(cd, items, i, res), LeavesOf(bs1, l - 1))),
            multiset(FlatMap(items[..i], LeavesOf(bs0, l - 1))),
            multiset(FlatMap(items[i + 1..], LeavesOf(bs0, l - 1))),
            multiset(Leaves(bs0, c, l - 1)), AllLeaves(bs1, c, l - 1, res), multiset{it});
  }

  /** A finished child insertion stages its parent page. */
  lemma StageParent(cap: nat, cd: Codec, bs0: Blocks, n0: nat, bs1: Blocks, n1: nat,
                    b: nat, l: nat, i: nat, it: Item, res: InsertResult)
    requires l > 0 && Tree(cap, bs0, b, l) && Distinct(multiset(Nodes(bs0, b, l))) && Allocated(bs0, n0)
    requires i < |bs0[b].items|
    requires Inserted(cap, cd, bs0, n0, bs1, n1, bs0[b].items[i].tid.block, l - 1, it, res)
    ensures Staged(cap, cd, bs0, n0, bs1, n1, b, l, it, Relinked(cd, bs0[b].items, i, res))
    ensures b in bs1 && bs1[b] == bs0[b] && Allocated(bs1, n1)
  {
    hide Nodes, Leaves, Tight, TightKids, Lawful, Good, Relinked, Conserved, Range, Halves, TightHalves;
    ParentUnchanged(cap, bs0, bs1, b, l, i);
    StageKids(cap, cd, bs0, n0, bs1, n1, b, l, i, it, res);
    if Tight(cd, bs0, b, l) && Good(cd, it) && Lawful(cd) { StageTight(cap, cd, bs0, n0, bs1, n1, b, l, i, it, res); }
    StageNodes(cap, cd, bs0, n0, bs1, n1, b, l, i, it, res);
    StageLeaves(cap, cd, bs0, n0, bs1, n1, b, l, i, it, res);
    NodesMultiset(bs0, b, l);
    LeavesFlat(bs0, b, l);
  }

  lemma LeavesFlat(bs: Blocks, b: nat, l: nat)
    requires l > 0 && b in bs
    ensures Leaves(bs, b, l) == FlatMap(bs[b].items, LeavesOf(bs, l - 1))
  {
  }

  lemma NodesMultiset(bs: Blocks, b: nat, l: nat)
    requires l > 0 && b in bs
    ensures multiset(Nodes(bs, b, l)) == multiset{b} + multiset(FlatMap(bs[b].items, NodesOf(bs, l - 1)))
  {
  }

  // ------------------------------------------------------------ finishing a page

  /** The staged children lie outside the page being written and below `n1`. */
  lemma StagedApart(cap: nat, cd: Codec, bs0: Blocks, n0: nat, bs1: Blocks, n1: nat,
                    b: nat, l: nat, it: Item, items: seq<Item>)
    requires Staged(cap, cd, bs0, n0, bs1, n1, b, l, it, items) && l > 0
    ensures forall x :: x in FlatMap(items, NodesOf(bs1, l - 1)) ==> x != b && x in bs1
  {
    hide Leaves, Tight, TightKids, Lawful, Good, Range;
    KidsAllocated(cap, bs1, items, l - 1);
    NodesAllocated(cap, bs0, b, l);
    NotAmong(b, FlatMap(items, NodesOf(bs1, l - 1)), Nodes(bs0, b, l), n0, n1);
  }

  lemma NotAmong(b: nat, kids: seq<nat>, nodes: seq<nat>, n0: nat, n1: nat)
    requires multiset{b} + multiset(kids) == multiset(nodes) + Range(n0, n1)
    requires Distinct(multiset(nodes)) && b in nodes && b < n0
    ensures b !in kids
  {
    assert (multiset{b} + multiset(kids))[b] == multiset(nodes)[b] + Range(n0, n1)[b];
  }

  /** What page `b` holds in the meantime does not matter. */
  lemma Restage(cap: nat, cd: Codec, bs0: Blocks, n0: nat, bs1: Blocks, n1: nat,
                b: nat, l: nat, it: Item, items: seq<Item>, bs2: Blocks, now: seq<Item>)
    requires Staged(cap, cd, bs0, n0, bs1, n1, b, l, it, items) && l > 0
    requires bs2 == bs1[b := bs1[b].(items := now)]
    ensures Staged(cap, cd, bs0, n0, bs2, n1, b, l, it, items)
  {
    StagedApart(cap, cd, bs0, n0, bs1, n1, b, l, it, items);
    RestageKids(cap, cd, bs0, n0, bs1, n1, b, l, it, items, bs2);
    WroteInside(bs0, n0, bs1, n1, bs2, n1, b, l);
  }

  lemma RestageKids(cap: nat, cd: Codec, bs0: Blocks, n0: nat, bs1: Blocks, n1: nat,
                    b: nat, l: nat, it: Item, items: seq<Item>, bs2: Blocks)
    requires l > 0 && StagedKids(cap, cd, bs0, n0, bs1, n1, b, l, it, items)
    requires forall x :: x in FlatMap(items, NodesOf(bs1, l - 1)) ==> x != b && x in bs1
    requires forall x :: x in bs1 && x != b ==> x in bs2 && bs2[x] == bs1[x]
    ensures StagedKids(cap, cd, bs0, n0, bs2, n1, b, l, it, items)
  {
    ForestFrame(cap, cd, bs1, bs2, items, l - 1);
  }

  /** Writing page `b`, and a new block past the end, stays within the subtree. */
  lemma WroteInside(bs0: Blocks, n0: nat, bs1: Blocks, n1: nat, bs2: Blocks, n2: nat, b: nat, l: nat)
    requires Grown(bs0, n0, bs1, n1, b, l) && Allocated(bs0, n0) && b in bs0 && n1 <= n2 && Allocated(bs2, n2)
    requires forall x :: x in bs1 && x != b ==> x in bs2 && bs2[x] == bs1[x]
    ensures Grown(bs0, n0, bs2, n2, b, l)
  {
    assert b in Nodes(bs0, b, l);
  }

  lemma FinishInPlace(cap: nat, cd: Codec, bs0: Blocks, n0: nat, bs1: Blocks, n1: nat,
                      b: nat, l: nat, it: Item, items: seq<Item>, bs2: Blocks, res: InsertResult)
    requires Staged(cap, cd, bs0, n0, bs1, n1, b, l, it, items) && |items| <= cap
    requires bs2 == bs1[b := bs1[b].(items := items)]
    requires !res.split && res.leftBox == PageBox(cd, items)
    ensures Inserted(cap, cd, bs0, n0, bs2, n1, b, l, it, res)
  {
    WroteInside(bs0, n0, bs1, n1, bs2, n1, b, l);
    if l == 0 {
      FinishLeaf(cap, cd, bs0, n0, b, it, bs2, res);
    } else {
      FinishInner(cap, cd, bs0, n0, bs1, n1, b, l, it, items, bs2, res);
    }
  }

  lemma FinishInner(cap: nat, cd: Codec, bs0: Blocks, n0: nat, bs1: Blocks, n1: nat,
                    b: nat, l: nat, it: Item, items: seq<Item>, bs2: Blocks, res: InsertResult)
    requires Staged(cap, cd, bs0, n0, bs1, n1, b, l, it, items) && |items| <= cap && l > 0
    requires bs2 == bs1[b := bs1[b].(items := items)]
    requires !res.split && res.leftBox == PageBox(cd, items)
    ensures Halves(cap, cd, bs2, b, l, res) && Conserved(bs0, n0, bs2, n1, b, l, it, res)
    ensures Tight(cd, bs0, b, l) && Good(cd, it) && Lawful(cd) ==> TightHalves(cd, bs2, b, l, res)
  {
    StagedApart(cap, cd, bs0, n0, bs1, n1, b, l, it, items);
    Install(cap, cd, bs1, bs2, b, l);
    assert multiset(Nodes(bs2, b, l)) == multiset{b} + multiset(FlatMap(items, NodesOf(bs1, l - 1)));
  }

  lemma FinishLeaf(cap: nat, cd: Codec, bs0: Blocks, n0: nat, b: nat, it: Item, bs2: Blocks, res: InsertResult)
    requires Tree(cap, bs0, b, 0) && |bs0[b].items| < cap
    requires bs2 == bs0[b := bs0[b].(items := bs0[b].items + [it])]
    requires !res.split && res.leftBox == PageBox(cd, bs0[b].items + [it])
    ensures Halves(cap, cd, bs2, b, 0, res) && Conserved(bs0, n0, bs2, n0, b, 0, it, res)
    ensures Tight(cd, bs0, b, 0) && Good(cd, it) ==> TightHalves(cd, bs2, b, 0, res)
  {
  }

  /** Both halves of a page written over the staged children. */
  lemma SplitHalf(cap: nat, cd: Codec, bs0: Blocks, n0: nat, bs1: Blocks, n1: nat,
                  b: nat, l: nat, it: Item, items: seq<Item>, bs2: Blocks, half: nat)
    requires Staged(cap, cd, bs0, n0, bs1, n1, b, l, it, items) && l > 0 && (half == b || half == n1)
    requires half in bs2 && forall x :: x in bs1 && x != b ==> x in bs2 && bs2[x] == bs1[x]
    requires bs2[half].level == l && !bs2[half].leaf && |bs2[half].items| <= cap
    requires forall x :: x in bs2[half].items ==> x in items
    ensures Tree(cap, bs2, half, l)
    ensures Nodes(bs2, half, l) == [half] + FlatMap(bs2[half].items, NodesOf(bs1, l - 1))
    ensures Leaves(bs2, half, l) == FlatMap(bs2[half].items, LeavesOf(bs1, l - 1))
    ensures Tight(cd, bs0, b, l) && Good(cd, it) && Lawful(cd) ==> Tight(cd, bs2, half, l)
  {
    StagedApart(cap, cd, bs0, n0, bs1, n1, b, l, it, items);
    forall x | x in FlatMap(bs2[half].items, NodesOf(bs1, l - 1)) ensures x in bs1 && x != b {
      FlatMapIn(bs2[half].items, NodesOf(bs1, l - 1), x);
      var kid :| kid in bs2[half].items && x in NodesOf(bs1, l - 1)(kid);
      FlatMapPart(items, NodesOf(bs1, l - 1), kid);
    }
    Install(cap, cd, bs1, bs2, half, l);
  }

  lemma FlatHalves<T>(items: seq<Item>, left: seq<Item>, right: seq<Item>, f: Item -> seq<T>)
    requires multiset(left) + multiset(right) == multiset(items)
    ensures multiset(FlatMap(left, f)) + multiset(FlatMap(right, f)) == multiset(FlatMap(items, f))
  {
    assert multiset(left + right) == multiset(items);
    FlatMapPerm(left + right, items, f);
    FlatMapConcat(left, right, f);
  }

  ghost predicate SplitInto(bs1: Blocks, n1: nat, b: nat, l: nat, left: seq<Item>, right: seq<Item>, bs2: Blocks)
    requires b in bs1
  {
    bs2 == bs1[b := Page(left, l == 0, false, l, Some(n1))][n1 := Page(right, l == 0, false, l, bs1[b].rightlink)]
  }

  lemma FinishSplit(cap: nat, cd: Codec, bs0: Blocks, n0: nat, bs1: Blocks, n1: nat,
                    b: nat, l: nat, it: Item, items: seq<Item>, bs2: Blocks, res: InsertResult,
                    left: seq<Item>, right: seq<Item>)
    requires Staged(cap, cd, bs0, n0, bs1, n1, b, l, it, items)
    requires multiset(left) + multiset(right) == multiset(items)
    requires 0 < |left| <= cap && 0 < |right| <= cap
    requires SplitInto(bs1, n1, b, l, left, right, bs2)
    requires res == Result(true, n1, PageBox(cd, left), PageBox(cd, right))
    ensures Inserted(cap, cd, bs0, n0, bs2, n1 + 1, b, l, it, res)
  {
    hide Nodes, Leaves, Lawful, Tight, TightHalves, Halves, Conserved, StagedKids, PageBox;
    WroteInside(bs0, n0, bs1, n1, bs2, n1 + 1, b, l);
    if l == 0 {
      FinishLeafSplit(cap, cd, bs0, n0, b, it, bs2, res, left, right);
    } else {
      FinishInnerSplit(cap, cd, bs0, n0, bs1, n1, b, l, it, items, bs2, res, left, right);
    }
  }

  lemma HalfMembers<T>(items: seq<T>, left: seq<T>, right: seq<T>)
    requires multiset(left) + multiset(right) == multiset(items)
    ensures forall x :: x in left || x in right ==> x in items
  {
    forall x | x in left || x in right ensures x in items {
      assert x in multiset(left) + multiset(right);
    }
  }

  lemma FinishLeafSplit(cap: nat, cd: Codec, bs0: Blocks, n0: nat, b: nat, it: Item, bs2: Blocks, res: InsertResult,
                        left: seq<Item>, right: seq<Item>)
    requires Tree(cap, bs0, b, 0) && Allocated(bs0, n0)
    requires multiset(left) + multiset(right) == multiset(bs0[b].items + [it])
    requires 0 < |left| <= cap && 0 < |right| <= cap
    requires SplitInto(bs0, n0, b, 0, left, right, bs2)
    requires res == Result(true, n0, PageBox(cd, left), PageBox(cd, right))
    ensures Halves(cap, cd, bs2, b, 0, res) && Conserved(bs0, n0, bs2, n0 + 1, b, 0, it, res)
    ensures Tight(cd, bs0, b, 0) && Good(cd, it) ==> TightHalves(cd, bs2, b, 0, res)
  {
    HalfMembers(bs0[b].items + [it], left, right);
    assert Range(n0, n0 + 1) == multiset{n0};
  }

  lemma FinishInnerSplit(cap: nat, cd: Codec, bs0: Blocks, n0: nat, bs1: Blocks, n1: nat,
                         b: nat, l: nat, it: Item, items: seq<Item>, bs2: Blocks, res: InsertResult,
                         left: seq<Item>, right: seq<Item>)
    requires Staged(cap, cd, bs0, n0, bs1, n1, b, l, it, items) && l > 0
    requires multiset(left) + multiset(right) == multiset(items)
    requires 0 < |left| <= cap && 0 < |right| <= cap
    requires SplitInto(bs1, n1, b, l, left, right, bs2)
    requires res == Result(true, n1, PageBox(cd, left), PageBox(cd, right))
    ensures Halves(cap, cd, bs2, b, l, res) && Conserved(bs0, n0, bs2, n1 + 1, b, l, it, res)
    ensures Tight(cd, bs0, b, l) && Good(cd, it) && Lawful(cd) ==> TightHalves(cd, bs2, b, l, res)
  {
    HalfMembers(items, left, right);
    SplitHalf(cap, cd, bs0, n0, bs1, n1, b, l, it, items, bs2, b);
    SplitHalf(cap, cd, bs0, n0, bs1, n1, b, l, it, items, bs2, n1);
    FlatHalves(items, left, right, LeavesOf(bs1, l - 1));
    FlatHalves(items, left, right, NodesOf(bs1, l - 1));
    assert Range(n0, n1 + 1) == Range(n0, n1) + multiset{n1};
    SplitSum(b, n1, FlatMap(left, NodesOf(bs1, l - 1)), FlatMap(right, NodesOf(bs1, l - 1)),
             multiset(FlatMap(items, NodesOf(bs1, l - 1))), multiset(Nodes(bs0, b, l)), Range(n0, n1));
  }

  lemma SplitSum(b: nat, r: nat, left: seq<nat>, right: seq<nat>, kids: multiset<nat>, old0: multiset<nat>,
                 more: multiset<nat>)
    requires multiset(left) + multiset(right) == kids && multiset{b} + kids == old0 + more
    ensures multiset([b] + left) + multiset([r] + right) == old0 + (more + multiset{r})
  {
    assert multiset([b] + left) == multiset{b} + multiset(left);
    assert multiset([r] + right) == multiset{r} + multiset(right);
    assert multiset{b} + multiset(left) + (multiset{r} + multiset(right)) == (multiset{b} + kids) + multiset{r};
  }

  // ------------------------------------------------------------------- the root

  /** Old blocks and freshly allocated ones never collide. */
  lemma DistinctGrown(nodes: seq<nat>, n0: nat, n1: nat)
    requires Distinct(multiset(nodes)) && forall x :: x in nodes ==> x < n0
    ensures Distinct(multiset(nodes) + Range(n0, n1))
  {
    forall x ensures (multiset(nodes) + Range(n0, n1))[x] <= 1 {
      if x in multiset(nodes) { assert x in nodes; }
    }
  }

  lemma InsertedDistinct(cap: nat, cd: Codec, bs0: Blocks, n0: nat, bs1: Blocks, n1: nat, b: nat, l: nat, it: Item,
                         res: InsertResult)
    requires Tree(cap, bs0, b, l) && Distinct(multiset(Nodes(bs0, b, l))) && Allocated(bs0, n0)
    requires Inserted(cap, cd, bs0, n0, bs1, n1, b, l, it, res)
    ensures Distinct(AllNodes(bs1, b, l, res))
  {
    NodesAllocated(cap, bs0, b, l);
    DistinctGrown(Nodes(bs0, b, l), n0, n1);
  }

  /** If the old subtree held every block, the new one does. */
  lemma InsertedCovers(cap: nat, cd: Codec, bs0: Blocks, n0: nat, bs1: Blocks, n1: nat, b: nat, l: nat, it: Item,
                       res: InsertResult)
    requires Allocated(bs0, n0) && Inserted(cap, cd, bs0, n0, bs1, n1, b, l, it, res)
    requires forall x :: x in bs0 ==> x in Nodes(bs0, b, l)
    ensures forall x :: x in bs1 ==> x in AllNodes(bs1, b, l, res)
  {
    forall x | x in bs1 ensures x in AllNodes(bs1, b, l, res) {
      if x < n0 { assert x in bs0; assert x in multiset(Nodes(bs0, b, l)); } else { assert Range(n0, n1)[x] == 1; }
    }
  }

  function RootLinks(cd: Codec, left: nat, res: InsertResult): seq<Item>
  {
    [Item(cd.enc(res.leftBox), Tid(left, 1)), Item(cd.enc(res.rightBox), Tid(res.right, 1))]
  }

  lemma FlatTwo<A, B>(x: A, y: A, f: A -> seq<B>)
    ensures FlatMap([x, y], f) == f(x) + f(y)
  {
    assert [x, y] == [x] + [y];
    FlatMapConcat([x], [y], f);
    FlatMapOne(x, f);
    FlatMapOne(y, f);
  }

  /** A new root over the two halves stands for both. */
  lemma Promote(cap: nat, cd: Codec, bs1: Blocks, n1: nat, b: nat, l: nat, res: InsertResult, bs2: Blocks)
    requires cap >= 2 && Allocated(bs1, n1) && n1 >= 1 && Halves(cap, cd, bs1, b, l, res) && res.split
    requires bs2 == bs1[n1 := Page(RootLinks(cd, b, res), false, true, l + 1, None)]
    ensures Tree(cap, bs2, n1, l + 1)
    ensures multiset(Nodes(bs2, n1, l + 1)) == multiset{n1} + AllNodes(bs1, b, l, res)
    ensures multiset(Leaves(bs2, n1, l + 1)) == AllLeaves(bs1, b, l, res)
    ensures Lawful(cd) && TightHalves(cd, bs1, b, l, res) ==> Tight(cd, bs2, n1, l + 1)
  {
    var links := RootLinks(cd, b, res);
    KidsAllocated(cap, bs1, links, l);
    FlatTwo(links[0], links[1], NodesOf(bs1, l));
    FlatTwo(links[0], links[1], LeavesOf(bs1, l));
    Install(cap, cd, bs1, bs2, n1, l + 1);
    if Lawful(cd) && TightHalves(cd, bs1, b, l, res) {
      FormedIsTight(cd, bs1, links[0], l);
      FormedIsTight(cd, bs1, links[1], l);
    }
  }

  /** The left half's tuples come first. */
  lemma PromoteOrder(cap: nat, cd: Codec, bs1: Blocks, n1: nat, b: nat, l: nat, res: InsertResult, bs2: Blocks)
    requires cap >= 2 && Allocated(bs1, n1) && n1 >= 1 && Halves(cap, cd, bs1, b, l, res) && res.split
    requires bs2 == bs1[n1 := Page(RootLinks(cd, b, res), false, true, l + 1, None)]
    ensures Leaves(bs2, n1, l + 1) == Leaves(bs1, b, l) + Leaves(bs1, res.right, l)
  {
    NodesAllocated(cap, bs1, b, l);
    NodesAllocated(cap, bs1, res.right, l);
    Frame(cap, cd, bs1, bs2, b, l);
    Frame(cap, cd, bs1, bs2, res.right, l);
    hide Tree, Nodes, Tight;
    var links := RootLinks(cd, b, res);
    FlatTwo(links[0], links[1], LeavesOf(bs2, l));
  }

  lemma AllNodesAllocated(cap: nat, cd: Codec, bs: Blocks, b: nat, l: nat, res: InsertResult)
    requires Halves(cap, cd, bs, b, l, res)
    ensures forall x :: x in AllNodes(bs, b, l, res) ==> x in bs
  {
    NodesAllocated(cap, bs, b, l);
    if res.split { NodesAllocated(cap, bs, res.right, l); }
    forall x | x in AllNodes(bs, b, l, res) ensures x in bs {
      assert x in Nodes(bs, b, l) || (res.split && x in Nodes(bs, res.right, l));
    }
  }

  lemma PromoteDistinct(nodes: multiset<nat>, n: nat)
    requires Distinct(nodes) && n !in nodes
    ensures Distinct(multiset{n} + nodes)
  {
  }
}
