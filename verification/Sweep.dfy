/** How one bulk deletion changes the blocks of a subtree. */
module Sweep {
  import opened Common
  import opened Boxes
  import opened Flatten
  import opened PageTree

  /** Sweeping the subtree of `b` turned `bs0` into `bs1`: exactly the kept leaf
      tuples are left, in their old order, and no block was gained. */
  ghost predicate Swept(cap: nat, bs0: Blocks, bs1: Blocks, b: nat, l: nat, keep: Item -> bool)
  {
    b in bs0 && bs1.Keys == bs0.Keys && Outside(bs0, bs1, Nodes(bs0, b, l)) &&
    Tree(cap, bs1, b, l) && bs1[b].root == bs0[b].root && bs1[b].rightlink == bs0[b].rightlink &&
    multiset(Nodes(bs1, b, l)) <= multiset(Nodes(bs0, b, l)) &&
    Leaves(bs1, b, l) == Filter(Leaves(bs0, b, l), keep) &&
    (bs1[b].items == [] <==> Leaves(bs1, b, l) == [])
  }

  /** Every tuple that stays has a box that survives storage. */
  ghost predicate KeptGood(cd: Codec, items: seq<Item>, keep: Item -> bool)
  {
    forall it :: it in items && keep(it) ==> Good(cd, it)
  }

  /** The first children of a page are done; `kept` are the downlinks retained. */
  ghost predicate Sweeping(cap: nat, bs0: Blocks, bs1: Blocks, done: seq<Item>, l: nat, kept: seq<Item>,
                           keep: Item -> bool)
  {
    bs1.Keys == bs0.Keys && Outside(bs0, bs1, FlatMap(done, NodesOf(bs0, l))) &&
    |kept| <= |done| && Kids(cap, bs1, kept, l) &&
    multiset(FlatMap(kept, NodesOf(bs1, l))) <= multiset(FlatMap(done, NodesOf(bs0, l))) &&
    FlatMap(kept, LeavesOf(bs1, l)) == Filter(FlatMap(done, LeavesOf(bs0, l)), keep)
  }

  lemma {:induction false} KidHasLeaves(cap: nat, bs: Blocks, it: Item, l: nat)
    requires Kid(cap, bs, it, l)
    ensures Leaves(bs, it.tid.block, l) != []
    decreases l
  {
    if l > 0 {
      var items := bs[it.tid.block].items;
      assert items[0] in items;
      KidHasLeaves(cap, bs, items[0], l - 1);
    }
  }

  lemma KidsHaveLeaves(cap: nat, bs: Blocks, kept: seq<Item>, l: nat)
    requires Kids(cap, bs, kept, l)
    ensures kept == [] <==> FlatMap(kept, LeavesOf(bs, l)) == []
  {
    if kept != [] {
      assert kept[0] in kept;
      KidHasLeaves(cap, bs, kept[0], l);
    }
  }

  lemma SubMember<T>(a: seq<T>, b: seq<T>)
    requires multiset(a) <= multiset(b)
    ensures forall x :: x in a ==> x in b
  {
    forall x | x in a ensures x in b { assert x in multiset(a); assert x in multiset(b); }
  }

  // -------------------------------------------------------- one child of a page

  /** A child not yet swept is as it was. */
  lemma Unswept(cap: nat, cd: Codec, bs0: Blocks, bs1: Blocks, done: seq<Item>, l: nat, it: Item, kept: seq<Item>,
                keep: Item -> bool)
    requires Sweeping(cap, bs0, bs1, done, l, kept, keep) && Kid(cap, bs0, it, l)
    requires forall x :: x in Nodes(bs0, it.tid.block, l) ==> x !in FlatMap(done, NodesOf(bs0, l))
    ensures Tree(cap, bs1, it.tid.block, l)
    ensures Nodes(bs1, it.tid.block, l) == Nodes(bs0, it.tid.block, l)
    ensures Leaves(bs1, it.tid.block, l) == Leaves(bs0, it.tid.block, l)
    ensures !bs1[it.tid.block].root
  {
    NodesAllocated(cap, bs0, it.tid.block, l);
    Frame(cap, cd, bs0, bs1, it.tid.block, l);
  }

  /** Children already kept are not touched by sweeping another. */
  lemma KeptFrame(cap: nat, cd: Codec, bs0: Blocks, bs1: Blocks, bs2: Blocks, done: seq<Item>, l: nat, c: nat,
                  kept: seq<Item>, keep: Item -> bool)
    requires Sweeping(cap, bs0, bs1, done, l, kept, keep)
    requires forall x :: x in Nodes(bs0, c, l) ==> x !in FlatMap(done, NodesOf(bs0, l))
    requires Nodes(bs1, c, l) == Nodes(bs0, c, l) && Outside(bs1, bs2, Nodes(bs1, c, l))
    ensures Kids(cap, bs2, kept, l)
    ensures FlatMap(kept, NodesOf(bs2, l)) == FlatMap(kept, NodesOf(bs1, l))
    ensures FlatMap(kept, LeavesOf(bs2, l)) == FlatMap(kept, LeavesOf(bs1, l))
    ensures TightKids(cd, bs1, kept, l) ==> TightKids(cd, bs2, kept, l)
  {
    SubMember(FlatMap(kept, NodesOf(bs1, l)), FlatMap(done, NodesOf(bs0, l)));
    KidsAllocated(cap, bs1, kept, l);
    ForestFrame(cap, cd, bs1, bs2, kept, l);
  }

  lemma OutsideBoth(bs0: Blocks, bs1: Blocks, bs2: Blocks, a: seq<nat>, b: seq<nat>)
    requires Outside(bs0, bs1, a) && Outside(bs1, bs2, b)
    ensures Outside(bs0, bs2, a + b)
  {
  }

  lemma SubSum<T>(a0: seq<T>, a1: seq<T>, b0: seq<T>, b1: seq<T>)
    requires multiset(a1) <= multiset(a0) && multiset(b1) <= multiset(b0)
    ensures multiset(a1) <= multiset(a0 + b0)
    ensures multiset(a1 + b1) <= multiset(a0 + b0)
  {
    assert multiset(a0 + b0) == multiset(a0) + multiset(b0);
    assert multiset(a1 + b1) == multiset(a1) + multiset(b1);
  }

  /** Sweeping the next child extends the sweep. */
  lemma SweepChild(cap: nat, cd: Codec, bs0: Blocks, bs1: Blocks, bs2: Blocks, done: seq<Item>, l: nat, it: Item,
                   kept: seq<Item>, kept': seq<Item>, keep: Item -> bool, link: Item)
    requires Sweeping(cap, bs0, bs1, done, l, kept, keep)
    requires forall x :: x in Nodes(bs0, it.tid.block, l) ==> x !in FlatMap(done, NodesOf(bs0, l))
    requires Nodes(bs1, it.tid.block, l) == Nodes(bs0, it.tid.block, l)
    requires Leaves(bs1, it.tid.block, l) == Leaves(bs0, it.tid.block, l)
    requires Swept(cap, bs1, bs2, it.tid.block, l, keep) && !bs1[it.tid.block].root
    requires link.tid.block == it.tid.block
    requires kept' == if bs2[it.tid.block].items == [] then kept else kept + [link]
    ensures Sweeping(cap, bs0, bs2, done + [it], l, kept', keep)
  {
    var c := it.tid.block;
    var f0, f1, f2 := NodesOf(bs0, l), NodesOf(bs1, l), NodesOf(bs2, l);
    KeptFrame(cap, cd, bs0, bs1, bs2, done, l, c, kept, keep);
    FlatMapConcat(done, [it], f0);
    FlatMapOne(it, f0);
    OutsideBoth(bs0, bs1, bs2, FlatMap(done, f0), f0(it));
    SubSum(FlatMap(done, f0), FlatMap(kept, f2), f0(it), f2(it));
    FlatMapConcat(kept, [link], f2);
    FlatMapOne(link, f2);
    SweepLeaves(bs0, bs2, done, l, it, kept, kept', keep, link);
  }

  lemma SweepLeaves(bs0: Blocks, bs2: Blocks, done: seq<Item>, l: nat, it: Item, kept: seq<Item>, kept': seq<Item>,
                    keep: Item -> bool, link: Item)
    requires FlatMap(kept, LeavesOf(bs2, l)) == Filter(FlatMap(done, LeavesOf(bs0, l)), keep)
    requires Leaves(bs2, it.tid.block, l) == Filter(Leaves(bs0, it.tid.block, l), keep)
    requires link.tid.block == it.tid.block
    requires kept' == kept + [link] || (kept' == kept && Leaves(bs2, it.tid.block, l) == [])
    ensures FlatMap(kept', LeavesOf(bs2, l)) == Filter(FlatMap(done + [it], LeavesOf(bs0, l)), keep)
  {
    FlatMapConcat(done, [it], LeavesOf(bs0, l));
    FlatMapOne(it, LeavesOf(bs0, l));
    FilterConcat(FlatMap(done, LeavesOf(bs0, l)), Leaves(bs0, it.tid.block, l), keep);
    FlatMapConcat(kept, [link], LeavesOf(bs2, l));
    FlatMapOne(link, LeavesOf(bs2, l));
  }

  /** What one more child adds to the counts. */
  lemma SweepCounts(cap: nat, cd: Codec, bs0: Blocks, bs1: Blocks, bs2: Blocks, done: seq<Item>, l: nat, it: Item,
                    kept: seq<Item>, kept': seq<Item>, keep: Item -> bool, link: Item)
    requires Sweeping(cap, bs0, bs1, done, l, kept, keep)
    requires forall x :: x in Nodes(bs0, it.tid.block, l) ==> x !in FlatMap(done, NodesOf(bs0, l))
    requires Nodes(bs1, it.tid.block, l) == Nodes(bs0, it.tid.block, l)
    requires Swept(cap, bs1, bs2, it.tid.block, l, keep) && link.tid.block == it.tid.block
    requires kept' == if bs2[it.tid.block].items == [] then kept else kept + [link]
    ensures |FlatMap(done + [it], NodesOf(bs0, l))| == |FlatMap(done, NodesOf(bs0, l))| + |Nodes(bs0, it.tid.block, l)|
    ensures |FlatMap(done + [it], LeavesOf(bs0, l))| == |FlatMap(done, LeavesOf(bs0, l))| +
            |Leaves(bs0, it.tid.block, l)|
    ensures |FlatMap(kept', LeavesOf(bs2, l))| == |FlatMap(kept, LeavesOf(bs1, l))| + |Leaves(bs2, it.tid.block, l)|
    ensures |FlatMap(kept', NodesOf(bs2, l))| == |FlatMap(kept, NodesOf(bs1, l))| +
            if bs2[it.tid.block].items == [] then 0 else |Nodes(bs2, it.tid.block, l)|
    ensures bs2[it.tid.block].items == [] ==> |Nodes(bs2, it.tid.block, l)| == 1
  {
    KeptFrame(cap, cd, bs0, bs1, bs2, done, l, it.tid.block, kept, keep);
    FlatMapConcat(done, [it], NodesOf(bs0, l));
    FlatMapConcat(done, [it], LeavesOf(bs0, l));
    FlatMapOne(it, NodesOf(bs0, l));
    FlatMapOne(it, LeavesOf(bs0, l));
    FlatMapConcat(kept, [link], NodesOf(bs2, l));
    FlatMapConcat(kept, [link], LeavesOf(bs2, l));
    FlatMapOne(link, NodesOf(bs2, l));
    FlatMapOne(link, LeavesOf(bs2, l));
  }

  // -------------------------------------------------------------- a whole page

  lemma SweepApart(cap: nat, bs0: Blocks, bs1: Blocks, b: nat, l: nat, kept: seq<Item>, keep: Item -> bool)
    requires l > 0 && b in bs0 && Distinct(multiset(Nodes(bs0, b, l)))
    requires Sweeping(cap, bs0, bs1, bs0[b].items, l - 1, kept, keep)
    ensures forall x :: x in FlatMap(kept, NodesOf(bs1, l - 1)) ==> x != b && x in bs1
    ensures multiset([b] + FlatMap(kept, NodesOf(bs1, l - 1))) <= multiset(Nodes(bs0, b, l))
    ensures b in bs1 && bs1[b] == bs0[b] && Outside(bs0, bs1, Nodes(bs0, b, l))
  {
    var f0, f1 := NodesOf(bs0, l - 1), NodesOf(bs1, l - 1);
    DistinctSplit([b], FlatMap(bs0[b].items, f0));
    assert b in [b];
    SubMember(FlatMap(kept, f1), FlatMap(bs0[b].items, f0));
    KidsAllocated(cap, bs1, kept, l - 1);
    SubSum([b], [b], FlatMap(bs0[b].items, f0), FlatMap(kept, f1));
  }

  lemma WroteWithin(bs0: Blocks, bs1: Blocks, bs2: Blocks, b: nat, s: seq<nat>)
    requires Outside(bs0, bs1, s) && b in s && b in bs1 && b in bs2 && bs2 == bs1[b := bs2[b]]
    ensures Outside(bs0, bs2, s)
  {
  }

  /** A page written over its kept children. */
  lemma SweptPage(cap: nat, cd: Codec, bs1: Blocks, bs2: Blocks, b: nat, l: nat, kept: seq<Item>)
    requires l > 0 && b in bs2 && bs2[b].items == kept && bs2[b].level == l && !bs2[b].leaf && |kept| <= cap
    requires Kids(cap, bs1, kept, l - 1)
    requires forall x :: x in FlatMap(kept, NodesOf(bs1, l - 1)) ==> x != b && x in bs1
    requires forall x :: x in bs1 && x != b ==> x in bs2 && bs2[x] == bs1[x]
    ensures Tree(cap, bs2, b, l)
    ensures Nodes(bs2, b, l) == [b] + FlatMap(kept, NodesOf(bs1, l - 1))
    ensures Leaves(bs2, b, l) == FlatMap(kept, LeavesOf(bs1, l - 1))
    ensures kept == [] <==> Leaves(bs2, b, l) == []
    ensures TightKids(cd, bs1, kept, l - 1) ==> Tight(cd, bs2, b, l)
  {
    Install(cap, cd, bs1, bs2, b, l);
    KidsHaveLeaves(cap, bs1, kept, l - 1);
  }

  lemma SweepInner(cap: nat, cd: Codec, bs0: Blocks, bs1: Blocks, bs2: Blocks, b: nat, l: nat, kept: seq<Item>,
                   keep: Item -> bool)
    requires l > 0 && Tree(cap, bs0, b, l) && Distinct(multiset(Nodes(bs0, b, l)))
    requires Sweeping(cap, bs0, bs1, bs0[b].items, l - 1, kept, keep)
    requires bs2 == bs1[b := bs0[b].(items := kept)]
    ensures Swept(cap, bs0, bs2, b, l, keep)
    ensures Nodes(bs2, b, l) == [b] + FlatMap(kept, NodesOf(bs1, l - 1))
    ensures Leaves(bs2, b, l) == FlatMap(kept, LeavesOf(bs1, l - 1))
    ensures TightKids(cd, bs1, kept, l - 1) ==> Tight(cd, bs2, b, l)
  {
    SweepApart(cap, bs0, bs1, b, l, kept, keep);
    WroteWithin(bs0, bs1, bs2, b, Nodes(bs0, b, l));
    SweptPage(cap, cd, bs1, bs2, b, l, kept);
  }

  lemma SweepLeaf(cap: nat, cd: Codec, bs0: Blocks, bs1: Blocks, b: nat, keep: Item -> bool)
    requires Tree(cap, bs0, b, 0)
    requires bs1 == bs0[b := bs0[b].(items := Filter(bs0[b].items, keep))]
    ensures Swept(cap, bs0, bs1, b, 0, keep)
    ensures Nodes(bs0, b, 0) == Nodes(bs1, b, 0) == [b]
    ensures Leaves(bs0, b, 0) == bs0[b].items && Leaves(bs1, b, 0) == bs1[b].items
    ensures KeptGood(cd, bs0[b].items, keep) ==> Tight(cd, bs1, b, 0)
  {
    FilterMembers(bs0[b].items, keep);
  }
}
