/** The resumable scan: an explicit stack that walks the tree one result at a
    time. */
module Cursor {
  import opened Common
  import opened Boxes
  import CubeOps
  import opened Flatten
  import opened PageTree
  import opened Growth
  import opened Pruning
  import opened RTree

  /** A page on the path to the current one, and the tuple to look at next. */
  datatype Frame = Frame(blk: nat, level: nat, next: nat)

  datatype ScanKey = ScanKey(isNull: bool, strategy: nat, arg: Cube)

  datatype Query = Query(box: Box, strategy: Strategy)

  // -------------------------------------------------------- what is still due

  /** The leaf tuples a frame has yet to reach. */
  ghost function Rest(bs: Blocks, f: Frame): seq<Item>
    requires f.blk in bs && f.next <= |bs[f.blk].items|
  {
    if f.level == 0 then bs[f.blk].items[f.next..]
    else FlatMap(bs[f.blk].items[f.next..], LeavesOf(bs, f.level - 1))
  }

  ghost predicate InTree(cap: nat, bs: Blocks, f: Frame)
  {
    Tree(cap, bs, f.blk, f.level) && f.next <= |bs[f.blk].items|
  }

  /** The stack is a path down from the root: each frame was entered through the
      downlink its parent last passed, one level below it. */
  ghost predicate Path(cap: nat, bs: Blocks, stack: seq<Frame>)
  {
    (forall i :: 0 <= i < |stack| ==> InTree(cap, bs, stack[i])) &&
    forall i :: 0 < i < |stack| ==> Entered(bs, stack[i - 1], stack[i])
  }

  ghost predicate Entered(bs: Blocks, parent: Frame, f: Frame)
  {
    parent.level == f.level + 1 && parent.blk in bs && 0 < parent.next <= |bs[parent.blk].items| &&
    bs[parent.blk].items[parent.next - 1].tid.block == f.blk
  }

  /** The leaf tuples the stack has yet to reach, in scan order. */
  ghost function Pending(cap: nat, bs: Blocks, stack: seq<Frame>): seq<Item>
    requires Path(cap, bs, stack)
  {
    if stack == [] then []
    else Rest(bs, stack[|stack| - 1]) + Pending(cap, bs, stack[..|stack| - 1])
  }

  /** Pages still to be visited, weighed so that entering a page costs less than
      passing its downlink gains. */
  ghost function Work(cap: nat, bs: Blocks, stack: seq<Frame>): nat
    requires Path(cap, bs, stack)
  {
    if stack == [] then 0
    else FrameWork(bs, stack[|stack| - 1]) + Work(cap, bs, stack[..|stack| - 1])
  }

  ghost function FrameWork(bs: Blocks, f: Frame): nat
    requires f.blk in bs && f.next <= |bs[f.blk].items|
  {
    if f.level == 0 then 1 else 1 + 2 * |FlatMap(bs[f.blk].items[f.next..], NodesOf(bs, f.level - 1))|
  }

  // --------------------------------------------------------------- stack steps

  lemma FreshFrame(cap: nat, bs: Blocks, b: nat, l: nat)
    requires Tree(cap, bs, b, l)
    ensures Rest(bs, Frame(b, l, 0)) == Leaves(bs, b, l)
    ensures FrameWork(bs, Frame(b, l, 0)) < 2 * |Nodes(bs, b, l)|
  {
    assert bs[b].items[0..] == bs[b].items;
  }

  function Child(bs: Blocks, f: Frame): Frame
    requires f.blk in bs && f.level > 0 && f.next < |bs[f.blk].items|
  {
    Frame(bs[f.blk].items[f.next].tid.block, f.level - 1, 0)
  }

  /** Passing a downlink and entering the child moves its leaves from the frame
      to the child, and uses up work. */
  lemma Descend(cap: nat, bs: Blocks, f: Frame)
    requires InTree(cap, bs, f) && f.level > 0 && f.next < |bs[f.blk].items|
    ensures InTree(cap, bs, Child(bs, f))
    ensures Rest(bs, f) == Rest(bs, Child(bs, f)) + Rest(bs, f.(next := f.next + 1))
    ensures FrameWork(bs, Child(bs, f)) + FrameWork(bs, f.(next := f.next + 1)) < FrameWork(bs, f)
  {
    var items := bs[f.blk].items;
    ChildIsKid(cap, bs, f.blk, f.level, f.next);
    FreshFrame(cap, bs, items[f.next].tid.block, f.level - 1);
    FlatMapHead(items, f.next, LeavesOf(bs, f.level - 1));
    FlatMapHead(items, f.next, NodesOf(bs, f.level - 1));
  }

  lemma FlatMapHead<A, B>(xs: seq<A>, i: nat, f: A -> seq<B>)
    requires i < |xs|
    ensures FlatMap(xs[i..], f) == f(xs[i]) + FlatMap(xs[i + 1..], f)
  {
    assert xs[i..][1..] == xs[i + 1..];
  }

  /** Replacing the top frame, or putting one more on it, keeps the path. */
  lemma PathTop(cap: nat, bs: Blocks, stack: seq<Frame>, f: Frame)
    requires Path(cap, bs, stack) && stack != [] && InTree(cap, bs, f)
    requires f.blk == stack[|stack| - 1].blk && f.level == stack[|stack| - 1].level
    ensures Path(cap, bs, stack[..|stack| - 1] + [f]) && Path(cap, bs, stack[..|stack| - 1])
    ensures Pending(cap, bs, stack[..|stack| - 1] + [f]) == Rest(bs, f) + Pending(cap, bs, stack[..|stack| - 1])
    ensures Work(cap, bs, stack[..|stack| - 1] + [f]) == FrameWork(bs, f) + Work(cap, bs, stack[..|stack| - 1])
  {
    var n := |stack| - 1;
    var s := stack[..n] + [f];
    assert s[..n] == stack[..n];
    forall i | 0 < i < |s| ensures Entered(bs, s[i - 1], s[i]) { assert Entered(bs, stack[i - 1], stack[i]); }
  }

  lemma PathPush(cap: nat, bs: Blocks, stack: seq<Frame>, f: Frame)
    requires Path(cap, bs, stack) && InTree(cap, bs, f)
    requires stack != [] ==> Entered(bs, stack[|stack| - 1], f)
    ensures Path(cap, bs, stack + [f])
    ensures Pending(cap, bs, stack + [f]) == Rest(bs, f) + Pending(cap, bs, stack)
    ensures Work(cap, bs, stack + [f]) == FrameWork(bs, f) + Work(cap, bs, stack)
  {
    var s := stack + [f];
    assert s[..|stack|] == stack;
    forall i | 0 < i < |s| ensures Entered(bs, s[i - 1], s[i]) {
      if i < |stack| { assert Entered(bs, stack[i - 1], stack[i]); }
    }
  }

  /** Levels fall by one along a path, so it is never deeper than the tree. */
  lemma {:induction false} PathDepth(cap: nat, bs: Blocks, stack: seq<Frame>)
    requires Path(cap, bs, stack) && stack != []
    ensures stack[0].level == stack[|stack| - 1].level + |stack| - 1
    ensures |stack| <= stack[0].level + 1
  {
    var n := |stack| - 1;
    if n > 0 {
      assert Entered(bs, stack[n - 1], stack[n]);
      var front := stack[..n];
      forall i | 0 < i < |front| ensures Entered(bs, front[i - 1], front[i]) {
        assert Entered(bs, stack[i - 1], stack[i]);
      }
      PathDepth(cap, bs, front);
    }
  }

  // ------------------------------------------------------------------ the query

  function StrategyOf(n: nat): Option<Strategy>
  {
    if n == 1 then Some(Overlap) else if n == 2 then Some(Contains) else if n == 3 then Some(Contained) else None
  }

  predicate UsableKey(k: ScanKey) { !k.isNull && 1 <= k.strategy <= 3 }

  /** Each strategy number stands for the SQL operator it is registered for, on
      cubes where index and operator agree. */
  lemma StrategyMeans(u: Int64, n: nat, t: Cube, a: Cube)
    requires InRange(t) && InRange(a) && CubeOps.Whole(t) && CubeOps.Whole(a) && StrategyOf(n).Some?
    ensures Matches(Decode(u, t), Decode(u, a), StrategyOf(n).value) <==> CubeOps.OperatorAnswers(n, t, a)
  {
    CubeOps.WholeCubesAgree(u, t, a);
  }

  /** The first usable key decides the scan. */
  ghost predicate FirstUsable(cd: Codec, keys: seq<ScanKey>, q: Option<Query>)
  {
    match q
    case None => forall i :: 0 <= i < |keys| ==> !UsableKey(keys[i])
    case Some(query) =>
      exists i :: 0 <= i < |keys| && UsableKey(keys[i]) && (forall j :: 0 <= j < i ==> !UsableKey(keys[j])) &&
                  query == Query(cd.dec(keys[i].arg), StrategyOf(keys[i].strategy).value)
  }

  lemma FirstUsableUnique(cd: Codec, keys: seq<ScanKey>, q: Option<Query>, q': Option<Query>)
    requires FirstUsable(cd, keys, q) && FirstUsable(cd, keys, q')
    ensures q == q'
  {
  }

  /** `rtree_parse_query`. */
  method ParseQuery(cd: Codec, keys: seq<ScanKey>) returns (q: Option<Query>)
    ensures FirstUsable(cd, keys, q)
    ensures q.None? <==> forall i :: 0 <= i < |keys| ==> keys[i].isNull || !(1 <= keys[i].strategy <= 3)
    ensures q.Some? ==>
            exists i :: 0 <= i < |keys| && !keys[i].isNull && 1 <= keys[i].strategy <= 3 &&
              (forall j :: 0 <= j < i ==> keys[j].isNull || !(1 <= keys[j].strategy <= 3)) &&
              q.value.box == cd.dec(keys[i].arg) && StrategyOf(keys[i].strategy) == Some(q.value.strategy)
  {
    for i := 0 to |keys|
      invariant forall j :: 0 <= j < i ==> !UsableKey(keys[j])
    {
      if keys[i].isNull || keys[i].strategy < 1 || keys[i].strategy > 3 {
        continue;
      }
      return Some(Query(cd.dec(keys[i].arg), StrategyOf(keys[i].strategy).value));
    }
    q := None;
  }

  /** The leaf loop of `rtree_scan_next`: the next matching tuple of a page. */
  method NextMatch(cd: Codec, items: seq<Item>, from: nat, q: Query) returns (offset: nat)
    requires from <= |items|
    ensures from <= offset <= |items|
    ensures offset < |items| ==> Matches(cd.dec(items[offset].key), q.box, q.strategy)
    ensures Filter(items[from..offset], Matcher(cd, q.box, q.strategy)) == []
  {
    offset := from;
    assert items[from..from] == [];
    while offset < |items|
      invariant from <= offset <= |items|
      invariant Filter(items[from..offset], Matcher(cd, q.box, q.strategy)) == []
    {
      if Matches(cd.dec(items[offset].key), q.box, q.strategy) {
        return;
      }
      assert items[from..offset + 1] == items[from..offset] + [items[offset]];
      FilterConcat(items[from..offset], [items[offset]], Matcher(cd, q.box, q.strategy));
      offset := offset + 1;
    }
  }

  /** What a scan with this query returns from here. */
  ghost function Due(cap: nat, cd: Codec, bs: Blocks, stack: seq<Frame>, q: Query): seq<Item>
    requires Path(cap, bs, stack)
  {
    Filter(Pending(cap, bs, stack), Matcher(cd, q.box, q.strategy))
  }

  lemma DueSplit(cap: nat, cd: Codec, bs: Blocks, stack: seq<Frame>, q: Query)
    requires Path(cap, bs, stack) && stack != []
    ensures Path(cap, bs, stack[..|stack| - 1])
    ensures Due(cap, cd, bs, stack, q) ==
            Filter(Rest(bs, stack[|stack| - 1]), Matcher(cd, q.box, q.strategy)) +
            Due(cap, cd, bs, stack[..|stack| - 1], q)
  {
    PathTop(cap, bs, stack, stack[|stack| - 1]);
    FilterConcat(Rest(bs, stack[|stack| - 1]), Pending(cap, bs, stack[..|stack| - 1]), Matcher(cd, q.box, q.strategy));
  }

  /** The stack with `f` in place of its top frame. */
  function WithTop(stack: seq<Frame>, f: Frame): (s: seq<Frame>)
    requires stack != []
    ensures |s| == |stack| && s[..|s| - 1] == stack[..|stack| - 1] && s[|s| - 1] == f
  {
    stack[..|stack| - 1] + [f]
  }

  /** Nothing left on the page: the frame can go. */
  lemma PopStep(cap: nat, cd: Codec, bs: Blocks, stack: seq<Frame>, q: Query)
    requires Path(cap, bs, stack) && stack != []
    requires Filter(Rest(bs, stack[|stack| - 1]), Matcher(cd, q.box, q.strategy)) == []
    ensures Path(cap, bs, stack[..|stack| - 1])
    ensures Due(cap, cd, bs, stack[..|stack| - 1], q) == Due(cap, cd, bs, stack, q)
    ensures Work(cap, bs, stack[..|stack| - 1]) < Work(cap, bs, stack)
  {
    DueSplit(cap, cd, bs, stack, q);
  }

  lemma PopLeaf(cap: nat, cd: Codec, bs: Blocks, stack: seq<Frame>, f: Frame, q: Query)
    requires Path(cap, bs, stack) && stack != [] && f == stack[|stack| - 1]
    requires f.blk in bs && f.level == 0 && f.next <= |bs[f.blk].items|
    requires Filter(bs[f.blk].items[f.next..|bs[f.blk].items|], Matcher(cd, q.box, q.strategy)) == []
    ensures Path(cap, bs, stack[..|stack| - 1])
    ensures Due(cap, cd, bs, stack[..|stack| - 1], q) == Due(cap, cd, bs, stack, q)
    ensures Work(cap, bs, stack[..|stack| - 1]) < Work(cap, bs, stack)
  {
    assert bs[f.blk].items[f.next..|bs[f.blk].items|] == bs[f.blk].items[f.next..];
    PopStep(cap, cd, bs, stack, q);
  }

  lemma PopInner(cap: nat, cd: Codec, bs: Blocks, stack: seq<Frame>, f: Frame, q: Query)
    requires Path(cap, bs, stack) && stack != [] && f == stack[|stack| - 1]
    requires f.blk in bs && f.level > 0 && f.next == |bs[f.blk].items|
    ensures Path(cap, bs, stack[..|stack| - 1])
    ensures Due(cap, cd, bs, stack[..|stack| - 1], q) == Due(cap, cd, bs, stack, q)
    ensures Work(cap, bs, stack[..|stack| - 1]) < Work(cap, bs, stack)
  {
    PopStep(cap, cd, bs, stack, q);
  }

  lemma TopInTree(cap: nat, bs: Blocks, stack: seq<Frame>)
    requires Path(cap, bs, stack) && stack != []
    ensures stack[|stack| - 1].blk in bs && stack[|stack| - 1].next <= |bs[stack[|stack| - 1].blk].items|
  {
    assert InTree(cap, bs, stack[|stack| - 1]);
  }

  lemma NothingDue(cap: nat, cd: Codec, bs: Blocks, q: Query)
    ensures Path(cap, bs, []) && Due(cap, cd, bs, [], q) == []
  {
  }

  /** The stack after passing the top frame's next downlink. */
  function Descended(bs: Blocks, stack: seq<Frame>, f: Frame): seq<Frame>
    requires stack != [] && f.blk in bs && f.level > 0 && f.next < |bs[f.blk].items|
  {
    WithTop(stack, f.(next := f.next + 1)) + [Child(bs, f)]
  }

  lemma DescendStep(cap: nat, cd: Codec, bs: Blocks, stack: seq<Frame>, f: Frame, q: Query)
    requires Path(cap, bs, stack) && stack != [] && f == stack[|stack| - 1]
    requires f.blk in bs && f.level > 0 && f.next < |bs[f.blk].items|
    ensures Path(cap, bs, Descended(bs, stack, f))
    ensures Due(cap, cd, bs, Descended(bs, stack, f), q) == Due(cap, cd, bs, stack, q)
    ensures Work(cap, bs, Descended(bs, stack, f)) < Work(cap, bs, stack)
  {
    hide Rest, FrameWork, Pending, Work, Filter, Entered;
    var g, below := f.(next := f.next + 1), stack[..|stack| - 1];
    Descend(cap, bs, f);
    PathTop(cap, bs, stack, f);
    PathTop(cap, bs, stack, g);
    EnteredChild(bs, f);
    PathPush(cap, bs, WithTop(stack, g), Child(bs, f));
    assert WithTop(stack, f) == stack;
    Assoc(Rest(bs, Child(bs, f)), Rest(bs, g), Pending(cap, bs, below));
  }

  lemma EnteredChild(bs: Blocks, f: Frame)
    requires f.blk in bs && f.level > 0 && f.next < |bs[f.blk].items|
    ensures Entered(bs, f.(next := f.next + 1), Child(bs, f))
  {
  }

  lemma Assoc<T>(a: seq<T>, b: seq<T>, c: seq<T>)
    ensures (a + b) + c == a + (b + c)
  {
  }

  /** Taking a matching tuple takes the first one due. */
  lemma TakeStep(cap: nat, cd: Codec, bs: Blocks, stack: seq<Frame>, f: Frame, q: Query, offset: nat)
    requires Path(cap, bs, stack) && stack != [] && f == stack[|stack| - 1]
    requires f.blk in bs && f.level == 0 && f.next <= offset < |bs[f.blk].items|
    requires Matches(cd.dec(bs[f.blk].items[offset].key), q.box, q.strategy)
    requires Filter(bs[f.blk].items[f.next..offset], Matcher(cd, q.box, q.strategy)) == []
    ensures Path(cap, bs, WithTop(stack, f.(next := offset + 1)))
    ensures Due(cap, cd, bs, stack, q) ==
            [bs[f.blk].items[offset]] + Due(cap, cd, bs, WithTop(stack, f.(next := offset + 1)), q)
  {
    hide Filter, Due, Pending, Tree;
    var g, items := f.(next := offset + 1), bs[f.blk].items;
    assert InTree(cap, bs, f);
    PathTop(cap, bs, stack, g);
    DueSplit(cap, cd, bs, stack, q);
    DueSplit(cap, cd, bs, WithTop(stack, g), q);
    FilterTake(items, f.next, offset, Matcher(cd, q.box, q.strategy));
    Assoc([items[offset]], Filter(Rest(bs, g), Matcher(cd, q.box, q.strategy)),
          Due(cap, cd, bs, stack[..|stack| - 1], q));
  }

  lemma TreeIn(cap: nat, bs: Blocks, b: nat, l: nat)
    requires Tree(cap, bs, b, l)
    ensures b in bs && InTree(cap, bs, Frame(b, l, 0))
  {
  }

  lemma PathOne(cap: nat, bs: Blocks, f: Frame)
    requires InTree(cap, bs, f)
    ensures Path(cap, bs, [f]) && Pending(cap, bs, [f]) == Rest(bs, f)
  {
    hide Rest, Tree, Work, FrameWork, Leaves, Nodes;
    var none: seq<Frame> := [];
    assert [f][..0] == none;
    assert Pending(cap, bs, none) == [];
  }

  /** A scan starts with everything due. */
  lemma StartDue(cap: nat, cd: Codec, bs: Blocks, root: nat, l: nat, q: Query)
    requires Tree(cap, bs, root, l)
    ensures Path(cap, bs, [Frame(root, l, 0)])
    ensures Due(cap, cd, bs, [Frame(root, l, 0)], q) == Filter(Leaves(bs, root, l), Matcher(cd, q.box, q.strategy))
  {
    hide Tree, Leaves, Nodes, Filter, FrameWork, Path, Pending, Rest, InTree;
    TreeIn(cap, bs, root, l);
    FreshFrame(cap, bs, root, l);
    PathOne(cap, bs, Frame(root, l, 0));
  }

  lemma FilterTake<T>(xs: seq<T>, from: nat, i: nat, p: T -> bool)
    requires from <= i < |xs| && p(xs[i]) && Filter(xs[from..i], p) == []
    ensures Filter(xs[from..], p) == [xs[i]] + Filter(xs[i + 1..], p)
  {
    assert xs[from..] == xs[from..i] + xs[i..];
    FilterConcat(xs[from..i], xs[i..], p);
    assert xs[i..][1..] == xs[i + 1..];
  }

  class Scan {
    const index: Index
    var keys: seq<ScanKey>
    var firstCall: bool
    var query: Option<Query>
    var stack: seq<Frame>

    ghost predicate Valid()
      reads this, index
    {
      index.Valid() && index.nblocks >= 2 && Path(index.cap, index.blocks, stack) &&
      (stack != [] ==> stack[0].blk == index.root && stack[0].level == index.rootLevel) &&
      if firstCall then query == None && stack == [] else query.Some? && FirstUsable(index.cd, keys, query)
    }

    /** What the scan has yet to return. */
    ghost function Remaining(q: Query): seq<Item>
      requires Valid()
      reads this, index
    {
      if firstCall then Filter(index.Entries(), Matcher(index.cd, q.box, q.strategy))
      else Due(index.cap, index.cd, index.blocks, stack, q)
    }

    /** `temporal_rtree_beginscan`. */
    constructor (index: Index)
      requires index.Valid() && index.nblocks >= 2
      ensures Valid() && firstCall && this.index == index && keys == []
    {
      this.index, keys, firstCall, query, stack := index, [], true, None, [];
    }

    /** `temporal_rtree_rescan`; without new keys the old ones stay. */
    method Rescan(newKeys: seq<ScanKey>)
      requires index.Valid() && index.nblocks >= 2
      modifies this
      ensures Valid() && firstCall && keys == (if newKeys != [] then newKeys else old(keys))
    {
      if newKeys != [] {
        keys := newKeys;
      }
      firstCall, query, stack := true, None, [];
    }

    /** `rtree_initialize_scan`. */
    method Initialize() returns (ready: bool)
      requires Valid() && firstCall
      modifies this`firstCall, this`query, this`stack
      ensures Valid() && (ready <==> !firstCall)
      ensures !ready ==> FirstUsable(index.cd, keys, None)
      ensures ready ==>
              query.Some? && Remaining(query.value) == Answer(index.cd, index.Entries(), query)
    {
      var q := ParseQuery(index.cd, keys);
      if q == None {
        return false;
      }
      query, firstCall := q, false;
      stack := [Frame(index.root, index.rootLevel, 0)];
      StartDue(index.cap, index.cd, index.blocks, index.root, index.rootLevel, q.value);
      ready := true;
    }

    /** `rtree_scan_next`: the next matching tuple, or nothing when the stack
        runs out. */
    method Next() returns (tid: Option<Tid>)
      requires Valid() && !firstCall
      modifies this`stack
      ensures Valid()
      ensures var due := old(Remaining(query.value));
              if due == [] then tid == None && Remaining(query.value) == []
              else tid == Some(due[0].tid) && Remaining(query.value) == due[1..]
    {
      hide Path, Tree, Pending, Due, Filter, Work, IsRooted, Leaves, FirstUsable, Matcher;
      ghost var due := Remaining(query.value);
      var cap, cd := index.cap, index.cd;
      while stack != []
        invariant Valid() && Remaining(query.value) == due
        decreases Work(index.cap, index.blocks, stack)
      {
        TopInTree(cap, index.blocks, stack);
        var frame := stack[|stack| - 1];
        var items := index.blocks[frame.blk].items;
        if frame.level == 0 {
          var offset := NextMatch(cd, items, frame.next, query.value);
          if offset < |items| {
            TakeStep(cap, cd, index.blocks, stack, frame, query.value, offset);
            stack := WithTop(stack, frame.(next := offset + 1));
            return Some(items[offset].tid);
          }
          PopLeaf(cap, cd, index.blocks, stack, frame, query.value);
          stack := stack[..|stack| - 1];
        } else if frame.next < |items| {
          DescendStep(cap, cd, index.blocks, stack, frame, query.value);
          stack := Descended(index.blocks, stack, frame);
        } else {
          PopInner(cap, cd, index.blocks, stack, frame, query.value);
          stack := stack[..|stack| - 1];
        }
      }
      NothingDue(cap, cd, index.blocks, query.value);
      tid := None;
    }

    /** `temporal_rtree_gettuple`; `q` is what the scan keys ask for. */
    method GetTuple(forward: bool, ghost q: Option<Query>) returns (tid: Option<Tid>)
      requires Valid() && FirstUsable(index.cd, keys, q)
      modifies this`firstCall, this`query, this`stack
      ensures Valid() && |stack| <= index.rootLevel + 1
      ensures !forward ==> tid == None && stack == old(stack) && query == old(query) && firstCall == old(firstCall)
      ensures q == None ==> tid == None
      ensures forward && q.Some? ==>
              var due := old(Remaining(q.value));
              if due == [] then tid == None && Remaining(q.value) == []
              else tid == Some(due[0].tid) && Remaining(q.value) == due[1..]
    {
      hide Path, Pending, Due, Filter, IsRooted, Leaves, FirstUsable, Matcher;
      Shallow();
      if !forward {
        return None;
      }
      if firstCall {
        var ready := Initialize();
        if !ready {
          FirstUsableUnique(index.cd, keys, q, None);
          return None;
        }
      }
      FirstUsableUnique(index.cd, keys, q, query);
      tid := Next();
      Shallow();
    }

    lemma Shallow()
      requires Valid()
      ensures |stack| <= index.rootLevel + 1
    {
      if stack != [] { PathDepth(index.cap, index.blocks, stack); }
    }
  }

  function Tids(items: seq<Item>): (tids: seq<Tid>)
    ensures |tids| == |items| && forall i :: 0 <= i < |items| ==> tids[i] == items[i].tid
  {
    seq(|items|, i requires 0 <= i < |items| => items[i].tid)
  }

  /** What a scan with these keys asks for: the matching tuples, or none when no
      key is usable. */
  ghost function Answer(cd: Codec, entries: seq<Item>, q: Option<Query>): seq<Item>
  {
    match q
    case None => []
    case Some(query) => Filter(entries, Matcher(cd, query.box, query.strategy))
  }

  /** A rescan read to exhaustion returns the answer, in tree order. */
  method ReadAll(scan: Scan, keys: seq<ScanKey>, ghost q: Option<Query>) returns (tids: seq<Tid>)
    requires scan.index.Valid() && scan.index.nblocks >= 2 && keys != [] && FirstUsable(scan.index.cd, keys, q)
    modifies scan
    ensures tids == Tids(Answer(scan.index.cd, scan.index.Entries(), q))
  {
    hide FirstUsable, Filter, Matcher, IsRooted, Leaves, Path, Due;
    scan.Rescan(keys);
    ghost var all := Answer(scan.index.cd, scan.index.Entries(), q);
    tids := [];
    while true
      invariant scan.Valid() && scan.keys == keys
      invariant q == None ==> tids == []
      invariant q.Some? ==> |tids| <= |all| && tids == Tids(all[..|tids|]) && scan.Remaining(q.value) == all[|tids|..]
      decreases |all| - |tids|
    {
      var tid := scan.GetTuple(true, q);
      if tid == None {
        break;
      }
      assert Tids(all[..|tids| + 1]) == Tids(all[..|tids|]) + [all[|tids|].tid];
      tids := tids + [tid.value];
    }
    assert q.Some? ==> all[..|all|] == all;
  }

  /** Build, then any serial run, then a full scan: it finds each tuple of the
      plain bag that matches its first usable key, as often as the bag holds it. */
  method BuildRunScan(index: Index, rows: seq<Row>, ops: seq<Op>, keys: seq<ScanKey>, ghost q: Option<Query>)
    returns (tids: seq<Tid>, ghost found: seq<Item>)
    requires index.Valid() && index.nblocks == 0 && keys != [] && FirstUsable(index.cd, keys, q)
    modifies index
    ensures tids == Tids(found)
    ensures forall x :: multiset(found)[x] ==
              if q.Some? && Matches(index.cd.dec(x.key), q.value.box, q.value.strategy)
              then Count(multiset(RowItems(rows)), ops, x) else 0
  {
    hide FirstUsable, IsRooted, Leaves, Path, Lawful, Tight, AllLinked, RowItems;
    var indexTuples := index.Build(rows);
    Run(index, ops);
    found := Answer(index.cd, index.Entries(), q);
    if q.Some? { FilterMultiset(index.Entries(), Matcher(index.cd, q.value.box, q.value.strategy)); }
    var scan := new Scan(index);
    tids := ReadAll(scan, keys, q);
  }

  // ----------------------------------------------------- runs and pruned scans

  /** Every key of the rows and of the insertions meets `p`. */
  ghost predicate AllKeys(p: Cube -> bool, rows: seq<Row>, ops: seq<Op>)
  {
    (forall i :: 0 <= i < |rows| && rows[i].key.Some? ==> p(rows[i].key.value)) &&
    forall i :: 0 <= i < |ops| && ops[i].InsertOp? && ops[i].key.Some? ==> p(ops[i].key.value)
  }

  lemma RowKeys(p: Cube -> bool, rows: seq<Row>, ops: seq<Op>, x: Item)
    requires AllKeys(p, rows, ops) && x in RowItems(rows)
    ensures p(x.key)
  {
    FlatMapIn(rows, RowItem, x);
    var r :| r in rows && x in RowItem(r);
    var i :| 0 <= i < |rows| && rows[i] == r;
  }

  /** What a run leaves was put in by it. */
  lemma {:induction false} CountedKeys(p: Cube -> bool, rows: seq<Row>, ops: seq<Op>, n: nat, x: Item)
    requires AllKeys(p, rows, ops) && n <= |ops| && Count(multiset(RowItems(rows)), ops[..n], x) > 0
    ensures p(x.key)
  {
    if n == 0 {
      assert x in multiset(RowItems(rows));
      RowKeys(p, rows, ops, x);
    } else {
      assert ops[..n][..n - 1] == ops[..n - 1];
      if Count(multiset(RowItems(rows)), ops[..n - 1], x) > 0 { CountedKeys(p, rows, ops, n - 1, x); }
    }
  }

  /** In-range keys of doubles whose box survives storage, in order where a query
      for contained rows is to be pruned. */
  ghost predicate Prunable(u: Int64, s: Strategy, c: Cube)
  {
    InRange(c) && DoubleCoords(c) && (c.UR(1) != PosInf || u == INT64_MAX) &&
    (s == Contained ==> Ordered(Decode(u, c)))
  }

  lemma PrunableIsGood(u: Int64, s: Strategy, c: Cube)
    requires Prunable(u, s, c)
    ensures CubeCodec(u).good(CubeCodec(u).dec(c)) && (s == Contained ==> Ordered(CubeCodec(u).dec(c)))
  {
    GoodCubeIff(u, Item(c, Tid(0, 0)));
  }

  ghost function PrunableKey(u: Int64, s: Strategy): Cube -> bool { (c: Cube) => Prunable(u, s, c) }

  lemma GoodRun(u: Int64, s: Strategy, rows: seq<Row>, ops: seq<Op>)
    requires AllKeys(PrunableKey(u, s), rows, ops)
    ensures AllGood(CubeCodec(u), RowItems(rows)) && GoodOps(CubeCodec(u), ops)
  {
    hide Prunable;
    forall x | x in RowItems(rows) ensures Good(CubeCodec(u), x) {
      RowKeys(PrunableKey(u, s), rows, ops, x);
      PrunableIsGood(u, s, x.key);
    }
    forall i | 0 <= i < |ops| ensures GoodOp(CubeCodec(u), ops[i]) {
      if ops[i].InsertOp? && ops[i].key.Some? { PrunableIsGood(u, s, ops[i].key.value); }
    }
  }

  lemma UsableEntries(u: Int64, s: Strategy, rows: seq<Row>, ops: seq<Op>, entries: seq<Item>)
    requires AllKeys(PrunableKey(u, s), rows, ops)
    requires forall x :: multiset(entries)[x] == Count(multiset(RowItems(rows)), ops, x)
    ensures Usable(CubeCodec(u), entries, s)
  {
    hide Prunable, Count, AllKeys;
    forall x | x in entries ensures s == Contained ==> Ordered(CubeCodec(u).dec(x.key)) {
      assert x in multiset(entries) && ops[..|ops|] == ops;
      CountedKeys(PrunableKey(u, s), rows, ops, |ops|, x);
      PrunableIsGood(u, s, x.key);
    }
  }

  /** Build, then any serial run, all boxes surviving storage: descending only
      where a downlink box may match finds just what the full scan returns. */
  method BuildRunPrune(index: Index, rows: seq<Row>, ops: seq<Op>, keys: seq<ScanKey>, ghost u: Int64, ghost q: Query)
    returns (tids: seq<Tid>)
    requires index.Valid() && index.nblocks == 0 && index.cd == CubeCodec(u)
    requires keys != [] && FirstUsable(index.cd, keys, Some(q)) && AllKeys(PrunableKey(u, q.strategy), rows, ops)
    modifies index
    ensures index.Valid() && index.nblocks >= 2 && index.TightBoxes()
    ensures tids == Tids(Pruned(index.cd, index.blocks, index.root, index.rootLevel, q.box, q.strategy))
  {
    hide FirstUsable, IsRooted, Leaves, Path, Lawful, Tight, AllLinked, RowItems, AllGood, GoodOps, AllKeys,
         CubeCodec, Count, Usable;
    CubeCodecLawful(u);
    GoodRun(u, q.strategy, rows, ops);
    BagGood(index.cd, RowItems(rows));
    var indexTuples := index.Build(rows);
    GoodPerm(index.cd, RowItems(rows), index.Entries());
    Run(index, ops);
    UsableEntries(u, q.strategy, rows, ops, index.Entries());
    PrunedIsExhaustive(index.cd, index.blocks, index.root, index.rootLevel, q.box, q.strategy);
    var scan := new Scan(index);
    tids := ReadAll(scan, keys, Some(q));
  }

  lemma BagGood(cd: Codec, entries: seq<Item>)
    requires AllGood(cd, entries)
    ensures forall x :: x in entries ==> Good(cd, x)
  {
  }

  lemma GoodPerm(cd: Codec, a: seq<Item>, b: seq<Item>)
    requires AllGood(cd, a) && multiset(a) == multiset(b)
    ensures AllGood(cd, b)
  {
    forall x | x in b ensures Good(cd, x) { assert x in multiset(b); assert x in multiset(a); }
  }

  // ---------------------------------------------------------- as SQL has it

  ghost predicate WholeKey(c: Cube) { InRange(c) && CubeOps.Whole(c) }

  ghost function WholeKeys(): Cube -> bool { (c: Cube) => WholeKey(c) }

  /** The rows a run leaves, by the operator and by the index. */
  lemma OperatorRow(u: Int64, n: nat, arg: Cube, rows: seq<Row>, ops: seq<Op>, x: Item)
    requires AllKeys(WholeKeys(), rows, ops) && WholeKey(arg) && 1 <= n <= 3
    requires Count(multiset(RowItems(rows)), ops, x) > 0
    ensures Matches(Decode(u, x.key), Decode(u, arg), StrategyOf(n).value) <==> CubeOps.OperatorAnswers(n, x.key, arg)
  {
    assert ops[..|ops|] == ops;
    CountedKeys(WholeKeys(), rows, ops, |ops|, x);
    StrategyMeans(u, n, x.key, arg);
  }

  lemma FirstIs(cd: Codec, keys: seq<ScanKey>, k: nat)
    requires k < |keys| && !keys[k].isNull && 1 <= keys[k].strategy <= 3
    requires forall j :: 0 <= j < k ==> keys[j].isNull || keys[j].strategy == 0 || keys[j].strategy > 3
    ensures FirstUsable(cd, keys, Some(Query(cd.dec(keys[k].arg), StrategyOf(keys[k].strategy).value)))
  {
    assert UsableKey(keys[k]);
  }

  /** Build, then any serial run, all cubes whole, in order and in range, then a
      full scan for a key of that kind: it returns the rows for which the SQL
      operator of the key's strategy number holds, though nothing is rechecked. */
  method BuildRunSelect(index: Index, rows: seq<Row>, ops: seq<Op>, keys: seq<ScanKey>, ghost k: nat, ghost u: Int64)
    returns (tids: seq<Tid>, ghost found: seq<Item>)
    requires index.Valid() && index.nblocks == 0 && index.cd == CubeCodec(u) && AllKeys(WholeKeys(), rows, ops)
    requires k < |keys| && !keys[k].isNull && 1 <= keys[k].strategy <= 3 && WholeKey(keys[k].arg)
    requires forall j :: 0 <= j < k ==> keys[j].isNull || keys[j].strategy == 0 || keys[j].strategy > 3
    modifies index
    ensures tids == Tids(found)
    ensures forall x :: multiset(found)[x] ==
              if CubeOps.OperatorAnswers(keys[k].strategy, x.key, keys[k].arg)
              then Count(multiset(RowItems(rows)), ops, x) else 0
  {
    hide FirstUsable, Count, RowItems, Matches, AllKeys, WholeKey, Decode, Encode, CubeOps.OperatorAnswers;
    ghost var n, arg := keys[k].strategy, keys[k].arg;
    ghost var q := Query(Decode(u, arg), StrategyOf(n).value);
    FirstIs(index.cd, keys, k);
    tids, found := BuildRunScan(index, rows, ops, keys, Some(q));
    forall x ensures multiset(found)[x] ==
        if CubeOps.OperatorAnswers(n, x.key, arg) then Count(multiset(RowItems(rows)), ops, x) else 0
    {
      if Count(multiset(RowItems(rows)), ops, x) > 0 { OperatorRow(u, n, arg, rows, ops, x); }
    }
  }
}
