/** The sibling chains that page splits leave behind. */
module Rightlinks {
  import opened Common
  import opened Flatten
  import opened PageTree
  import opened Growth

  /** Following rightlinks from `ch[0]` visits `ch` in order and stops, and `ch`
      holds every page of level `l` exactly once. */
  ghost predicate Chain(bs: Blocks, ch: seq<nat>, l: nat)
  {
    ch != [] && (forall i, j :: 0 <= i < j < |ch| ==> ch[i] != ch[j]) &&
    (forall x :: x in ch <==> x in bs && bs[x].level == l) &&
    forall i :: 0 <= i < |ch| ==> bs[ch[i]].rightlink == Next(ch, i)
  }

  function Next(ch: seq<nat>, i: nat): Option<nat>
  {
    if i + 1 < |ch| then Some(ch[i + 1]) else None
  }

  ghost predicate Chains(bs: Blocks, chains: seq<seq<nat>>)
  {
    (forall l :: 0 <= l < |chains| ==> Chain(bs, chains[l], l)) &&
    (forall x :: x in bs ==> bs[x].level < |chains|)
  }

  /** Each level's chain starts at the page it started at. */
  ghost predicate SameHeads(chains: seq<seq<nat>>, chains': seq<seq<nat>>)
  {
    |chains| == |chains'| &&
    forall l :: 0 <= l < |chains| && chains[l] != [] ==> chains'[l] != [] && chains'[l][0] == chains[l][0]
  }

  /** Only tuples changed. */
  ghost predicate SameLinks(bs: Blocks, bs': Blocks)
  {
    bs.Keys == bs'.Keys && forall x :: x in bs ==> bs'[x].level == bs[x].level && bs'[x].rightlink == bs[x].rightlink
  }

  lemma KeepChains(bs: Blocks, bs': Blocks, chains: seq<seq<nat>>)
    requires Chains(bs, chains) && SameLinks(bs, bs')
    ensures Chains(bs', chains)
  {
    forall l | 0 <= l < |chains| ensures Chain(bs', chains[l], l) {
      KeepChain(bs, bs', chains[l], l);
    }
  }

  lemma KeepChain(bs: Blocks, bs': Blocks, ch: seq<nat>, l: nat)
    requires Chain(bs, ch, l) && SameLinks(bs, bs')
    ensures Chain(bs', ch, l)
  {
    forall i | 0 <= i < |ch| ensures ch[i] in bs && bs'[ch[i]].rightlink == bs[ch[i]].rightlink { assert ch[i] in ch; }
  }

  ghost function Spliced(ch: seq<nat>, k: nat, r: nat): seq<nat>
    requires k < |ch|
  {
    ch[..k + 1] + [r] + ch[k + 1..]
  }

  lemma SplicedAt(ch: seq<nat>, k: nat, r: nat)
    requires k < |ch|
    ensures |Spliced(ch, k, r)| == |ch| + 1
    ensures forall i :: 0 <= i <= |ch| ==>
              Spliced(ch, k, r)[i] == if i <= k then ch[i] else if i == k + 1 then r else ch[i - 1]
    ensures forall x :: x in Spliced(ch, k, r) <==> x in ch || x == r
  {
    assert ch == ch[..k + 1] + ch[k + 1..];
  }

  lemma SplicedDistinct(ch: seq<nat>, k: nat, r: nat)
    requires k < |ch| && r !in ch && forall i, j :: 0 <= i < j < |ch| ==> ch[i] != ch[j]
    ensures forall i, j :: 0 <= i < j < |Spliced(ch, k, r)| ==> Spliced(ch, k, r)[i] != Spliced(ch, k, r)[j]
  {
    SplicedAt(ch, k, r);
    forall i, j | 0 <= i < j < |ch| + 1 ensures Spliced(ch, k, r)[i] != Spliced(ch, k, r)[j] {
      if j != k + 1 && i != k + 1 { assert ch[if i <= k then i else i - 1] != ch[if j <= k then j else j - 1]; }
    }
  }

  /** Splitting page `ch[k]` puts its right half next to it in the chain. */
  lemma SpliceChain(bs: Blocks, bs': Blocks, ch: seq<nat>, l: nat, k: nat, r: nat)
    requires Chain(bs, ch, l) && k < |ch| && r !in bs
    requires bs'.Keys == bs.Keys + {r}
    requires forall x :: x in bs ==> bs'[x].level == bs[x].level
    requires forall x :: x in bs && x != ch[k] ==> bs'[x].rightlink == bs[x].rightlink
    requires bs'[r].level == l && bs'[r].rightlink == Next(ch, k)
    requires ch[k] in bs && bs'[ch[k]].rightlink == Some(r)
    ensures Chain(bs', Spliced(ch, k, r), l)
  {
    var s := Spliced(ch, k, r);
    SplicedAt(ch, k, r);
    forall i | 0 <= i < |ch| ensures ch[i] in bs { assert ch[i] in ch; }
    forall i | 0 <= i < |s| ensures bs'[s[i]].rightlink == Next(s, i) {
      if i < k {
        assert ch[i] != ch[k];
      } else if i > k + 1 {
        assert ch[k] != ch[i - 1];
      }
    }
    SplicedDistinct(ch, k, r);
  }

  lemma OtherChain(bs: Blocks, bs': Blocks, ch: seq<nat>, m: nat, l: nat, b: nat, r: nat)
    requires Chain(bs, ch, m) && m != l && r !in bs && bs'.Keys == bs.Keys + {r}
    requires forall x :: x in bs ==> bs'[x].level == bs[x].level
    requires b in bs && bs[b].level == l && forall x :: x in bs && x != b ==> bs'[x].rightlink == bs[x].rightlink
    requires bs'[r].level == l
    ensures Chain(bs', ch, m)
  {
    forall i | 0 <= i < |ch| ensures ch[i] in bs && bs'[ch[i]].rightlink == bs[ch[i]].rightlink { assert ch[i] in ch; }
  }

  lemma SplitChains(bs: Blocks, n: nat, b: nat, l: nat, left: seq<Item>, right: seq<Item>, bs': Blocks,
                    chains: seq<seq<nat>>)
    returns (chains': seq<seq<nat>>)
    requires Chains(bs, chains) && b in bs && bs[b].level == l && n !in bs
    requires SplitInto(bs, n, b, l, left, right, bs')
    ensures Chains(bs', chains') && SameHeads(chains, chains')
  {
    var ch := chains[l];
    assert b in ch;
    var k :| 0 <= k < |ch| && ch[k] == b;
    assert bs[ch[k]].rightlink == Next(ch, k);
    chains' := chains[l := Spliced(ch, k, n)];
    forall m | 0 <= m < |chains| ensures Chain(bs', chains'[m], m) {
      if m == l { SpliceChain(bs, bs', ch, l, k, n); } else { OtherChain(bs, bs', chains[m], m, l, b, n); }
    }
  }

  /** A promoted root starts the chain of a new level. */
  lemma PromoteChains(bs: Blocks, r: nat, page: Page, chains: seq<seq<nat>>)
    requires Chains(bs, chains) && r !in bs && page.level == |chains| && page.rightlink == None
    ensures Chains(bs[r := page], chains + [[r]])
  {
    var bs' := bs[r := page];
    forall l | 0 <= l < |chains| ensures Chain(bs', chains[l], l) {
      forall i | 0 <= i < |chains[l]| ensures chains[l][i] in bs { assert chains[l][i] in chains[l]; }
    }
    assert (chains + [[r]])[|chains|] == [r];
    assert Chain(bs', [r], |chains|);
  }
}
