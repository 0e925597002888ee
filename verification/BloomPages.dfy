/** The loops of the Bloom index: computing signatures, scanning pages,
    compacting a page in place and building the index page by page. */
module BloomPages {
  import opened Common
  import opened Flatten
  import opened BloomRandom
  import opened BloomSign

  datatype Tuple = Tuple(tid: Tid, sign: seq<Word>)

  /** A data page: never initialised, marked deleted, or holding tuples. */
  datatype BloomPage = BloomPage(uninit: bool, deleted: bool, tuples: seq<Tuple>)

  const EMPTY_PAGE := BloomPage(false, false, [])

  // ------------------------------------------------------------- signatures

  lemma SetAllSnoc(undef: Word, s: seq<Word>, bits: seq<int>, bit: int)
    requires AllInside(|s|, bits + [bit])
    ensures AllInside(|s|, bits) && Inside(|s|, bit)
    ensures SetAll(undef, s, bits + [bit]) == SetBit(undef, SetAll(undef, s, bits), bit)
  {
    assert (bits + [bit])[..|bits|] == bits;
    assert (bits + [bit])[|bits|] == bit;
    forall i | 0 <= i < |bits| ensures Inside(|s|, bits[i]) { assert (bits + [bit])[i] == bits[i]; }
  }

  lemma {:induction false} SetAllConcat(undef: Word, s: seq<Word>, a: seq<int>, b: seq<int>)
    requires AllInside(|s|, a) && AllInside(|s|, b)
    ensures AllInside(|s|, a + b) && SetAll(undef, s, a + b) == SetAll(undef, SetAll(undef, s, a), b)
  {
    hide Inside, SetBit;
    if b == [] {
      assert a + b == a;
    } else {
      var n := |b| - 1;
      SetAllConcat(undef, s, a, b[..n]);
      assert a + b == (a + b[..n]) + [b[n]];
      assert AllInside(|s|, a + b);
      SetAllSnoc(undef, s, a + b[..n], b[n]);
    }
  }

  /** `signValue`: the value's bits are set in the signature, and no others. */
  method SignValue(gen: Generator, undef: Word, o: Opts, sign: array<Word>, attno: nat, hash: bv32)
    requires o.length >= 1 && sign.Length == o.length && attno < |o.bits| && attno < 0x7fff_fffd
    modifies gen, sign
    ensures AllInside(o.length, ValueBits(o, attno, hash))
    ensures sign[..] == SetAll(undef, old(sign[..]), ValueBits(o, attno, hash))
    ensures !Stuck(attno, hash) ==>
            forall k: nat :: k < 16 * o.length ==>
              (BitAt(sign[..], k) <==> BitAt(old(sign[..]), k) || BitOf(o, attno, hash, k))
  {
    hide Mask, Or, WordOf, Xor, Number, NextState, SeedState, SetAll, BitsFrom, BitAt, BitOf, Stuck;
    ValueBitsInside(o, attno, hash);
    gen.Seed(attno);
    var r := gen.Rand();
    ColumnDrawn(attno);
    gen.Seed(Number(Xor(hash, r as bv32)));
    ghost var all, done := ValueBits(o, attno, hash), [];
    SetAllNone(undef, sign[..]);
    for j := 0 to o.bits[attno]
      invariant -MODULUS < gen.next < MODULUS
      invariant all == done + BitsFrom(gen.next, o.bits[attno] - j, o.length)
      invariant AllInside(o.length, done) && sign[..] == SetAll(undef, old(sign[..]), done)
    {
      NextIsModular(gen.next);
      BitsStep(done, gen.next, o.bits[attno] - j, o.length);
      r := gen.Rand();
      var bit := Rem(r, o.length * 16);
      assert all[|done|] == bit;
      SetAllSnoc(undef, old(sign[..]), done, bit);
      sign[WordOf(bit)] := Or(sign[WordOf(bit)], Mask(undef, bit));
      done := done + [bit];
    }
    BitsDone(gen.next, o.length);
    assert all == done;
    if !Stuck(attno, hash) { ValueSet(undef, o, old(sign[..]), attno, hash); }
  }

  /** What setting a value's bits does to a signature. */
  lemma ValueSet(undef: Word, o: Opts, s: seq<Word>, attno: nat, hash: bv32)
    requires o.length >= 1 && |s| == o.length && attno < |o.bits| && attno < 0x7fff_fffd && !Stuck(attno, hash)
    requires AllInside(|s|, ValueBits(o, attno, hash))
    ensures forall k: nat :: k < 16 * o.length ==>
              (BitAt(SetAll(undef, s, ValueBits(o, attno, hash)), k) <==> BitAt(s, k) || BitOf(o, attno, hash, k))
  {
    hide BitAt, BitOf, Stuck, ValueBits, SetAll, AllInside;
    var bits := ValueBits(o, attno, hash);
    ValueBitsAre(o, attno, hash);
    forall i | 0 <= i < |bits| ensures bits[i] >= 0 { assert bits[i] in bits; }
    forall k: nat | k < 16 * o.length
      ensures BitAt(SetAll(undef, s, bits), k) <==> BitAt(s, k) || BitOf(o, attno, hash, k)
    {
      SetAllAt(undef, s, bits, k);
    }
  }

  lemma SetAllNone(undef: Word, s: seq<Word>)
    ensures SetAll(undef, s, []) == s
  {
  }

  lemma BitsDone(state: int, length: nat)
    requires length >= 1
    ensures BitsFrom(state, 0, length) == []
  {
  }

  lemma BitsStep(done: seq<int>, state: int, n: nat, length: nat)
    requires length >= 1 && n > 0
    ensures var bit := Rem(NextState(state) - 1, length * 16);
            done + BitsFrom(state, n, length) == (done + [bit]) + BitsFrom(NextState(state), n - 1, length)
  {
  }

  lemma ColumnDrawn(attno: nat)
    requires attno < 0x7fff_fffd
    ensures NextState(SeedState(attno)) - 1 == ColumnDraw(attno)
  {
  }

  /** `BloomFormTuple`. */
  method FormTuple(gen: Generator, undef: Word, o: Opts, tid: Tid, hashes: seq<Option<bv32>>) returns (t: Tuple)
    requires Columns(o, |hashes|)
    modifies gen
    ensures t == Tuple(tid, RowSign(undef, o, hashes))
    ensures Unstuck(o, hashes) ==>
            forall k: nat :: k < 16 * o.length ==>
              (BitAt(t.sign, k) <==>
               exists i :: 0 <= i < |hashes| && hashes[i].Some? && BitOf(o, i, hashes[i].value, k))
  {
    hide Mask, Or, WordOf, Xor, Number, ValueBits, SetAll, Inside;
    RowInside(o, hashes);
    var sign := new Word[o.length](i => 0);
    assert sign[..] == Zeros(o.length);
    SetAllNone(undef, Zeros(o.length));
    ghost var f, cols := ColumnBits(o, hashes), Indices(|hashes|);
    for i := 0 to |hashes|
      invariant AllInside(o.length, FlatMap(cols[..i], f))
      invariant sign[..] == SetAll(undef, Zeros(o.length), FlatMap(cols[..i], f))
    {
      FlatMapAt(cols, i, f);
      assert FlatMap(cols[..i], f) + [] == FlatMap(cols[..i], f);
      if hashes[i].Some? {
        SignValue(gen, undef, o, sign, i, hashes[i].value);
        SetAllConcat(undef, Zeros(o.length), FlatMap(cols[..i], f), f(i));
      }
    }
    assert cols[..|hashes|] == cols;
    t := Tuple(tid, sign[..]);
    forall k: nat | k < 16 * o.length && Unstuck(o, hashes)
      ensures BitAt(t.sign, k) <==> RowBit(o, hashes, k)
    {
      RowSignAt(undef, o, hashes, k);
    }
  }

  // ------------------------------------------------------------------- scans

  function TupleHit(q: seq<Word>): Tuple -> seq<Tid>
  {
    (t: Tuple) => if Covers(t.sign, q) then [t.tid] else []
  }

  /** What a scan takes from one page. */
  function PageHits(q: seq<Word>): BloomPage -> seq<Tid>
  {
    (p: BloomPage) => if p.uninit || p.deleted then [] else FlatMap(p.tuples, TupleHit(q))
  }

  /** The word-by-word test of a tuple's signature. */
  method MatchWords(sign: seq<Word>, q: seq<Word>) returns (hit: bool)
    requires |sign| == |q|
    ensures hit <==> Covers(sign, q)
  {
    for i := 0 to |q|
      invariant forall j :: 0 <= j < i ==> Sub(q[j], sign[j])
    {
      if sign[i] & q[i] != q[i] {
        return false;
      }
    }
    hit := true;
  }

  ghost predicate SameLength(pages: seq<BloomPage>, length: nat)
  {
    forall i, j :: 0 <= i < |pages| && 0 <= j < |pages[i].tuples| ==> |pages[i].tuples[j].sign| == length
  }

  method ScanPage(page: BloomPage, q: seq<Word>) returns (tids: seq<Tid>)
    requires forall j :: 0 <= j < |page.tuples| ==> |page.tuples[j].sign| == |q|
    ensures tids == PageHits(q)(page)
  {
    tids := [];
    if !page.uninit && !page.deleted {
      for j := 0 to |page.tuples|
        invariant tids == FlatMap(page.tuples[..j], TupleHit(q))
      {
        FlatMapAt(page.tuples, j, TupleHit(q));
        var hit := MatchWords(page.tuples[j].sign, q);
        if hit {
          tids := tids + [page.tuples[j].tid];
        }
      }
      assert page.tuples[..|page.tuples|] == page.tuples;
    }
  }

  function Usable(keys: seq<Option<Key>>): (ks: seq<Key>)
    requires forall i :: 0 <= i < |keys| ==> keys[i].Some?
    ensures |ks| == |keys| && forall i :: 0 <= i < |keys| ==> ks[i] == keys[i].value
  {
    seq(|keys|, i requires 0 <= i < |keys| => keys[i].value)
  }

  /** The signature loop of `blgetbitmap`; a null key ends the search. */
  method QuerySign(gen: Generator, undef: Word, o: Opts, keys: seq<Option<Key>>) returns (sign: Option<seq<Word>>)
    requires Columns(o, |o.bits|) && forall i :: 0 <= i < |keys| && keys[i].Some? ==> keys[i].value.attno < |o.bits|
    modifies gen
    ensures sign.None? <==> exists i :: 0 <= i < |keys| && keys[i].None?
    ensures sign.Some? ==> sign.value == ScanSign(undef, o, Usable(keys))
    ensures sign.Some? && KeysUnstuck(o, Usable(keys)) ==>
            forall k: nat :: k < 16 * o.length ==>
              (BitAt(sign.value, k) <==>
               exists i :: 0 <= i < |keys| && BitOf(o, keys[i].value.attno, keys[i].value.hash, k))
  {
    hide Mask, Or, WordOf, Xor, Number, ValueBits, SetAll, Inside;
    var a := new Word[o.length](i => 0);
    assert a[..] == Zeros(o.length);
    SetAllNone(undef, Zeros(o.length));
    ghost var f := KeyBits(o);
    for i := 0 to |keys|
      invariant forall j :: 0 <= j < i ==> keys[j].Some?
      invariant AllInside(o.length, FlatMap(Usable(keys[..i]), f))
      invariant a[..] == SetAll(undef, Zeros(o.length), FlatMap(Usable(keys[..i]), f))
    {
      if keys[i].None? {
        return None;
      }
      assert Usable(keys[..i + 1]) == Usable(keys[..i]) + [keys[i].value];
      FlatMapConcat(Usable(keys[..i]), [keys[i].value], f);
      FlatMapOne(keys[i].value, f);
      SignValue(gen, undef, o, a, keys[i].value.attno, keys[i].value.hash);
      SetAllConcat(undef, Zeros(o.length), FlatMap(Usable(keys[..i]), f), f(keys[i].value));
    }
    assert keys[..|keys|] == keys;
    sign := Some(a[..]);
    forall k: nat | k < 16 * o.length && KeysUnstuck(o, Usable(keys))
      ensures BitAt(sign.value, k) <==> KeyBit(o, Usable(keys), k)
    {
      ScanSignAt(undef, o, Usable(keys), k);
    }
  }

  /** `blgetbitmap`: the TIDs added to the bitmap, and how many. */
  method GetBitmap(gen: Generator, undef: Word, o: Opts, keys: seq<Option<Key>>, pages: seq<BloomPage>)
    returns (tids: seq<Tid>, ntids: nat)
    requires Columns(o, |o.bits|) && SameLength(pages, o.length)
    requires forall i :: 0 <= i < |keys| && keys[i].Some? ==> keys[i].value.attno < |o.bits|
    modifies gen
    ensures ntids == |tids|
    ensures (exists i :: 0 <= i < |keys| && keys[i].None?) ==> tids == []
    ensures (forall i :: 0 <= i < |keys| ==> keys[i].Some?) ==>
            tids == FlatMap(pages, PageHits(ScanSign(undef, o, Usable(keys))))
    ensures (forall i :: 0 <= i < |keys| ==> keys[i].Some?) ==>
            forall tid :: tid in tids <==> HitSomewhere(pages, ScanSign(undef, o, Usable(keys)), tid)
  {
    hide SetAll, Covers, ScanSign;
    tids, ntids := [], 0;
    var sign := QuerySign(gen, undef, o, keys);
    if sign.None? {
      return;
    }
    var q := sign.value;
    ScanSignLength(undef, o, Usable(keys));
    for b := 0 to |pages|
      invariant tids == FlatMap(pages[..b], PageHits(q)) && ntids == |tids|
    {
      FlatMapAt(pages, b, PageHits(q));
      var hits := ScanPage(pages[b], q);
      tids, ntids := tids + hits, ntids + |hits|;
    }
    assert pages[..|pages|] == pages;
    HitsIff(pages, q);
  }

  /** A tuple with this TID, on a page in use, whose signature has every bit of
      the query's. */
  ghost predicate HitSomewhere(pages: seq<BloomPage>, q: seq<Word>, tid: Tid)
  {
    exists b, j :: 0 <= b < |pages| && !pages[b].uninit && !pages[b].deleted && 0 <= j < |pages[b].tuples| &&
      pages[b].tuples[j].tid == tid && HasAll(pages[b].tuples[j].sign, q)
  }

  ghost predicate HasAll(s: seq<Word>, q: seq<Word>)
  {
    |s| == |q| && forall k: nat :: k < 16 * |q| && BitAt(q, k) ==> BitAt(s, k)
  }

  lemma HasAllIsCovers(s: seq<Word>, q: seq<Word>)
    ensures HasAll(s, q) <==> Covers(s, q)
  {
    hide BitAt;
    if |s| == |q| { CoversIff(s, q); }
  }

  lemma HitsIff(pages: seq<BloomPage>, q: seq<Word>)
    ensures forall tid :: tid in FlatMap(pages, PageHits(q)) <==> HitSomewhere(pages, q, tid)
  {
    hide BitAt, HasAll, Covers;
    forall tid ensures tid in FlatMap(pages, PageHits(q)) <==> HitSomewhere(pages, q, tid) {
      FlatMapIn(pages, PageHits(q), tid);
      if tid in FlatMap(pages, PageHits(q)) {
        var p :| p in pages && tid in PageHits(q)(p);
        var b :| 0 <= b < |pages| && pages[b] == p;
        FlatMapIn(p.tuples, TupleHit(q), tid);
        var t :| t in p.tuples && tid in TupleHit(q)(t);
        var j :| 0 <= j < |p.tuples| && p.tuples[j] == t;
        HasAllIsCovers(pages[b].tuples[j].sign, q);
      }
      if b, j :| 0 <= b < |pages| && !pages[b].uninit && !pages[b].deleted && 0 <= j < |pages[b].tuples| &&
                 pages[b].tuples[j].tid == tid && HasAll(pages[b].tuples[j].sign, q) {
        HasAllIsCovers(pages[b].tuples[j].sign, q);
        FlatMapIn(pages[b].tuples, TupleHit(q), tid);
        assert pages[b].tuples[j] in pages[b].tuples && tid in TupleHit(q)(pages[b].tuples[j]);
        assert pages[b] in pages && tid in PageHits(q)(pages[b]);
      }
    }
  }

  lemma ScanSignLength(undef: Word, o: Opts, keys: seq<Key>)
    requires Columns(o, |o.bits|)
    ensures |ScanSign(undef, o, keys)| == o.length
  {
  }

  /** A stored row is found by every scan whose keys it satisfies. */
  lemma RowIsFound(undef: Word, o: Opts, hashes: seq<Option<bv32>>, keys: seq<Key>, tid: Tid, page: BloomPage,
                   pages: seq<BloomPage>)
    requires Columns(o, |hashes|) && Satisfies(hashes, keys)
    requires page in pages && !page.uninit && !page.deleted && Tuple(tid, RowSign(undef, o, hashes)) in page.tuples
    ensures tid in FlatMap(pages, PageHits(ScanSign(undef, o, keys)))
  {
    var q, t := ScanSign(undef, o, keys), Tuple(tid, RowSign(undef, o, hashes));
    NoFalseNegatives(undef, o, hashes, keys);
    FlatMapIn(page.tuples, TupleHit(q), tid);
    assert tid in TupleHit(q)(t);
    FlatMapIn(pages, PageHits(q), tid);
    assert tid in PageHits(q)(page);
  }

  // --------------------------------------------------------------- compaction

  function Spared(dead: Tid -> bool): Tuple -> bool { (t: Tuple) => !dead(t.tid) }

  /** The page loop of `blbulkdelete`: spared tuples move down over dead ones. */
  method Compact(a: array<Tuple>, maxoff: nat, dead: Tid -> bool) returns (left: nat, removed: nat)
    requires maxoff <= a.Length
    modifies a
    ensures left + removed == maxoff
    ensures a[..left] == Filter(old(a[..maxoff]), Spared(dead))
    ensures forall x :: multiset(a[..left])[x] == if dead(x.tid) then 0 else multiset(old(a[..maxoff]))[x]
    ensures a[maxoff..] == old(a[maxoff..])
  {
    left, removed := 0, 0;
    ghost var before := a[..];
    for i := 0 to maxoff
      invariant left + removed == i
      invariant a[..left] == Filter(before[..i], Spared(dead))
      invariant forall k :: i <= k < a.Length ==> a[k] == before[k]
    {
      FilterSnoc(before, i, Spared(dead));
      if dead(a[i].tid) {
        removed := removed + 1;
      } else {
        a[left] := a[i];
        left := left + 1;
      }
    }
    assert before[..maxoff] == old(a[..maxoff]);
    FilterMultiset(old(a[..maxoff]), Spared(dead));
  }

  // -------------------------------------------------------------------- build

  function TuplesOf(p: BloomPage): seq<Tuple> { p.tuples }

  ghost predicate InUse(cap: nat, p: BloomPage) { !p.uninit && !p.deleted && 0 < |p.tuples| <= cap }

  /** `blbuild`: tuples fill a cached page that is flushed whenever it is full. */
  method Build(cap: nat, tuples: seq<Tuple>) returns (pages: seq<BloomPage>)
    requires cap >= 1
    ensures FlatMap(pages, TuplesOf) == tuples
    ensures forall i :: 0 <= i < |pages| ==> InUse(cap, pages[i])
    ensures forall i :: 0 <= i < |pages| - 1 ==> |pages[i].tuples| == cap
  {
    hide FlatMap;
    NoPages();
    var cached := EMPTY_PAGE;
    pages := [];
    for k := 0 to |tuples|
      invariant FlatMap(pages, TuplesOf) + cached.tuples == tuples[..k]
      invariant !cached.uninit && !cached.deleted && |cached.tuples| <= cap && (k > 0 ==> cached.tuples != [])
      invariant forall i :: 0 <= i < |pages| ==> InUse(cap, pages[i]) && |pages[i].tuples| == cap
    {
      if |cached.tuples| >= cap {
        Flushed(pages, cached);
        pages := pages + [cached];
        cached := EMPTY_PAGE;
      }
      OneMore(FlatMap(pages, TuplesOf), cached.tuples, tuples, k);
      cached := cached.(tuples := cached.tuples + [tuples[k]]);
    }
    assert tuples[..|tuples|] == tuples;
    if cached.tuples != [] {
      Flushed(pages, cached);
      pages := pages + [cached];
    }
  }

  lemma NoPages()
    ensures FlatMap([], TuplesOf) == []
  {
  }

  lemma OneMore<T>(done: seq<T>, cached: seq<T>, all: seq<T>, k: nat)
    requires k < |all| && done + cached == all[..k]
    ensures done + (cached + [all[k]]) == all[..k + 1]
  {
    assert done + (cached + [all[k]]) == (done + cached) + [all[k]];
  }

  lemma Flushed(pages: seq<BloomPage>, cached: BloomPage)
    ensures FlatMap(pages + [cached], TuplesOf) == FlatMap(pages, TuplesOf) + cached.tuples
  {
    FlatMapConcat(pages, [cached], TuplesOf);
    FlatMapOne(cached, TuplesOf);
  }
}
