/** Bloom signatures: how values set bits, and why a scan misses no row. */
module BloomSign {
  import opened Common
  import opened BloomRandom
  import opened Flatten

  type Word = bv16

  /** Signature length in words, and bits drawn per column. */
  datatype Opts = Opts(length: nat, bits: seq<nat>)

  // ------------------------------------------------------------------ bits

  /** The word a bit index falls in, and its mask; the shift by a negative
      remainder, which C leaves undefined, gives the arbitrary word `undef`. */
  function WordOf(bit: int): int { Quot(bit, 16) }

  function Mask(undef: Word, bit: int): Word
  {
    var r := Rem(bit, 16);
    if 0 <= r < 16 then (1 as Word) << r else undef
  }

  /** Indices that stay inside a signature of this many words. */
  predicate Inside(length: nat, bit: int) { 0 <= WordOf(bit) < length }

  function Or(a: Word, b: Word): Word { a | b }

  /** Every bit of `a` is set in `b`. */
  predicate Sub(a: Word, b: Word) { b & a == a }

  function SetBit(undef: Word, s: seq<Word>, bit: int): (t: seq<Word>)
    requires Inside(|s|, bit)
    ensures |t| == |s|
  {
    s[WordOf(bit) := Or(s[WordOf(bit)], Mask(undef, bit))]
  }

  predicate AllInside(length: nat, bits: seq<int>) { forall i :: 0 <= i < |bits| ==> Inside(length, bits[i]) }

  function SetAll(undef: Word, s: seq<Word>, bits: seq<int>): (t: seq<Word>)
    requires AllInside(|s|, bits)
    ensures |t| == |s|
  {
    if bits == [] then s else SetBit(undef, SetAll(undef, s, bits[..|bits| - 1]), bits[|bits| - 1])
  }

  predicate HasBit(undef: Word, s: seq<Word>, bit: int)
    requires Inside(|s|, bit)
  {
    Sub(Mask(undef, bit), s[WordOf(bit)])
  }

  /** Every bit of `q` is set in `s`: the test a scan makes word by word. */
  predicate Covers(s: seq<Word>, q: seq<Word>)
  {
    |s| == |q| && forall i :: 0 <= i < |s| ==> Sub(q[i], s[i])
  }

  lemma OrSets(a: Word, m: Word)
    ensures Sub(m, Or(a, m))
  {
  }

  lemma OrKeeps(a: Word, m: Word, n: Word)
    requires Sub(n, a)
    ensures Sub(n, Or(a, m))
  {
  }

  lemma OrCovered(a: Word, m: Word, n: Word)
    requires Sub(n, a) && Sub(m, a)
    ensures Sub(Or(n, m), a)
  {
  }

  lemma SetBitHas(undef: Word, s: seq<Word>, bit: int)
    requires Inside(|s|, bit)
    ensures HasBit(undef, SetBit(undef, s, bit), bit)
  {
    hide Mask, WordOf, Or, Sub;
    OrSets(s[WordOf(bit)], Mask(undef, bit));
  }

  lemma SetBitKeeps(undef: Word, s: seq<Word>, bit: int, other: int)
    requires Inside(|s|, bit) && Inside(|s|, other) && HasBit(undef, s, other)
    ensures HasBit(undef, SetBit(undef, s, bit), other)
  {
    hide Mask, WordOf, Or, Sub;
    if WordOf(bit) == WordOf(other) {
      OrKeeps(s[WordOf(bit)], Mask(undef, bit), Mask(undef, other));
    }
  }

  lemma SetBitCovered(undef: Word, s: seq<Word>, q: seq<Word>, bit: int)
    requires Covers(s, q) && Inside(|s|, bit) && HasBit(undef, s, bit)
    ensures Covers(s, SetBit(undef, q, bit))
  {
    hide Mask, WordOf, Or, Sub;
    OrCovered(s[WordOf(bit)], Mask(undef, bit), q[WordOf(bit)]);
  }

  lemma {:induction false} SetAllKeeps(undef: Word, s: seq<Word>, bits: seq<int>, bit: int)
    requires AllInside(|s|, bits) && Inside(|s|, bit) && HasBit(undef, s, bit)
    ensures HasBit(undef, SetAll(undef, s, bits), bit)
  {
    if bits != [] {
      var n := |bits| - 1;
      SetAllKeeps(undef, s, bits[..n], bit);
      SetBitKeeps(undef, SetAll(undef, s, bits[..n]), bits[n], bit);
    }
  }

  lemma {:induction false} SetAllHas(undef: Word, s: seq<Word>, bits: seq<int>, i: nat)
    requires AllInside(|s|, bits) && i < |bits|
    ensures HasBit(undef, SetAll(undef, s, bits), bits[i])
  {
    var n := |bits| - 1;
    if i == n {
      SetBitHas(undef, SetAll(undef, s, bits[..n]), bits[n]);
    } else {
      SetAllHas(undef, s, bits[..n], i);
      SetBitKeeps(undef, SetAll(undef, s, bits[..n]), bits[n], bits[i]);
    }
  }

  lemma {:induction false} SetAllCovered(undef: Word, s: seq<Word>, q: seq<Word>, bits: seq<int>)
    requires Covers(s, q) && AllInside(|s|, bits) && forall i :: 0 <= i < |bits| ==> HasBit(undef, s, bits[i])
    ensures Covers(s, SetAll(undef, q, bits))
  {
    if bits != [] {
      var n := |bits| - 1;
      SetAllCovered(undef, s, q, bits[..n]);
      SetBitCovered(undef, s, SetAll(undef, q, bits[..n]), bits[n]);
    }
  }

  // ------------------------------------------------------------ drawing bits

  /** Bit indices drawn from a generator state. */
  function BitsFrom(state: int, n: nat, length: nat): (bits: seq<int>)
    requires length >= 1
    ensures |bits| == n
    decreases n
  {
    if n == 0 then []
    else [Rem(NextState(state) - 1, length * 16)] + BitsFrom(NextState(state), n - 1, length)
  }

  lemma RemInside(v: int, length: nat)
    requires length >= 1 && v >= -1
    ensures Inside(length, Rem(v, length * 16))
    ensures v >= 0 ==> 0 <= Rem(v, length * 16) < length * 16
    ensures v == -1 ==> Rem(v, length * 16) == -1
  {
    QuotRem(v, length * 16);
    if v >= 0 {
      QuotRem(Rem(v, length * 16), 16);
    }
  }

  lemma {:induction false} BitsInside(state: int, n: nat, length: nat)
    requires length >= 1 && -MODULUS < state < MODULUS
    ensures AllInside(length, BitsFrom(state, n, length))
    ensures state != 0 ==> forall i :: 0 <= i < n ==> 0 <= BitsFrom(state, n, length)[i] < length * 16
    ensures state == 0 ==> forall i :: 0 <= i < n ==> BitsFrom(state, n, length)[i] == -1
    decreases n
  {
    if n > 0 {
      NextIsModular(state);
      RemInside(NextState(state) - 1, length);
      BitsInside(NextState(state), n - 1, length);
      var bits, rest := BitsFrom(state, n, length), BitsFrom(NextState(state), n - 1, length);
      forall i | 0 < i < n ensures bits[i] == rest[i - 1] { }
    }
  }

  /** The first draw from a column's own seed. */
  function ColumnDraw(attno: nat): (r: Int32)
    requires attno < 0x7fff_fffd
    ensures 0 <= r
  {
    SeedBounds(attno);
    NextIsModular(SeedState(attno));
    NextState(SeedState(attno)) - 1
  }

  function ColumnWord(attno: nat): bv32
    requires attno < 0x7fff_fffd
  {
    ColumnDraw(attno) as bv32
  }

  function Xor(a: bv32, b: bv32): bv32 { a ^ b }

  function Number(x: bv32): UInt32 { x as int }

  /** The seed of the bit sequence for a value with this hash in a column. */
  function ValueSeed(attno: nat, hash: bv32): UInt32
    requires attno < 0x7fff_fffd
  {
    Number(Xor(hash, ColumnWord(attno)))
  }

  ghost predicate Columns(o: Opts, n: nat) { o.length >= 1 && |o.bits| == n && n < 0x7fff_fffd }

  function ValueBits(o: Opts, attno: nat, hash: bv32): seq<int>
    requires o.length >= 1 && attno < |o.bits| && attno < 0x7fff_fffd
  {
    BitsFrom(SeedState(ValueSeed(attno, hash)), o.bits[attno], o.length)
  }

  lemma ValueBitsInside(o: Opts, attno: nat, hash: bv32)
    requires o.length >= 1 && attno < |o.bits| && attno < 0x7fff_fffd
    ensures AllInside(o.length, ValueBits(o, attno, hash))
  {
    SeedBounds(ValueSeed(attno, hash));
    BitsInside(SeedState(ValueSeed(attno, hash)), o.bits[attno], o.length);
  }

  lemma XorTwice(a: bv32, m: bv32)
    ensures Xor(Xor(a, m), m) == a && Xor(a, a) == 0
  {
  }

  lemma XorIs(a: bv32, m: bv32, v: bv32)
    ensures Xor(a, m) == v <==> a == Xor(v, m)
  {
    hide Xor;
    XorTwice(a, m);
    XorTwice(v, m);
  }

  lemma NumberIs(x: bv32)
    ensures Number(x) == 0xffff_ffff <==> x == 0xffff_ffff
    ensures Number(x) == 0x8000_0001 <==> x == 0x8000_0001
  {
  }

  /** The two hash values that leave the generator at 0 in this column. */
  predicate Stuck(attno: nat, hash: bv32)
    requires attno < 0x7fff_fffd
  {
    hash == Xor(0xffff_ffff, ColumnWord(attno)) || hash == Xor(0x8000_0001, ColumnWord(attno))
  }

  lemma StuckSeeds(attno: nat, hash: bv32)
    requires attno < 0x7fff_fffd
    ensures Stuck(attno, hash) <==> ValueSeed(attno, hash) == 0xffff_ffff || ValueSeed(attno, hash) == 0x8000_0001
  {
    hide ColumnWord, Xor, Number;
    XorIs(hash, ColumnWord(attno), 0xffff_ffff);
    XorIs(hash, ColumnWord(attno), 0x8000_0001);
    NumberIs(Xor(hash, ColumnWord(attno)));
  }

  /** A column's bits land where they should for every hash but two; for those
      two each index drawn is -1. */
  lemma BitsInRangeIff(o: Opts, attno: nat, hash: bv32)
    requires o.length >= 1 && attno < |o.bits| && attno < 0x7fff_fffd && o.bits[attno] >= 1
    ensures (forall i :: 0 <= i < o.bits[attno] ==> 0 <= ValueBits(o, attno, hash)[i] < o.length * 16) <==>
            !Stuck(attno, hash)
    ensures Stuck(attno, hash) ==> forall i :: 0 <= i < o.bits[attno] ==> ValueBits(o, attno, hash)[i] == -1
  {
    StuckSeeds(attno, hash);
    hide Stuck, ValueSeed, SeedState;
    SeedBounds(ValueSeed(attno, hash));
    BitsInside(SeedState(ValueSeed(attno, hash)), o.bits[attno], o.length);
    assert ValueBits(o, attno, hash)[0] == -1 || SeedState(ValueSeed(attno, hash)) != 0;
  }

  // ------------------------------------------------------ rows and scan keys

  datatype Key = Key(attno: nat, hash: bv32)

  /** Bits of one column of a row; a null sets none. */
  function ColumnBits(o: Opts, hashes: seq<Option<bv32>>): nat -> seq<int>
    requires Columns(o, |hashes|)
  {
    (i: nat) => if i < |hashes| && hashes[i].Some? then ValueBits(o, i, hashes[i].value) else []
  }

  function KeyBits(o: Opts): Key -> seq<int>
    requires Columns(o, |o.bits|)
  {
    (k: Key) => if k.attno < |o.bits| then ValueBits(o, k.attno, k.hash) else []
  }

  function RowBits(o: Opts, hashes: seq<Option<bv32>>): seq<int>
    requires Columns(o, |hashes|)
  {
    FlatMap(Indices(|hashes|), ColumnBits(o, hashes))
  }

  function Zeros(n: nat): (s: seq<Word>)
    ensures |s| == n && forall i :: 0 <= i < n ==> s[i] == 0
  {
    seq(n, i => 0)
  }

  lemma {:induction false} FlatInside<T>(xs: seq<T>, f: T -> seq<int>, length: nat)
    requires forall i :: 0 <= i < |xs| ==> AllInside(length, f(xs[i]))
    ensures AllInside(length, FlatMap(xs, f))
  {
    if xs != [] {
      assert AllInside(length, f(xs[0]));
      FlatInside(xs[1..], f, length);
    }
  }

  lemma RowInside(o: Opts, hashes: seq<Option<bv32>>)
    requires Columns(o, |hashes|)
    ensures AllInside(o.length, RowBits(o, hashes))
  {
    forall i | 0 <= i < |hashes| ensures AllInside(o.length, ColumnBits(o, hashes)(Indices(|hashes|)[i])) {
      if hashes[i].Some? { ValueBitsInside(o, i, hashes[i].value); }
    }
    FlatInside(Indices(|hashes|), ColumnBits(o, hashes), o.length);
  }

  lemma KeysInside(o: Opts, keys: seq<Key>)
    requires Columns(o, |o.bits|)
    ensures AllInside(o.length, FlatMap(keys, KeyBits(o)))
  {
    forall i | 0 <= i < |keys| ensures AllInside(o.length, KeyBits(o)(keys[i])) {
      if keys[i].attno < |o.bits| { ValueBitsInside(o, keys[i].attno, keys[i].hash); }
    }
    FlatInside(keys, KeyBits(o), o.length);
  }

  /** The signature stored for a row. */
  function RowSign(undef: Word, o: Opts, hashes: seq<Option<bv32>>): (s: seq<Word>)
    requires Columns(o, |hashes|)
    ensures |s| == o.length
  {
    RowInside(o, hashes);
    SetAll(undef, Zeros(o.length), RowBits(o, hashes))
  }

  /** The signature a scan looks for. */
  function ScanSign(undef: Word, o: Opts, keys: seq<Key>): (s: seq<Word>)
    requires Columns(o, |o.bits|)
    ensures |s| == o.length
  {
    KeysInside(o, keys);
    SetAll(undef, Zeros(o.length), FlatMap(keys, KeyBits(o)))
  }

  lemma ZeroCovered(s: seq<Word>)
    ensures Covers(s, Zeros(|s|))
  {
    forall i | 0 <= i < |s| ensures Sub(Zeros(|s|)[i], s[i]) { ZeroSub(s[i]); }
  }

  lemma ZeroSub(w: Word)
    ensures Sub(0, w)
  {
  }

  /** The keys ask for values this row has. */
  ghost predicate Satisfies(hashes: seq<Option<bv32>>, keys: seq<Key>)
  {
    forall i :: 0 <= i < |keys| ==> keys[i].attno < |hashes| && hashes[keys[i].attno] == Some(keys[i].hash)
  }

  /** Every bit a satisfied key sets is set in the row's signature. */
  lemma KeyBitsInRow(o: Opts, hashes: seq<Option<bv32>>, keys: seq<Key>, bit: int)
    requires Columns(o, |hashes|) && Satisfies(hashes, keys) && bit in FlatMap(keys, KeyBits(o))
    ensures bit in RowBits(o, hashes)
  {
    FlatMapIn(keys, KeyBits(o), bit);
    var k :| k in keys && bit in KeyBits(o)(k);
    var i :| 0 <= i < |keys| && keys[i] == k;
    FlatMapIn(Indices(|hashes|), ColumnBits(o, hashes), bit);
    assert Indices(|hashes|)[k.attno] in Indices(|hashes|);
    assert bit in ColumnBits(o, hashes)(k.attno);
  }

  /** No false negatives: the row's signature covers the scan's. */
  lemma NoFalseNegatives(undef: Word, o: Opts, hashes: seq<Option<bv32>>, keys: seq<Key>)
    requires Columns(o, |hashes|) && Satisfies(hashes, keys)
    ensures Covers(RowSign(undef, o, hashes), ScanSign(undef, o, keys))
  {
    var row, wanted, bits := RowSign(undef, o, hashes), FlatMap(keys, KeyBits(o)), RowBits(o, hashes);
    RowInside(o, hashes);
    KeysInside(o, keys);
    forall i | 0 <= i < |wanted| ensures HasBit(undef, row, wanted[i]) {
      KeyBitsInRow(o, hashes, keys, wanted[i]);
      var j :| 0 <= j < |bits| && bits[j] == wanted[i];
      SetAllHas(undef, Zeros(o.length), bits, j);
    }
    ZeroCovered(row);
    SetAllCovered(undef, row, Zeros(o.length), wanted);
  }

  lemma MaskDefined(undef: Word, undef': Word, bit: int)
    requires bit >= 0
    ensures Mask(undef, bit) == Mask(undef', bit)
  {
    QuotRem(bit, 16);
  }

  /** While no key has one of the two bad hash values, an undefined shift may give
      one word at insertion and another in the scan. */
  lemma NoFalseNegativesAnyShift(undef: Word, undef': Word, o: Opts, hashes: seq<Option<bv32>>, keys: seq<Key>)
    requires Columns(o, |hashes|) && Satisfies(hashes, keys)
    requires forall i :: 0 <= i < |keys| && keys[i].attno < |o.bits| ==> !Stuck(keys[i].attno, keys[i].hash)
    ensures Covers(RowSign(undef, o, hashes), ScanSign(undef', o, keys))
  {
    FoundIff(undef, undef', o, hashes, keys);
  }

  /** Some key draws bits, and the index -1 for each. */
  ghost predicate AnyStuck(o: Opts, keys: seq<Key>)
    requires Columns(o, |o.bits|)
  {
    exists i :: 0 <= i < |keys| && keys[i].attno < |o.bits| && o.bits[keys[i].attno] > 0 &&
                Stuck(keys[i].attno, keys[i].hash)
  }

  lemma StuckBits(o: Opts, keys: seq<Key>, bit: int)
    requires Columns(o, |o.bits|) && bit in FlatMap(keys, KeyBits(o))
    ensures bit >= 0 || (bit == -1 && AnyStuck(o, keys))
  {
    FlatMapIn(keys, KeyBits(o), bit);
    var k :| k in keys && bit in KeyBits(o)(k);
    var i :| 0 <= i < |keys| && keys[i] == k;
    BitsInRangeIff(o, k.attno, k.hash);
  }

  lemma StuckDraws(o: Opts, keys: seq<Key>)
    requires Columns(o, |o.bits|) && AnyStuck(o, keys)
    ensures -1 in FlatMap(keys, KeyBits(o))
  {
    var i :| 0 <= i < |keys| && keys[i].attno < |o.bits| && o.bits[keys[i].attno] > 0 &&
             Stuck(keys[i].attno, keys[i].hash);
    var k := keys[i];
    BitsInRangeIff(o, k.attno, k.hash);
    assert KeyBits(o)(k)[0] == -1;
    FlatMapPart(keys, KeyBits(o), k);
  }

  /** The index -1 falls in word 0, with whatever the shift gave. */
  lemma MinusOne(undef: Word, s: seq<Word>)
    requires |s| >= 1
    ensures Inside(|s|, -1) && (HasBit(undef, s, -1) <==> Sub(undef, s[0]))
  {
  }

  lemma SubTrans(a: Word, b: Word, c: Word)
    requires Sub(a, b) && Sub(b, c)
    ensures Sub(a, c)
  {
  }

  /** A row is found by a scan it satisfies, for any words that undefined shifts
      give at insertion and in the scan, exactly when no key is stuck or word 0 of
      the row covers the scan's word. */
  lemma FoundIff(undef: Word, undef': Word, o: Opts, hashes: seq<Option<bv32>>, keys: seq<Key>)
    requires Columns(o, |hashes|) && Satisfies(hashes, keys)
    ensures Covers(RowSign(undef, o, hashes), ScanSign(undef', o, keys)) <==>
            !AnyStuck(o, keys) || Sub(undef', RowSign(undef, o, hashes)[0])
  {
    var row, scan := RowSign(undef, o, hashes), ScanSign(undef', o, keys);
    var wanted, bits := FlatMap(keys, KeyBits(o)), RowBits(o, hashes);
    RowInside(o, hashes);
    KeysInside(o, keys);
    MinusOne(undef', row);
    MinusOne(undef', scan);
    hide Sub, Mask, WordOf, AnyStuck;
    if AnyStuck(o, keys) {
      StuckDraws(o, keys);
      var j :| 0 <= j < |wanted| && wanted[j] == -1;
      SetAllHas(undef', Zeros(o.length), wanted, j);
      if Covers(row, scan) { SubTrans(undef', scan[0], row[0]); }
    }
    if !AnyStuck(o, keys) || Sub(undef', row[0]) {
      forall i | 0 <= i < |wanted| ensures HasBit(undef', row, wanted[i]) {
        StuckBits(o, keys, wanted[i]);
        if wanted[i] >= 0 {
          KeyBitsInRow(o, hashes, keys, wanted[i]);
          var j :| 0 <= j < |bits| && bits[j] == wanted[i];
          SetAllHas(undef, Zeros(o.length), bits, j);
          MaskDefined(undef, undef', wanted[i]);
        }
      }
      ZeroCovered(row);
      SetAllCovered(undef', row, Zeros(o.length), wanted);
    }
  }

  // ----------------------------------------------------- signatures bit by bit

  /** Bit `j` of a word. */
  predicate Bit(w: Word, j: nat)
    requires j < 16
  {
    Meets(w, (1 as Word) << j)
  }

  predicate Meets(w: Word, m: Word) { w & m != 0 }

  /** Bit `k` of a signature. */
  predicate BitAt(s: seq<Word>, k: nat)
    requires k < 16 * |s|
  {
    Bit(s[k / 16], k % 16)
  }

  lemma ShiftedOne(r: nat, j: nat)
    requires r < 16 && j < 16
    ensures Bit((1 as Word) << r, j) <==> j == r
  {
    if r < 8 {
      if r < 4 {
        assert r == 0 || r == 1 || r == 2 || r == 3;
      } else {
        assert r == 4 || r == 5 || r == 6 || r == 7;
      }
    } else {
      if r < 12 {
        assert r == 8 || r == 9 || r == 10 || r == 11;
      } else {
        assert r == 12 || r == 13 || r == 14 || r == 15;
      }
    }
    assert j == 0 || j == 1 || j == 2 || j == 3 || j == 4 || j == 5 || j == 6 || j == 7 ||
      j == 8 || j == 9 || j == 10 || j == 11 || j == 12 || j == 13 || j == 14 || j == 15;
  }

  lemma OrMeets(a: Word, b: Word, m: Word)
    ensures Meets(Or(a, b), m) <==> Meets(a, m) || Meets(b, m)
  {
    hide Or, Meets;
    if !Meets(Or(a, b), m) {
      OrMisses(a, b, m);
    } else if !Meets(a, m) && !Meets(b, m) {
      MissesBoth(a, b, m);
    }
  }

  lemma OrMisses(a: Word, b: Word, m: Word)
    requires !Meets(Or(a, b), m)
    ensures !Meets(a, m) && !Meets(b, m)
  {
  }

  lemma MissesBoth(a: Word, b: Word, m: Word)
    requires !Meets(a, m) && !Meets(b, m)
    ensures !Meets(Or(a, b), m)
  {
  }

  lemma SubMeets(a: Word, b: Word, m: Word)
    requires Sub(a, b) && Meets(a, m)
    ensures Meets(b, m)
  {
  }

  /** The word test asks of each bit of `a` that it is set in `b`. */
  lemma SubIff(a: Word, b: Word)
    ensures Sub(a, b) <==> forall j: nat :: j < 16 && Bit(a, j) ==> Bit(b, j)
  {
    if Sub(a, b) {
      forall j: nat | j < 16 && Bit(a, j) ensures Bit(b, j) { SubMeets(a, b, (1 as Word) << j); }
    } else {
      var j := MissingBit(a, b);
      assert Bit(a, j) && !Bit(b, j);
    }
  }

  lemma MissingBit(a: Word, b: Word) returns (j: nat)
    requires !Sub(a, b)
    ensures j < 16 && Bit(a, j) && !Bit(b, j)
  {
    if b & a & 0x00ff != a & 0x00ff {
      j := MissingLow(a, b);
    } else {
      HighMisses(a, b);
      j := MissingHigh(a, b);
    }
  }

  lemma HighMisses(a: Word, b: Word)
    requires !Sub(a, b) && b & a & 0x00ff == a & 0x00ff
    ensures b & a & 0xff00 != a & 0xff00
  {
  }

  lemma MissingLow(a: Word, b: Word) returns (j: nat)
    requires b & a & 0x00ff != a & 0x00ff
    ensures j < 8 && Bit(a, j) && !Bit(b, j)
  {
    if Bit(a, 0) && !Bit(b, 0) { return 0; }
    if Bit(a, 1) && !Bit(b, 1) { return 1; }
    if Bit(a, 2) && !Bit(b, 2) { return 2; }
    if Bit(a, 3) && !Bit(b, 3) { return 3; }
    if Bit(a, 4) && !Bit(b, 4) { return 4; }
    if Bit(a, 5) && !Bit(b, 5) { return 5; }
    if Bit(a, 6) && !Bit(b, 6) { return 6; }
    j := 7;
  }

  lemma MissingHigh(a: Word, b: Word) returns (j: nat)
    requires b & a & 0xff00 != a & 0xff00
    ensures 8 <= j < 16 && Bit(a, j) && !Bit(b, j)
  {
    if Bit(a, 8) && !Bit(b, 8) { return 8; }
    if Bit(a, 9) && !Bit(b, 9) { return 9; }
    if Bit(a, 10) && !Bit(b, 10) { return 10; }
    if Bit(a, 11) && !Bit(b, 11) { return 11; }
    if Bit(a, 12) && !Bit(b, 12) { return 12; }
    if Bit(a, 13) && !Bit(b, 13) { return 13; }
    if Bit(a, 14) && !Bit(b, 14) { return 14; }
    j := 15;
  }

  /** Setting a bit sets that one and leaves the others alone. */
  lemma SetBitAt(undef: Word, s: seq<Word>, bit: int, k: nat)
    requires Inside(|s|, bit) && bit >= 0 && k < 16 * |s|
    ensures BitAt(SetBit(undef, s, bit), k) <==> BitAt(s, k) || k == bit
  {
    var m := Mask(undef, bit);
    assert WordOf(bit) == bit / 16 && m == (1 as Word) << (bit % 16);
    ShiftedOne(bit % 16, k % 16);
    hide Mask, Or;
    OrMeets(s[bit / 16], m, (1 as Word) << (k % 16));
  }

  /** Setting all sets exactly those listed, besides what was set before. */
  lemma {:induction false} SetAllAt(undef: Word, s: seq<Word>, bits: seq<int>, k: nat)
    requires AllInside(|s|, bits) && (forall i :: 0 <= i < |bits| ==> bits[i] >= 0) && k < 16 * |s|
    ensures BitAt(SetAll(undef, s, bits), k) <==> BitAt(s, k) || k in bits
  {
    hide BitAt, Inside;
    if bits != [] {
      var n := |bits| - 1;
      SetAllAt(undef, s, bits[..n], k);
      SetBitAt(undef, SetAll(undef, s, bits[..n]), bits[n], k);
      assert bits == bits[..n] + [bits[n]];
    }
  }

  lemma ZeroBits(n: nat, k: nat)
    requires k < 16 * n
    ensures !BitAt(Zeros(n), k)
  {
  }

  /** A signature covers another exactly when it has each of its bits. */
  lemma CoversIff(s: seq<Word>, q: seq<Word>)
    requires |s| == |q|
    ensures Covers(s, q) <==> forall k: nat :: k < 16 * |s| && BitAt(q, k) ==> BitAt(s, k)
  {
    hide Bit, Sub;
    if Covers(s, q) {
      forall k: nat | k < 16 * |s| && BitAt(q, k) ensures BitAt(s, k) { SubIff(q[k / 16], s[k / 16]); }
    } else {
      var i :| 0 <= i < |s| && !Sub(q[i], s[i]);
      SubIff(q[i], s[i]);
      var j: nat :| j < 16 && Bit(q[i], j) && !Bit(s[i], j);
      var k := 16 * i + j;
      assert k / 16 == i && k % 16 == j;
      assert BitAt(q, k) && !BitAt(s, k);
    }
  }

  // -------------------------------------------------------- which bits are set

  /** `k` is one of the bits of this value. */
  ghost predicate BitOf(o: Opts, attno: nat, hash: bv32, k: int)
    requires o.length >= 1 && attno < |o.bits| && attno < 0x7fff_fffd
  {
    exists i :: 0 <= i < o.bits[attno] && k == ValueBit(o, attno, hash, i)
  }

  /** The i-th bit of a value, in closed form. */
  ghost function ValueBit(o: Opts, attno: nat, hash: bv32, i: nat): int
    requires o.length >= 1 && attno < 0x7fff_fffd
  {
    ((Power(16807, i + 1) * SeedState(ValueSeed(attno, hash))) % MODULUS - 1) % (16 * o.length)
  }

  lemma {:induction false} BitsFromIs(state: int, n: nat, length: nat, i: nat)
    requires length >= 1 && -MODULUS < state < MODULUS && state != 0 && i < n
    ensures BitsFrom(state, n, length)[i] == ((Power(16807, i + 1) * state) % MODULUS - 1) % (16 * length)
    decreases i
  {
    NextIsModular(state);
    var next := NextState(state);
    if i == 0 {
      assert Power(16807, 1) == 16807 * Power(16807, 0) == 16807;
      assert BitsFrom(state, n, length)[0] == Rem(next - 1, length * 16);
    } else {
      BitsFromIs(next, n - 1, length, i - 1);
      ModProduct(Power(16807, i), state);
    }
  }

  lemma ValueBitIs(o: Opts, attno: nat, hash: bv32, i: nat)
    requires o.length >= 1 && attno < |o.bits| && attno < 0x7fff_fffd && !Stuck(attno, hash) && i < o.bits[attno]
    ensures ValueBits(o, attno, hash)[i] == ValueBit(o, attno, hash, i)
    ensures 0 <= ValueBit(o, attno, hash, i) < 16 * o.length
  {
    StuckSeeds(attno, hash);
    hide Stuck, ValueSeed, SeedState, BitsFrom, Power;
    SeedBounds(ValueSeed(attno, hash));
    BitsFromIs(SeedState(ValueSeed(attno, hash)), o.bits[attno], o.length, i);
  }

  lemma ValueBitsAre(o: Opts, attno: nat, hash: bv32)
    requires o.length >= 1 && attno < |o.bits| && attno < 0x7fff_fffd && !Stuck(attno, hash)
    ensures forall k :: k in ValueBits(o, attno, hash) <==> BitOf(o, attno, hash, k)
    ensures forall k :: k in ValueBits(o, attno, hash) ==> 0 <= k < 16 * o.length
  {
    hide Stuck, ValueSeed, SeedState, BitsFrom, Power, ValueBit;
    var bits := ValueBits(o, attno, hash);
    forall i | 0 <= i < o.bits[attno]
      ensures bits[i] == ValueBit(o, attno, hash, i) && 0 <= bits[i] < 16 * o.length
    {
      ValueBitIs(o, attno, hash, i);
    }
    forall k | BitOf(o, attno, hash, k) ensures k in bits {
      var i :| 0 <= i < o.bits[attno] && k == ValueBit(o, attno, hash, i);
      assert bits[i] == k;
    }
  }

  // -------------------------------------------------------- rows and scans

  /** No value of the row has one of the bad hash values of its column. */
  ghost predicate Unstuck(o: Opts, hashes: seq<Option<bv32>>)
    requires Columns(o, |hashes|)
  {
    forall i :: 0 <= i < |hashes| && hashes[i].Some? ==> !Stuck(i, hashes[i].value)
  }

  ghost predicate RowBit(o: Opts, hashes: seq<Option<bv32>>, k: int)
    requires Columns(o, |hashes|)
  {
    exists i :: 0 <= i < |hashes| && hashes[i].Some? && BitOf(o, i, hashes[i].value, k)
  }

  lemma RowBitsAre(o: Opts, hashes: seq<Option<bv32>>)
    requires Columns(o, |hashes|) && Unstuck(o, hashes)
    ensures forall k :: k in RowBits(o, hashes) <==> RowBit(o, hashes, k)
    ensures forall k :: k in RowBits(o, hashes) ==> 0 <= k < 16 * o.length
  {
    hide BitOf, ValueBits, Stuck;
    var cols, f := Indices(|hashes|), ColumnBits(o, hashes);
    forall i | 0 <= i < |hashes| && hashes[i].Some?
      ensures forall k :: k in f(i) <==> BitOf(o, i, hashes[i].value, k)
      ensures forall k :: k in f(i) ==> 0 <= k < 16 * o.length
    {
      ValueBitsAre(o, i, hashes[i].value);
    }
    forall k ensures k in RowBits(o, hashes) <==> RowBit(o, hashes, k) {
      FlatMapIn(cols, f, k);
      if RowBit(o, hashes, k) {
        var i :| 0 <= i < |hashes| && hashes[i].Some? && BitOf(o, i, hashes[i].value, k);
        assert cols[i] == i && k in f(i);
      }
    }
    forall k | k in RowBits(o, hashes) ensures 0 <= k < 16 * o.length {
      FlatMapIn(cols, f, k);
      var i :| i in cols && k in f(i);
    }
  }

  lemma SignAt(undef: Word, length: nat, bits: seq<int>, k: nat)
    requires AllInside(length, bits) && (forall x :: x in bits ==> 0 <= x) && k < 16 * length
    ensures BitAt(SetAll(undef, Zeros(length), bits), k) <==> k in bits
  {
    forall i | 0 <= i < |bits| ensures bits[i] >= 0 { assert bits[i] in bits; }
    SetAllAt(undef, Zeros(length), bits, k);
    ZeroBits(length, k);
  }

  /** The stored signature has the bits of the row's values and no others. */
  lemma RowSignAt(undef: Word, o: Opts, hashes: seq<Option<bv32>>, k: nat)
    requires Columns(o, |hashes|) && Unstuck(o, hashes) && k < 16 * o.length
    ensures BitAt(RowSign(undef, o, hashes), k) <==> RowBit(o, hashes, k)
  {
    hide BitAt, RowBit, Unstuck, AllInside, SetAll, RowBits;
    RowInside(o, hashes);
    RowBitsAre(o, hashes);
    SignAt(undef, o.length, RowBits(o, hashes), k);
  }

  ghost predicate KeysUnstuck(o: Opts, keys: seq<Key>)
    requires Columns(o, |o.bits|)
  {
    forall i :: 0 <= i < |keys| && keys[i].attno < |o.bits| ==> !Stuck(keys[i].attno, keys[i].hash)
  }

  ghost predicate KeyBit(o: Opts, keys: seq<Key>, k: int)
    requires Columns(o, |o.bits|)
  {
    exists i :: 0 <= i < |keys| && keys[i].attno < |o.bits| && BitOf(o, keys[i].attno, keys[i].hash, k)
  }

  lemma KeyBitsAre(o: Opts, keys: seq<Key>)
    requires Columns(o, |o.bits|) && KeysUnstuck(o, keys)
    ensures forall k :: k in FlatMap(keys, KeyBits(o)) <==> KeyBit(o, keys, k)
    ensures forall k :: k in FlatMap(keys, KeyBits(o)) ==> 0 <= k < 16 * o.length
  {
    hide BitOf, ValueBits, Stuck;
    var f := KeyBits(o);
    forall i | 0 <= i < |keys| && keys[i].attno < |o.bits|
      ensures forall k :: k in f(keys[i]) <==> BitOf(o, keys[i].attno, keys[i].hash, k)
      ensures forall k :: k in f(keys[i]) ==> 0 <= k < 16 * o.length
    {
      ValueBitsAre(o, keys[i].attno, keys[i].hash);
    }
    forall k ensures k in FlatMap(keys, f) <==> KeyBit(o, keys, k) {
      FlatMapIn(keys, f, k);
      if KeyBit(o, keys, k) {
        var i :| 0 <= i < |keys| && keys[i].attno < |o.bits| && BitOf(o, keys[i].attno, keys[i].hash, k);
        assert keys[i] in keys && k in f(keys[i]);
      }
    }
    forall k | k in FlatMap(keys, f) ensures 0 <= k < 16 * o.length {
      FlatMapIn(keys, f, k);
      var key :| key in keys && k in f(key);
    }
  }

  lemma ScanSignAt(undef: Word, o: Opts, keys: seq<Key>, k: nat)
    requires Columns(o, |o.bits|) && KeysUnstuck(o, keys) && k < 16 * o.length
    ensures BitAt(ScanSign(undef, o, keys), k) <==> KeyBit(o, keys, k)
  {
    hide BitAt, KeyBit, KeysUnstuck, AllInside, SetAll, KeyBits;
    KeysInside(o, keys);
    KeyBitsAre(o, keys);
    SignAt(undef, o.length, FlatMap(keys, KeyBits(o)), k);
  }

  /** Which rows a scan returns, wanted or not: those whose values set every bit
      of the keys' values between them. */
  lemma HitIff(undef: Word, undef': Word, o: Opts, hashes: seq<Option<bv32>>, keys: seq<Key>)
    requires Columns(o, |hashes|) && Unstuck(o, hashes) && KeysUnstuck(o, keys)
    ensures Covers(RowSign(undef, o, hashes), ScanSign(undef', o, keys)) <==>
            forall k: nat :: k < 16 * o.length && KeyBit(o, keys, k) ==> RowBit(o, hashes, k)
  {
    hide BitAt, RowBit, KeyBit, Unstuck, KeysUnstuck, Covers, RowSign, ScanSign;
    CoversIff(RowSign(undef, o, hashes), ScanSign(undef', o, keys));
    forall k: nat | k < 16 * o.length
      ensures BitAt(RowSign(undef, o, hashes), k) <==> RowBit(o, hashes, k)
      ensures BitAt(ScanSign(undef', o, keys), k) <==> KeyBit(o, keys, k)
    {
      RowSignAt(undef, o, hashes, k);
      ScanSignAt(undef', o, keys, k);
    }
  }

  // ------------------------------------------------------ columns kept apart

  /** The same value in two columns starts from different seeds, and so do two
      hash values in one column. */
  lemma SeedsKeptApart(i: nat, j: nat, g: bv32, h: bv32)
    requires i < 0x7fff_fffd && j < 0x7fff_fffd
    ensures i != j ==> ValueSeed(i, h) != ValueSeed(j, h)
    ensures g != h ==> ValueSeed(i, g) != ValueSeed(i, h)
  {
    hide ColumnDraw, Xor, Number;
    WordOfNumber(ColumnDraw(i));
    WordOfNumber(ColumnDraw(j));
    if i != j {
      DrawsKeptApart(i, j);
      XorSeparates(h, ColumnWord(i), ColumnWord(j));
      NumberSeparates(Xor(h, ColumnWord(i)), Xor(h, ColumnWord(j)));
    }
    if g != h {
      XorCancels(g, h, ColumnWord(i));
      NumberSeparates(Xor(g, ColumnWord(i)), Xor(h, ColumnWord(i)));
    }
  }

  lemma DrawsKeptApart(i: nat, j: nat)
    requires i < 0x7fff_fffd && j < 0x7fff_fffd && i != j
    ensures ColumnDraw(i) != ColumnDraw(j)
  {
    ColumnDrawIs(i);
    ColumnDrawIs(j);
    hide ColumnDraw, NextState;
    if ColumnDraw(i) == ColumnDraw(j) { NextIsInjective(i + 1, j + 1); }
  }

  lemma ColumnDrawIs(i: nat)
    requires i < 0x7fff_fffd
    ensures ColumnDraw(i) == NextState(i + 1) - 1
  {
  }

  /** A word put together from the binary digits of a number. */
  function Assemble(n: nat): bv32
  {
    if n == 0 then 0
    else if n % 2 == 0 then Twice(Assemble(n / 2))
    else Odd(Assemble(n / 2))
  }

  function Twice(x: bv32): bv32 { x << 1 }

  function Odd(x: bv32): bv32 { (x << 1) + 1 }

  lemma {:induction false} AssembleIs(n: nat)
    requires n < 0x1_0000_0000
    ensures Number(Assemble(n)) == n
  {
    NumberOfZero();
    hide Number, Twice, Odd;
    if n > 0 {
      AssembleIs(n / 2);
      Doubled(Assemble(n / 2));
    }
  }

  lemma NumberOfZero()
    ensures Number(0) == 0
  {
  }

  lemma Doubled(x: bv32)
    requires Number(x) < 0x8000_0000
    ensures Number(Twice(x)) == 2 * Number(x) && Number(Odd(x)) == 2 * Number(x) + 1
  {
    HighBitClear(x);
    ShiftDoubles(x);
    ShiftAddsOne(x);
  }

  lemma HighBitClear(x: bv32)
    requires Number(x) < 0x8000_0000
    ensures x < 0x8000_0000
  {
  }

  lemma ShiftDoubles(x: bv32)
    requires x < 0x8000_0000
    ensures Number(Twice(x)) == 2 * Number(x)
  {
  }

  lemma ShiftAddsOne(x: bv32)
    requires x < 0x8000_0000
    ensures Number(Odd(x)) == 2 * Number(x) + 1
  {
  }

  lemma NumberBack(x: bv32)
    ensures Number(x) as bv32 == x
  {
  }

  /** Converting a 32-bit value to a word and back gives it back. */
  lemma WordOfNumber(a: nat)
    requires a < 0x1_0000_0000
    ensures Number(a as bv32) == a
  {
    AssembleIs(a);
    NumberBack(Assemble(a));
  }

  lemma XorSeparates(h: bv32, a: bv32, b: bv32)
    requires a != b
    ensures Xor(h, a) != Xor(h, b)
  {
  }

  lemma XorCancels(g: bv32, h: bv32, a: bv32)
    requires g != h
    ensures Xor(g, a) != Xor(h, a)
  {
  }

  lemma NumberSeparates(a: bv32, b: bv32)
    requires a != b
    ensures Number(a) != Number(b)
  {
    NumberBack(a);
    NumberBack(b);
    hide Number;
  }
}
