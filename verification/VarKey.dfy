/** Variable-length index keys: a lower and an upper bound, both cut short, that
    still lead a search to every value below them. */
module VarKey {
  import opened Flatten

  type Byte = n: int | 0 <= n < 256
  type Bytes = seq<Byte>

  // ------------------------------------------------------------------- order

  /** `byteacmp`: bytes in order, a prefix before its extensions. */
  function Cmp(a: Bytes, b: Bytes): int
  {
    if a == [] then (if b == [] then 0 else -1)
    else if b == [] then 1
    else if a[0] != b[0] then a[0] - b[0]
    else Cmp(a[1..], b[1..])
  }

  predicate Le(a: Bytes, b: Bytes) { Cmp(a, b) <= 0 }

  function CommonPrefix(a: Bytes, b: Bytes): (n: nat)
    ensures n <= |a| && n <= |b|
  {
    if a == [] || b == [] || a[0] != b[0] then 0 else 1 + CommonPrefix(a[1..], b[1..])
  }

  function Cut(s: Bytes, n: nat): Bytes { if |s| <= n then s else s[..n] }

  lemma {:induction false} CmpAnti(a: Bytes, b: Bytes)
    ensures Cmp(a, b) == 0 <==> a == b
    ensures Cmp(a, b) > 0 <==> Cmp(b, a) < 0
  {
    if a != [] && b != [] && a[0] == b[0] {
      CmpAnti(a[1..], b[1..]);
      assert a == [a[0]] + a[1..] && b == [b[0]] + b[1..];
    }
  }

  lemma {:induction false} LeTrans(a: Bytes, b: Bytes, c: Bytes)
    requires Le(a, b) && Le(b, c)
    ensures Le(a, c)
  {
    if a != [] && b != [] && c != [] && a[0] == b[0] && b[0] == c[0] {
      LeTrans(a[1..], b[1..], c[1..]);
    }
  }

  lemma {:induction false} PrefixLe(p: Bytes, s: Bytes)
    requires p <= s
    ensures Le(p, s)
  {
    if p != [] {
      PrefixLe(p[1..], s[1..]);
    }
  }

  lemma CutPrefix(s: Bytes, n: nat)
    ensures Cut(s, n) <= s && Le(Cut(s, n), s)
  {
    PrefixLe(Cut(s, n), s);
  }

  /** Below an extension of `p` means below `p`, or an extension of it too. */
  lemma {:induction false} BelowExtension(v: Bytes, p: Bytes, s: Bytes)
    requires p <= s && Le(v, s)
    ensures Le(v, p) || p <= v
  {
    if p != [] && v != [] && v[0] == p[0] {
      BelowExtension(v[1..], p[1..], s[1..]);
      assert v == [v[0]] + v[1..] && p == [p[0]] + p[1..];
    }
  }

  /** Off the path to `u`, all extensions of `p` are on the same side of it. */
  lemma {:induction false} ExtensionBelow(v: Bytes, p: Bytes, u: Bytes)
    requires p <= v && Le(p, u) && !(p <= u)
    ensures Le(v, u)
  {
    if p != [] && u != [] && p[0] == u[0] {
      assert !(p[1..] <= u[1..]) by { assert u == [u[0]] + u[1..] && p == [p[0]] + p[1..]; }
      ExtensionBelow(v[1..], p[1..], u[1..]);
    }
  }

  /** What the outer two share, everything between them shares. */
  lemma {:induction false} Sandwich(a: Bytes, b: Bytes, c: Bytes, d: Bytes)
    requires Le(a, b) && Le(b, c) && Le(c, d)
    ensures CommonPrefix(a, d) <= CommonPrefix(b, c)
  {
    if a != [] && d != [] && a[0] == d[0] {
      Sandwich(a[1..], b[1..], c[1..], d[1..]);
    }
  }

  lemma CutTail(a: Bytes, n: nat)
    requires a != [] && n > 0
    ensures Cut(a, n)[1..] == Cut(a[1..], n - 1)
  {
  }

  lemma {:induction false} CutCommon(a: Bytes, b: Bytes, n: nat)
    requires n > CommonPrefix(a, b)
    ensures CommonPrefix(Cut(a, n), Cut(b, n)) == CommonPrefix(a, b)
  {
    if a != [] && b != [] && a[0] == b[0] {
      CutTail(a, n);
      CutTail(b, n);
      CutCommon(a[1..], b[1..], n - 1);
    }
  }

  lemma {:induction false} CutLe(a: Bytes, b: Bytes, n: nat)
    requires Le(a, b)
    ensures Le(Cut(a, n), Cut(b, n))
  {
    if a != [] && b != [] && n > 0 && a[0] == b[0] {
      CutTail(a, n);
      CutTail(b, n);
      CutLe(a[1..], b[1..], n - 1);
    }
  }

  lemma {:induction false} CommonOfEqual(a: Bytes)
    ensures CommonPrefix(a, a) == |a|
  {
    if a != [] { CommonOfEqual(a[1..]); }
  }

  // -------------------------------------------------------------------- keys

  datatype Key = Key(lower: Bytes, upper: Bytes)

  function Shared(k: Key): nat { CommonPrefix(k.lower, k.upper) }

  /** `gbt_var_node_cp_len`, for single-byte data. */
  method NodeCpLen(k: Key) returns (n: nat)
    ensures n == Shared(k)
  {
    var ml := if |k.lower| <= |k.upper| then |k.lower| else |k.upper|;
    n := 0;
    while n < ml
      invariant n <= ml && Shared(k) == n + CommonPrefix(k.lower[n..], k.upper[n..])
    {
      if k.lower[n] != k.upper[n] {
        return;
      }
      n := n + 1;
    }
  }

  /** `gbt_var_node_truncate`. */
  function Truncate(k: Key, cpf: nat): Key { Key(Cut(k.lower, cpf + 1), Cut(k.upper, cpf + 1)) }

  /** `gbt_var_bin_union` on a key under construction. */
  function Join(u: Key, e: Key): Key
  {
    Key(if Cmp(u.lower, e.lower) > 0 then e.lower else u.lower,
        if Cmp(u.upper, e.upper) < 0 then e.upper else u.upper)
  }

  function JoinAll(keys: seq<Key>): Key
    requires keys != []
  {
    if |keys| == 1 then keys[0] else Join(JoinAll(keys[..|keys| - 1]), keys[|keys| - 1])
  }

  /** The key `gbt_var_union` gives to a page with these keys. */
  function UnionKey(keys: seq<Key>): Key
    requires keys != []
  {
    Truncate(JoinAll(keys), Shared(JoinAll(keys)) + 1)
  }

  /** `gbt_var_union`. */
  method VarUnion(keys: seq<Key>) returns (key: Key)
    requires keys != []
    ensures key == UnionKey(keys)
  {
    var out := keys[0];
    assert keys[..1] == [keys[0]];
    for i := 1 to |keys|
      invariant out == JoinAll(keys[..i])
    {
      assert keys[..i + 1][..i] == keys[..i];
      out := Join(out, keys[i]);
    }
    assert keys[..|keys|] == keys;
    var plen := NodeCpLen(out);
    key := Truncate(out, plen + 1);
  }

  // --------------------------------------------------------------- invariant

  /** `k` stands for `v`: its lower bound is at or below `v`, and `v` is at or
      below its upper bound unless the two agree on everything a cut two bytes
      past the shared prefix would keep. */
  ghost predicate Holds(k: Key, v: Bytes)
  {
    Le(k.lower, k.upper) && Le(k.lower, v) &&
    (Le(v, k.upper) || (|k.upper| >= Shared(k) + 2 && Cut(k.upper, Shared(k) + 2) <= v))
  }

  lemma LeafHolds(v: Bytes)
    ensures Holds(Key(v, v), v)
  {
    CmpAnti(v, v);
  }

  /** Cutting both bounds two or more bytes past the shared prefix loses nothing. */
  lemma TruncateHolds(k: Key, v: Bytes, cpf: nat)
    requires Holds(k, v) && cpf >= Shared(k) + 1
    ensures Holds(Truncate(k, cpf), v) && Shared(Truncate(k, cpf)) == Shared(k)
  {
    var n, t := cpf + 1, Truncate(k, cpf);
    CutCommon(k.lower, k.upper, n);
    CutLe(k.lower, k.upper, n);
    CutPrefix(k.lower, n);
    CutPrefix(k.upper, n);
    LeTrans(t.lower, k.lower, v);
    assert Cut(t.upper, Shared(k) + 2) == Cut(k.upper, Shared(k) + 2);
    if Le(v, k.upper) { BelowExtension(v, t.upper, k.upper); }
  }

  /** Joining with any other key keeps what either stands for. */
  lemma JoinHolds(u: Key, e: Key, v: Bytes)
    requires Le(u.lower, u.upper) && Le(e.lower, e.upper) && (Holds(u, v) || Holds(e, v))
    ensures Holds(Join(u, e), v)
  {
    JoinBounds(u, e);
    if Holds(u, v) { WidenHolds(u, Join(u, e), v); } else { WidenHolds(e, Join(u, e), v); }
  }

  lemma JoinBounds(u: Key, e: Key)
    requires Le(u.lower, u.upper) && Le(e.lower, e.upper)
    ensures var j := Join(u, e);
            Le(j.lower, u.lower) && Le(j.lower, e.lower) &&
            Le(u.upper, j.upper) && Le(e.upper, j.upper) && Le(j.lower, j.upper) &&
            (j.lower == u.lower || j.lower == e.lower) && (j.upper == u.upper || j.upper == e.upper)
  {
    CmpAnti(u.lower, e.lower);
    CmpAnti(u.upper, e.upper);
    CmpAnti(u.lower, u.lower);
    CmpAnti(e.lower, e.lower);
    CmpAnti(u.upper, u.upper);
    CmpAnti(e.upper, e.upper);
    var j := Join(u, e);
    LeTrans(j.lower, u.lower, u.upper);
    LeTrans(j.lower, u.upper, j.upper);
  }

  lemma WidenHolds(k: Key, j: Key, v: Bytes)
    requires Holds(k, v) && Le(j.lower, k.lower) && Le(k.upper, j.upper) && Le(j.lower, j.upper)
    ensures Holds(j, v)
  {
    LeTrans(j.lower, k.lower, v);
    if Le(v, k.upper) {
      LeTrans(v, k.upper, j.upper);
    } else {
      Sandwich(j.lower, k.lower, k.upper, j.upper);
      var p := Cut(k.upper, Shared(k) + 2);
      CutPrefix(k.upper, Shared(k) + 2);
      LeTrans(p, k.upper, j.upper);
      if p <= j.upper {
        assert Cut(j.upper, Shared(j) + 2) <= p;
      } else {
        ExtensionBelow(v, p, j.upper);
      }
    }
  }

  lemma {:induction false} JoinAllHolds(keys: seq<Key>, i: nat, v: Bytes)
    requires i < |keys| && Holds(keys[i], v) && forall j :: 0 <= j < |keys| ==> Le(keys[j].lower, keys[j].upper)
    ensures Holds(JoinAll(keys), v)
  {
    var n := |keys| - 1;
    if n > 0 {
      JoinAllOrdered(keys[..n]);
      if i < n { JoinAllHolds(keys[..n], i, v); }
      JoinHolds(JoinAll(keys[..n]), keys[n], v);
    }
  }

  lemma {:induction false} JoinAllOrdered(keys: seq<Key>)
    requires keys != [] && forall j :: 0 <= j < |keys| ==> Le(keys[j].lower, keys[j].upper)
    ensures Le(JoinAll(keys).lower, JoinAll(keys).upper)
  {
    var n := |keys| - 1;
    if n > 0 {
      JoinAllOrdered(keys[..n]);
      JoinBounds(JoinAll(keys[..n]), keys[n]);
    }
  }

  /** A page's key stands for everything its entries stand for. */
  lemma UnionHolds(keys: seq<Key>, i: nat, v: Bytes)
    requires i < |keys| && Holds(keys[i], v) && forall j :: 0 <= j < |keys| ==> Le(keys[j].lower, keys[j].upper)
    ensures Holds(UnionKey(keys), v)
    ensures Shared(UnionKey(keys)) == Shared(JoinAll(keys)) && |UnionKey(keys).upper| <= Shared(UnionKey(keys)) + 2
  {
    JoinAllHolds(keys, i, v);
    TruncateHolds(JoinAll(keys), v, Shared(JoinAll(keys)) + 1);
  }

  // --------------------------------------------------------------- searching

  datatype Strategy = Less | LessEqual | Equal | GreaterEqual | Greater | NotEqual

  predicate Satisfies(v: Bytes, q: Bytes, s: Strategy)
  {
    match s
    case Less => Cmp(v, q) < 0
    case LessEqual => Cmp(v, q) <= 0
    case Equal => v == q
    case GreaterEqual => Cmp(v, q) >= 0
    case Greater => Cmp(v, q) > 0
    case NotEqual => v != q
  }

  /** `gbt_var_node_pf_match`. */
  predicate PrefixMatch(k: Key, q: Bytes) { k.lower <= q || k.upper <= q }

  /** `gbt_var_consistent`. */
  predicate Consistent(k: Key, q: Bytes, s: Strategy, leaf: bool)
  {
    match s
    case LessEqual => if leaf then Cmp(q, k.lower) >= 0 else Cmp(q, k.lower) >= 0 || PrefixMatch(k, q)
    case Less => if leaf then Cmp(q, k.lower) > 0 else Cmp(q, k.lower) >= 0 || PrefixMatch(k, q)
    case Equal => if leaf then q == k.lower else (Cmp(k.lower, q) <= 0 && Cmp(q, k.upper) <= 0) || PrefixMatch(k, q)
    case Greater => if leaf then Cmp(q, k.upper) < 0 else Cmp(q, k.upper) <= 0 || PrefixMatch(k, q)
    case GreaterEqual => if leaf then Cmp(q, k.upper) <= 0 else Cmp(q, k.upper) <= 0 || PrefixMatch(k, q)
    case NotEqual => !(q == k.lower && q == k.upper)
  }

  /** On a leaf entry the test is exact. */
  lemma LeafIsExact(v: Bytes, q: Bytes, s: Strategy)
    ensures Consistent(Key(v, v), q, s, true) <==> Satisfies(v, q, s)
  {
    CmpAnti(v, q);
    CmpAnti(q, v);
  }

  /** `v` is within reach of the stored bounds as they are. */
  ghost predicate Reached(k: Key, v: Bytes) { Le(v, k.upper) || k.upper <= v || k.lower <= v }

  /** An inner key never turns away a query that a reached value satisfies. */
  lemma ReachedIsConsistent(k: Key, v: Bytes, q: Bytes, s: Strategy)
    requires Holds(k, v) && Reached(k, v) && Satisfies(v, q, s)
    ensures Consistent(k, q, s, false)
  {
    CmpAnti(v, q);
    CmpAnti(q, k.lower);
    CmpAnti(q, k.upper);
    CmpAnti(k.lower, q);
    CmpAnti(q, v);
    match s
    case Less => LeTrans(k.lower, v, q);
    case LessEqual => LeTrans(k.lower, v, q);
    case Equal =>
    case GreaterEqual => AboveReached(k, v, q);
    case Greater => AboveReached(k, v, q);
    case NotEqual => if k.lower == k.upper { OnlyOneValue(k, v); }
  }

  lemma AboveReached(k: Key, v: Bytes, q: Bytes)
    requires Le(k.lower, k.upper) && Reached(k, v) && Le(q, v)
    ensures Le(q, k.upper) || PrefixMatch(k, q)
  {
    if Le(v, k.upper) {
      LeTrans(q, v, k.upper);
    } else if k.upper <= v {
      BelowExtension(q, k.upper, v);
    } else {
      BelowExtension(q, k.lower, v);
      if Le(q, k.lower) { LeTrans(q, k.lower, k.upper); }
    }
  }

  lemma OnlyOneValue(k: Key, v: Bytes)
    requires Holds(k, v) && k.lower == k.upper
    ensures v == k.lower
  {
    CommonOfEqual(k.lower);
    CmpAnti(k.lower, v);
    CmpAnti(v, k.lower);
  }

  lemma ShortIsReached(k: Key, v: Bytes)
    requires Holds(k, v) && |k.upper| <= Shared(k) + 2
    ensures Reached(k, v)
  {
  }

  // -------------------------------------------------------------- whole trees

  datatype Tree = Leaf(value: Bytes) | Node(key: Key, kids: seq<Tree>)

  function KeyOf(t: Tree): Key { match t case Leaf(v) => Key(v, v) case Node(k, _) => k }

  function KeysOf(ts: seq<Tree>): (ks: seq<Key>)
    ensures |ks| == |ts| && forall i :: 0 <= i < |ts| ==> ks[i] == KeyOf(ts[i])
  {
    seq(|ts|, i requires 0 <= i < |ts| => KeyOf(ts[i]))
  }

  function Values(t: Tree): seq<Bytes>
    decreases t, 0
  {
    match t case Leaf(v) => [v] case Node(_, kids) => AllValues(kids)
  }

  function AllValues(ts: seq<Tree>): seq<Bytes>
    decreases ts, 1
  {
    if ts == [] then [] else Values(ts[0]) + AllValues(ts[1..])
  }

  /** The search a scan makes: an entry is followed only if it is consistent. */
  function Search(t: Tree, q: Bytes, s: Strategy): seq<Bytes>
    decreases t, 0
  {
    if !Consistent(KeyOf(t), q, s, t.Leaf?) then []
    else match t case Leaf(v) => [v] case Node(_, kids) => SearchAll(kids, q, s)
  }

  function SearchAll(ts: seq<Tree>, q: Bytes, s: Strategy): seq<Bytes>
    decreases ts, 1
  {
    if ts == [] then [] else Search(ts[0], q, s) + SearchAll(ts[1..], q, s)
  }

  function Wanted(q: Bytes, s: Strategy): Bytes -> bool { (v: Bytes) => Satisfies(v, q, s) }

  /** A key cut to the length a union leaves. */
  ghost predicate Short(k: Key) { Le(k.lower, k.upper) && |k.upper| <= Shared(k) + 2 }

  /** Every inner key is short and stands for all values below it. */
  ghost predicate Keyed(t: Tree)
  {
    t.Node? ==> t.kids != [] && Short(t.key) && (forall v :: v in Values(t) ==> Holds(t.key, v)) &&
                forall i :: 0 <= i < |t.kids| ==> Keyed(t.kids[i])
  }

  /** Every inner key is the union of the keys below it, as a page split off or
      built anew gets it. */
  ghost predicate Unioned(t: Tree)
  {
    t.Node? ==> t.kids != [] && t.key == UnionKey(KeysOf(t.kids)) &&
                forall i :: 0 <= i < |t.kids| ==> Unioned(t.kids[i])
  }

  lemma UnionIsShort(keys: seq<Key>)
    requires keys != [] && forall j :: 0 <= j < |keys| ==> Le(keys[j].lower, keys[j].upper)
    ensures Short(UnionKey(keys))
  {
    JoinAllOrdered(keys);
    var k := JoinAll(keys);
    CutLe(k.lower, k.upper, Shared(k) + 2);
    CutCommon(k.lower, k.upper, Shared(k) + 2);
  }

  lemma KeyOrdered(t: Tree)
    requires Keyed(t)
    ensures Le(KeyOf(t).lower, KeyOf(t).upper)
  {
    if t.Leaf? { CmpAnti(t.value, t.value); }
  }

  lemma KeyHolds(t: Tree, v: Bytes)
    requires Keyed(t) && v in Values(t)
    ensures Holds(KeyOf(t), v)
  {
    if t.Leaf? { LeafHolds(v); }
  }

  lemma {:induction false} UnionedIsKeyed(t: Tree)
    requires Unioned(t)
    ensures Keyed(t)
    decreases t
  {
    if t.Node? {
      var keys := KeysOf(t.kids);
      forall j | 0 <= j < |t.kids| ensures Keyed(t.kids[j]) && Le(keys[j].lower, keys[j].upper) {
        UnionedIsKeyed(t.kids[j]);
        KeyOrdered(t.kids[j]);
      }
      UnionIsShort(keys);
      forall v | v in Values(t) ensures Holds(t.key, v) {
        var i := FindKid(t.kids, v);
        KeyHolds(t.kids[i], v);
        UnionHolds(keys, i, v);
      }
    }
  }

  // -------------------------------------------------------------- insertions

  /** The key of a page adjusted for one more value below it. */
  function Adjusted(k: Key, v: Bytes): Key { UnionKey([k, Key(v, v)]) }

  /** Insertion down a path: every key on it is adjusted, and the value joins the
      page where the path ends. */
  function Insert(t: Tree, path: seq<nat>, v: Bytes): Tree
    requires t.Node?
    decreases path
  {
    var key := Adjusted(t.key, v);
    if path == [] || path[0] >= |t.kids| || t.kids[path[0]].Leaf? then Node(key, t.kids + [Leaf(v)])
    else Node(key, t.kids[path[0] := Insert(t.kids[path[0]], path[1..], v)])
  }

  lemma AdjustedHolds(k: Key, v: Bytes)
    requires Short(k)
    ensures Short(Adjusted(k, v)) && Holds(Adjusted(k, v), v)
    ensures forall w :: Holds(k, w) ==> Holds(Adjusted(k, v), w)
  {
    var keys := [k, Key(v, v)];
    CmpAnti(v, v);
    LeafHolds(v);
    UnionIsShort(keys);
    UnionHolds(keys, 1, v);
    forall w | Holds(k, w) ensures Holds(Adjusted(k, v), w) { UnionHolds(keys, 0, w); }
  }

  lemma {:induction false} AllValuesConcat(a: seq<Tree>, b: seq<Tree>)
    ensures AllValues(a + b) == AllValues(a) + AllValues(b)
  {
    if a == [] {
      assert a + b == b;
    } else {
      assert (a + b)[1..] == a[1..] + b;
      AllValuesConcat(a[1..], b);
    }
  }

  lemma AllValuesAt(ts: seq<Tree>, i: nat)
    requires i < |ts|
    ensures AllValues(ts) == AllValues(ts[..i]) + (Values(ts[i]) + AllValues(ts[i + 1..]))
  {
    assert ts == ts[..i] + ts[i..] && ts[i..][1..] == ts[i + 1..];
    AllValuesConcat(ts[..i], ts[i..]);
  }

  /** An insertion adds its value and no other. */
  lemma {:induction false} InsertAdds(t: Tree, path: seq<nat>, v: Bytes)
    requires t.Node?
    ensures multiset(Values(Insert(t, path, v))) == multiset(Values(t)) + multiset{v}
    decreases path
  {
    if path == [] || path[0] >= |t.kids| || t.kids[path[0]].Leaf? {
      AllValuesConcat(t.kids, [Leaf(v)]);
      assert AllValues([Leaf(v)]) == [v];
    } else {
      var i := path[0];
      var kid := Insert(t.kids[i], path[1..], v);
      InsertAdds(t.kids[i], path[1..], v);
      AllValuesAt(t.kids, i);
      AllValuesAt(t.kids[i := kid], i);
      assert t.kids[i := kid][..i] == t.kids[..i] && t.kids[i := kid][i + 1..] == t.kids[i + 1..];
    }
  }

  lemma {:induction false} InsertKeeps(t: Tree, path: seq<nat>, v: Bytes)
    requires t.Node? && Keyed(t)
    ensures Keyed(Insert(t, path, v))
    decreases path
  {
    var t' := Insert(t, path, v);
    AdjustedHolds(t.key, v);
    InsertAdds(t, path, v);
    forall w | w in Values(t') ensures Holds(t'.key, w) {
      assert w in multiset(Values(t'));
      assert w == v || w in multiset(Values(t));
    }
    if !(path == [] || path[0] >= |t.kids| || t.kids[path[0]].Leaf?) {
      InsertKeeps(t.kids[path[0]], path[1..], v);
    }
  }

  datatype Insertion = Insertion(path: seq<nat>, value: Bytes)

  function Grow(t: Tree, steps: seq<Insertion>): (t': Tree)
    requires t.Node?
    ensures t'.Node?
  {
    if steps == [] then t
    else Insert(Grow(t, steps[..|steps| - 1]), steps[|steps| - 1].path, steps[|steps| - 1].value)
  }

  lemma {:induction false} GrowKeeps(t: Tree, steps: seq<Insertion>)
    requires t.Node? && Keyed(t)
    ensures Keyed(Grow(t, steps))
  {
    if steps != [] {
      var n := |steps| - 1;
      GrowKeeps(t, steps[..n]);
      InsertKeeps(Grow(t, steps[..n]), steps[n].path, steps[n].value);
    }
  }

  function InsertedValues(steps: seq<Insertion>): (vs: seq<Bytes>)
    ensures |vs| == |steps|
  {
    seq(|steps|, i requires 0 <= i < |steps| => steps[i].value)
  }

  lemma {:induction false} GrowAdds(t: Tree, steps: seq<Insertion>)
    requires t.Node?
    ensures multiset(Values(Grow(t, steps))) == multiset(Values(t)) + multiset(InsertedValues(steps))
  {
    hide Values, Insert;
    if steps != [] {
      var n := |steps| - 1;
      GrowAdds(t, steps[..n]);
      InsertAdds(Grow(t, steps[..n]), steps[n].path, steps[n].value);
      assert InsertedValues(steps) == InsertedValues(steps[..n]) + [steps[n].value];
    }
  }

  /** Keys made by union, then adjusted by any insertions on any paths: the search
      returns exactly the satisfying ones of the values put in. */
  lemma GrownSearchIsExact(t: Tree, steps: seq<Insertion>, q: Bytes, s: Strategy)
    requires t.Node? && Unioned(t)
    ensures Search(Grow(t, steps), q, s) == Filter(Values(Grow(t, steps)), Wanted(q, s))
    ensures multiset(Values(Grow(t, steps))) == multiset(Values(t)) + multiset(InsertedValues(steps))
  {
    UnionedIsKeyed(t);
    GrowKeeps(t, steps);
    GrowAdds(t, steps);
    SearchIsExact(Grow(t, steps), q, s);
  }

  // ---------------------------------------------------------- the guided search

  lemma {:induction false} FindKid(ts: seq<Tree>, v: Bytes) returns (i: nat)
    requires v in AllValues(ts)
    ensures i < |ts| && v in Values(ts[i])
  {
    if v in Values(ts[0]) {
      i := 0;
    } else {
      var j := FindKid(ts[1..], v);
      i := j + 1;
    }
  }

  /** The guided search returns exactly the values that satisfy the query. */
  lemma {:induction false} SearchIsExact(t: Tree, q: Bytes, s: Strategy)
    requires Keyed(t)
    ensures Search(t, q, s) == Filter(Values(t), Wanted(q, s))
    decreases t, 1
  {
    match t
    case Leaf(v) =>
      LeafIsExact(v, q, s);
      assert Filter([v], Wanted(q, s)) == if Satisfies(v, q, s) then [v] else [];
    case Node(key, kids) =>
      SearchAllIsExact(kids, q, s);
      if !Consistent(key, q, s, false) {
        forall v | v in Values(t) ensures !Satisfies(v, q, s) {
          ShortIsReached(key, v);
          if Satisfies(v, q, s) { ReachedIsConsistent(key, v, q, s); }
        }
        FilterNone(Values(t), Wanted(q, s));
      }
  }

  lemma {:induction false} SearchAllIsExact(ts: seq<Tree>, q: Bytes, s: Strategy)
    requires forall i :: 0 <= i < |ts| ==> Keyed(ts[i])
    ensures SearchAll(ts, q, s) == Filter(AllValues(ts), Wanted(q, s))
    decreases ts, 2
  {
    if ts != [] {
      SearchIsExact(ts[0], q, s);
      SearchAllIsExact(ts[1..], q, s);
      FilterConcat(Values(ts[0]), AllValues(ts[1..]), Wanted(q, s));
    }
  }

  // ------------------------------------------------ keys kept longer than needed

  /** The bytes past the two that a union would keep are all 255. */
  predicate MaxTail(k: Key) { forall i :: Shared(k) + 2 <= i < |k.upper| ==> k.upper[i] == 255 }

  lemma {:induction false} BelowMax(v: Bytes, u: Bytes, n: nat)
    requires n <= |u| && n <= |v| && u[..n] == v[..n] && forall i :: n <= i < |u| ==> u[i] == 255
    ensures Le(v, u) || u <= v
    decreases |u|
  {
    if n > 0 { assert u[..n][0] == v[..n][0]; }
    if u != [] && v != [] && u[0] == v[0] {
      var m := if n == 0 then 0 else n - 1;
      forall i | 0 <= i < m ensures u[1..][i] == v[1..][i] { assert u[..n][i + 1] == v[..n][i + 1]; }
      BelowMax(v[1..], u[1..], m);
      assert u == [u[0]] + u[1..] && v == [v[0]] + v[1..];
    }
  }

  /** A value such a key claims to stand for and yet turns away. */
  function Overlooked(k: Key, i: nat): Bytes
    requires i < |k.upper|
  {
    k.upper[..i] + [255]
  }

  lemma {:induction false} Above(u: Bytes, i: nat, b: Byte)
    requires i < |u| && u[i] < b
    ensures Cmp(u[..i] + [b], u) > 0 && !(u <= u[..i] + [b])
  {
    var v := u[..i] + [b];
    assert v[i] != u[i];
    if i > 0 {
      assert v[1..] == u[1..][..i - 1] + [b];
      Above(u[1..], i - 1, b);
    }
  }

  lemma {:induction false} SharedIsPrefix(a: Bytes, b: Bytes)
    ensures a[..CommonPrefix(a, b)] == b[..CommonPrefix(a, b)]
    ensures CommonPrefix(a, b) < |a| && CommonPrefix(a, b) < |b| ==> a[CommonPrefix(a, b)] != b[CommonPrefix(a, b)]
  {
    if a != [] && b != [] && a[0] == b[0] {
      SharedIsPrefix(a[1..], b[1..]);
      var n := CommonPrefix(a[1..], b[1..]);
      assert a[..n + 1] == [a[0]] + a[1..][..n] && b[..n + 1] == [b[0]] + b[1..][..n];
    }
  }

  lemma OverlookedIsLost(k: Key, i: nat)
    requires Le(k.lower, k.upper) && !(k.lower <= k.upper) && Shared(k) + 2 <= i < |k.upper| && k.upper[i] < 255
    ensures Holds(k, Overlooked(k, i)) && !Consistent(k, Overlooked(k, i), Equal, false)
  {
    var v := Overlooked(k, i);
    Above(k.upper, i, 255);
    CmpAnti(v, k.upper);
    LeTrans(k.lower, k.upper, v);
    assert Cut(k.upper, Shared(k) + 2) == v[..Shared(k) + 2];
    SharedIsPrefix(k.lower, k.upper);
    var n := Shared(k);
    assert k.lower[..n] == k.upper[..n] && n < |k.lower|;
    assert k.lower[n] != v[n];
  }

  /** A stored inner key turns away no value it stands for, exactly when its upper
      bound ends within two bytes of the shared prefix, or is all 255 after
      that, or its lower bound is a prefix of it. */
  lemma StoredKeyIsSafeIff(k: Key)
    requires Le(k.lower, k.upper)
    ensures (forall v: Bytes, q: Bytes, s: Strategy :: Holds(k, v) && Satisfies(v, q, s) ==>
               Consistent(k, q, s, false)) <==>
            MaxTail(k) || k.lower <= k.upper
  {
    if MaxTail(k) || k.lower <= k.upper {
      forall v: Bytes, q: Bytes, s: Strategy | Holds(k, v) && Satisfies(v, q, s) ensures Consistent(k, q, s, false) {
        SafeIsReached(k, v);
        ReachedIsConsistent(k, v, q, s);
      }
    } else {
      var i :| Shared(k) + 2 <= i < |k.upper| && k.upper[i] != 255;
      OverlookedIsLost(k, i);
      assert Satisfies(Overlooked(k, i), Overlooked(k, i), Equal);
    }
  }

  lemma SafeIsReached(k: Key, v: Bytes)
    requires Holds(k, v) && (MaxTail(k) || k.lower <= k.upper)
    ensures Reached(k, v)
  {
    if !Le(v, k.upper) {
      var n := Shared(k) + 2;
      assert Cut(k.upper, n) == k.upper[..n] == v[..n];
      if MaxTail(k) {
        BelowMax(v, k.upper, n);
      } else {
        SharedIsPrefix(k.lower, k.upper);
        PrefixShares(k.lower, k.upper);
        assert k.lower == k.upper[..n][..|k.lower|] == v[..n][..|k.lower|];
      }
    }
  }

  lemma {:induction false} PrefixShares(a: Bytes, b: Bytes)
    requires a <= b
    ensures CommonPrefix(a, b) == |a|
  {
    if a != [] { PrefixShares(a[1..], b[1..]); }
  }

  // ------------------------------------------------------------- page splits

  /** The key `gbt_var_picksplit` gives one half: cut for the longer of the two
      halves' shared prefixes. */
  function SplitKey(mine: seq<Key>, other: seq<Key>): Key
    requires mine != [] && other != []
  {
    var l, r := Shared(JoinAll(mine)), Shared(JoinAll(other));
    Truncate(JoinAll(mine), (if l >= r then l else r) + 1)
  }

  lemma SplitHolds(mine: seq<Key>, other: seq<Key>, i: nat, v: Bytes)
    requires other != [] && i < |mine| && Holds(mine[i], v)
    requires forall j :: 0 <= j < |mine| ==> Le(mine[j].lower, mine[j].upper)
    ensures Holds(SplitKey(mine, other), v)
    ensures Shared(JoinAll(mine)) >= Shared(JoinAll(other)) ==> MaxTail(SplitKey(mine, other))
  {
    hide Holds, JoinAll, CommonPrefix;
    JoinAllHolds(mine, i, v);
    var l, r := Shared(JoinAll(mine)), Shared(JoinAll(other));
    TruncateHolds(JoinAll(mine), v, (if l >= r then l else r) + 1);
  }

  /** Split off a leaf page, every value stays within reach. */
  lemma LeafSplitReaches(mine: seq<Key>, other: seq<Key>, i: nat, v: Bytes)
    requires other != [] && i < |mine| && mine[i] == Key(v, v)
    requires forall j :: 0 <= j < |mine| ==> Le(mine[j].lower, mine[j].upper)
    ensures Reached(SplitKey(mine, other), v)
  {
    JoinAllAbove(mine, i, v);
    var l, r := Shared(JoinAll(mine)), Shared(JoinAll(other));
    var u := JoinAll(mine).upper;
    CutPrefix(u, (if l >= r then l else r) + 2);
    BelowExtension(v, SplitKey(mine, other).upper, u);
  }

  lemma {:induction false} JoinAllAbove(keys: seq<Key>, i: nat, v: Bytes)
    requires i < |keys| && keys[i].upper == v && forall j :: 0 <= j < |keys| ==> Le(keys[j].lower, keys[j].upper)
    ensures Le(v, JoinAll(keys).upper)
  {
    var n := |keys| - 1;
    CmpAnti(v, v);
    if n > 0 {
      JoinAllOrdered(keys[..n]);
      JoinBounds(JoinAll(keys[..n]), keys[n]);
      if i < n {
        JoinAllAbove(keys[..n], i, v);
        LeTrans(v, JoinAll(keys[..n]).upper, JoinAll(keys).upper);
      }
    }
  }

  /** The order `gbt_var_picksplit` sorts by: lower bound, then upper bound. */
  predicate InOrder(a: Key, b: Key) { Cmp(a.lower, b.lower) < 0 || (a.lower == b.lower && Cmp(a.upper, b.upper) <= 0) }

  predicate Sorted(keys: seq<Key>) { forall i :: 0 < i < |keys| ==> InOrder(keys[i - 1], keys[i]) }

  /** The left page takes the first half of the sorted entries, rounded down. */
  function LeftKey(keys: seq<Key>): Key
    requires |keys| >= 2
  {
    SplitKey(keys[..|keys| / 2], keys[|keys| / 2..])
  }

  lemma OneValueKey(x: Bytes)
    ensures UnionKey([Key(x, x)]) == Key(x, x) && JoinAll([Key(x, x), Key(x, x)]) == Key(x, x)
  {
    CommonOfEqual(x);
    CmpAnti(x, x);
  }

  lemma HalvesOfFour(a: Key, b: Key, c: Key, d: Key)
    ensures LeftKey([a, b, c, d]) == SplitKey([a, b], [c, d])
    ensures InOrder(a, b) && InOrder(b, c) && InOrder(c, d) ==> Sorted([a, b, c, d])
  {
    assert [a, b, c, d][..2] == [a, b] && [a, b, c, d][2..] == [c, d];
  }

  /** The page key of "Q" and "abz", and what it becomes next to "abc". */
  lemma ShortenedKey()
    ensures UnionKey([Key([81], [81]), Key([97, 98, 122], [97, 98, 122])]) == Key([81], [97, 98])
    ensures JoinAll([Key([81], [97, 98]), Key([97, 98, 99], [97, 98, 99])]) == Key([81], [97, 98, 99])
  {
    assert JoinAll([Key([81], [81]), Key([97, 98, 122], [97, 98, 122])]) == Key([81], [97, 98, 122]);
    assert Cmp([97, 98], [97, 98, 99]) < 0;
  }

  /** Split off an inner page, a value can be lost: "Q" and "abz" under one key,
      "abc" under another, next to two pages that hold only "zzz". */
  lemma InnerSplitLosesAValue()
    ensures var v := [97, 98, 122];
            var a := UnionKey([Key([81], [81]), Key(v, v)]);
            var b := UnionKey([Key([97, 98, 99], [97, 98, 99])]);
            var z := UnionKey([Key([122, 122, 122], [122, 122, 122])]);
            Sorted([a, b, z, z]) && Holds(a, v) && !Consistent(LeftKey([a, b, z, z]), v, Equal, false)
  {
    var v: Bytes, q: Bytes, c: Bytes, zz: Bytes := [97, 98, 122], [81], [97, 98, 99], [122, 122, 122];
    var a, b, z := Key(q, [97, 98]), Key(c, c), Key(zz, zz);
    ShortenedKey();
    OneValueKey(c);
    OneValueKey(zz);
    HalvesOfFour(a, b, z, z);
    CmpAnti(zz, zz);
    CommonOfEqual(zz);
    hide UnionKey, JoinAll;
    assert SplitKey([a, b], [z, z]) == Key(q, c);
    assert Cmp(v, c) > 0;
  }

  // ------------------------------------------------------------ what it means

  /** `a` comes before `b` in the dictionary: at the first place where they differ
      it has ended or has the lower byte. */
  ghost predicate Before(a: Bytes, b: Bytes)
  {
    exists n: nat :: n <= |a| && n < |b| && a[..n] == b[..n] && (n == |a| || a[n] < b[n])
  }

  lemma {:induction false} CmpIsDictionary(a: Bytes, b: Bytes)
    ensures Cmp(a, b) < 0 <==> Before(a, b)
  {
    if a == [] || b == [] {
      if b != [] { assert a[..0] == b[..0]; }
    } else if a[0] != b[0] {
      if a[0] < b[0] { assert a[..0] == b[..0]; }
      if Before(a, b) {
        var n: nat :| n <= |a| && n < |b| && a[..n] == b[..n] && (n == |a| || a[n] < b[n]);
        if n > 0 { assert a[..n][0] == b[..n][0]; }
      }
    } else {
      CmpIsDictionary(a[1..], b[1..]);
      BeforeTail(a, b);
    }
  }

  lemma BeforeTail(a: Bytes, b: Bytes)
    requires a != [] && b != [] && a[0] == b[0]
    ensures Before(a, b) <==> Before(a[1..], b[1..])
  {
    if Before(a, b) {
      var n: nat :| n <= |a| && n < |b| && a[..n] == b[..n] && (n == |a| || a[n] < b[n]);
      assert n > 0;
      assert a[1..][..n - 1] == a[..n][1..] && b[1..][..n - 1] == b[..n][1..];
    }
    if Before(a[1..], b[1..]) {
      var c, d := a[1..], b[1..];
      var n: nat :| n <= |c| && n < |d| && c[..n] == d[..n] && (n == |c| || c[n] < d[n]);
      assert a[..n + 1] == [a[0]] + a[1..][..n] && b[..n + 1] == [b[0]] + b[1..][..n];
    }
  }

  /** What each strategy asks, in terms of the dictionary. */
  ghost predicate Asked(v: Bytes, q: Bytes, s: Strategy)
  {
    match s
    case Less => Before(v, q)
    case LessEqual => Before(v, q) || v == q
    case Equal => v == q
    case GreaterEqual => Before(q, v) || v == q
    case Greater => Before(q, v)
    case NotEqual => v != q
  }

  lemma AskedIs(v: Bytes, q: Bytes, s: Strategy)
    ensures Satisfies(v, q, s) <==> Asked(v, q, s)
  {
    CmpIsDictionary(v, q);
    CmpIsDictionary(q, v);
    CmpAnti(v, q);
  }

  /** A grown tree's search returns a value exactly if it was put in and stands in
      the dictionary where the query asks. */
  lemma SearchMeans(t: Tree, steps: seq<Insertion>, q: Bytes, s: Strategy, v: Bytes)
    requires t.Node? && Unioned(t)
    ensures v in Search(Grow(t, steps), q, s) <==>
            (v in Values(t) || exists i :: 0 <= i < |steps| && steps[i].value == v) && Asked(v, q, s)
  {
    GrownSearchIsExact(t, steps, q, s);
    hide Asked, Search, Satisfies, Unioned;
    var vs, added := Values(Grow(t, steps)), InsertedValues(steps);
    FilterMembers(vs, Wanted(q, s));
    AskedIs(v, q, s);
    assert v in vs <==> v in multiset(Values(t)) + multiset(added);
    assert v in multiset(added) <==> v in added;
    if i :| 0 <= i < |steps| && steps[i].value == v { assert added[i] == v; }
    if v in added { var i :| 0 <= i < |added| && added[i] == v; }
  }

  // ------------------------------------------------ when an inner key is followed

  /** Inner keys do not tell `<` from `<=`, nor `>` from `>=`. */
  function Loosened(s: Strategy): Strategy
  {
    match s case Less => LessEqual case Greater => GreaterEqual case _ => s
  }

  /** An inner key is followed for an ordering or for equality exactly if some
      value within its reach satisfies the loosened query; for inequality exactly
      if it is not a single value, the query's. */
  lemma ConsistentIff(k: Key, q: Bytes, s: Strategy)
    requires Le(k.lower, k.upper)
    ensures s != NotEqual ==>
            (Consistent(k, q, s, false) <==>
             exists v: Bytes :: Le(k.lower, v) && Reached(k, v) && Satisfies(v, q, Loosened(s)))
    ensures s == NotEqual ==> (Consistent(k, q, s, false) <==> k != Key(q, q))
  {
    if s != NotEqual {
      if Consistent(k, q, s, false) {
        var v := Witness(k, q, s);
        ConsistentHasWitness(k, q, s);
        assert Le(k.lower, v) && Reached(k, v) && Satisfies(v, q, Loosened(s));
      }
      if v: Bytes :| Le(k.lower, v) && Reached(k, v) && Satisfies(v, q, Loosened(s)) {
        WitnessIsConsistent(k, q, s, v);
      }
    }
  }

  function Witness(k: Key, q: Bytes, s: Strategy): Bytes
  {
    match s
    case Less => k.lower
    case LessEqual => k.lower
    case Equal => q
    case _ => if Cmp(q, k.upper) <= 0 then k.upper else q
  }

  lemma ConsistentHasWitness(k: Key, q: Bytes, s: Strategy)
    requires Le(k.lower, k.upper) && s != NotEqual && Consistent(k, q, s, false)
    ensures var v := Witness(k, q, s); Le(k.lower, v) && Reached(k, v) && Satisfies(v, q, Loosened(s))
  {
    CmpAnti(k.lower, k.lower);
    CmpAnti(k.upper, k.upper);
    CmpAnti(q, k.lower);
    CmpAnti(q, k.upper);
    CmpAnti(q, q);
    if k.lower <= q { PrefixLe(k.lower, q); }
    if k.upper <= q {
      PrefixLe(k.upper, q);
      LeTrans(k.lower, k.upper, q);
    }
  }

  lemma WitnessIsConsistent(k: Key, q: Bytes, s: Strategy, v: Bytes)
    requires Le(k.lower, k.upper) && s != NotEqual && Le(k.lower, v) && Reached(k, v) && Satisfies(v, q, Loosened(s))
    ensures Consistent(k, q, s, false)
  {
    CmpAnti(v, q);
    CmpAnti(q, v);
    CmpAnti(k.lower, q);
    CmpAnti(q, k.lower);
    match s
    case Less => LeTrans(k.lower, v, q);
    case LessEqual => LeTrans(k.lower, v, q);
    case Equal =>
    case GreaterEqual => AboveReached(k, v, q);
    case Greater => AboveReached(k, v, q);
  }
}
