/** Concatenating what each element of a sequence stands for. */
module Flatten {

  function FlatMap<A, B>(xs: seq<A>, f: A -> seq<B>): seq<B>
  {
    if xs == [] then [] else f(xs[0]) + FlatMap(xs[1..], f)
  }

  lemma {:induction false} FlatMapConcat<A, B>(xs: seq<A>, ys: seq<A>, f: A -> seq<B>)
    ensures FlatMap(xs + ys, f) == FlatMap(xs, f) + FlatMap(ys, f)
  {
    if xs == [] {
      assert xs + ys == ys;
    } else {
      assert (xs + ys)[1..] == xs[1..] + ys;
      FlatMapConcat(xs[1..], ys, f);
    }
  }

  lemma FlatMapOne<A, B>(x: A, f: A -> seq<B>)
    ensures FlatMap([x], f) == f(x)
  {
    assert FlatMap([x], f) == f(x) + FlatMap([], f);
  }

  /** Split at position `i`. */
  lemma FlatMapAt<A, B>(xs: seq<A>, i: nat, f: A -> seq<B>)
    requires i < |xs|
    ensures FlatMap(xs, f) == FlatMap(xs[..i], f) + f(xs[i]) + FlatMap(xs[i + 1..], f)
    ensures FlatMap(xs[..i + 1], f) == FlatMap(xs[..i], f) + f(xs[i])
  {
    FlatMapOne(xs[i], f);
    FlatMapConcat(xs[..i], [xs[i]], f);
    FlatMapConcat(xs[..i + 1], xs[i + 1..], f);
    assert xs[..i + 1] == xs[..i] + [xs[i]];
    assert xs == xs[..i + 1] + xs[i + 1..];
  }

  lemma {:induction false} FlatMapEq<A, B>(xs: seq<A>, f: A -> seq<B>, g: A -> seq<B>)
    requires forall x :: x in xs ==> f(x) == g(x)
    ensures FlatMap(xs, f) == FlatMap(xs, g)
  {
    if xs != [] {
      FlatMapEq(xs[1..], f, g);
    }
  }

  lemma {:induction false} FlatMapPerm<A, B>(xs: seq<A>, ys: seq<A>, f: A -> seq<B>)
    requires multiset(xs) == multiset(ys)
    ensures multiset(FlatMap(xs, f)) == multiset(FlatMap(ys, f))
  {
    if xs == [] {
      assert |multiset(ys)| == 0;
    } else {
      assert xs[0] in multiset(ys);
      var j :| 0 <= j < |ys| && ys[j] == xs[0];
      var rest := ys[..j] + ys[j + 1..];
      assert xs == [xs[0]] + xs[1..];
      assert ys == ys[..j] + [ys[j]] + ys[j + 1..];
      assert multiset(xs) == multiset{xs[0]} + multiset(xs[1..]);
      assert multiset(ys) == multiset(rest) + multiset{xs[0]};
      assert multiset(rest) == multiset(ys) - multiset{xs[0]};
      assert multiset(xs[1..]) == multiset(xs) - multiset{xs[0]};
      FlatMapPerm(xs[1..], rest, f);
      FlatMapConcat(ys[..j], ys[j + 1..], f);
      FlatMapAt(ys, j, f);
    }
  }

  lemma {:induction false} FlatMapIn<A, B>(xs: seq<A>, f: A -> seq<B>, y: B)
    ensures y in FlatMap(xs, f) <==> exists x :: x in xs && y in f(x)
  {
    if xs != [] {
      FlatMapIn(xs[1..], f, y);
      assert xs == [xs[0]] + xs[1..];
    }
  }

  lemma FlatMapPart<A, B>(xs: seq<A>, f: A -> seq<B>, x: A)
    requires x in xs
    ensures forall y :: y in f(x) ==> y in FlatMap(xs, f)
    ensures multiset(f(x)) <= multiset(FlatMap(xs, f))
  {
    var i :| 0 <= i < |xs| && xs[i] == x;
    FlatMapAt(xs, i, f);
  }

  // ------------------------------------------------------------- no repeats

  ghost predicate Distinct<T(!new)>(m: multiset<T>) { forall x :: m[x] <= 1 }

  lemma DistinctParts<T(!new)>(a: multiset<T>, b: multiset<T>)
    requires Distinct(a + b)
    ensures Distinct(a) && Distinct(b) && a !! b
  {
    forall x ensures a[x] <= 1 && b[x] <= 1 && !(x in a && x in b) {
      assert (a + b)[x] == a[x] + b[x];
    }
  }

  lemma DistinctSub<T(!new)>(a: multiset<T>, b: multiset<T>)
    requires a <= b && Distinct(b)
    ensures Distinct(a)
  {
    forall x ensures a[x] <= 1 { assert b[x] <= 1; }
  }

  lemma DistinctSplit<T(!new)>(a: seq<T>, b: seq<T>)
    requires Distinct(multiset(a + b))
    ensures Distinct(multiset(a)) && Distinct(multiset(b))
    ensures forall x :: x in a ==> x !in b
  {
    assert multiset(a + b) == multiset(a) + multiset(b);
    DistinctParts(multiset(a), multiset(b));
    forall x | x in a ensures x !in b { assert x in multiset(a); }
  }

  lemma PartsOf<T>(a: seq<T>, b: seq<T>, c: seq<T>, s: seq<T>)
    requires s == a + b + c
    ensures forall x :: x in a || x in b || x in c ==> x in s
  {
  }

  /** Without repeats, one element's part is apart from everything else. */
  lemma DistinctAt<A, B(!new)>(b: B, xs: seq<A>, i: nat, f: A -> seq<B>)
    requires i < |xs| && Distinct(multiset([b] + FlatMap(xs, f)))
    ensures Distinct(multiset(f(xs[i]))) && b !in FlatMap(xs, f)
    ensures forall y :: y in f(xs[i]) ==> y !in FlatMap(xs[..i], f)
    ensures forall y :: y in f(xs[i]) ==> y !in FlatMap(xs[i + 1..], f)
    ensures forall y :: y in f(xs[i]) || y in FlatMap(xs[..i], f) || y in FlatMap(xs[i + 1..], f) ==>
            y in FlatMap(xs, f)
  {
    DistinctSplit([b], FlatMap(xs, f));
    assert b in [b];
    FlatMapAt(xs, i, f);
    PartsOf(FlatMap(xs[..i], f), f(xs[i]), FlatMap(xs[i + 1..], f), FlatMap(xs, f));
    DistinctSplit(FlatMap(xs[..i], f) + f(xs[i]), FlatMap(xs[i + 1..], f));
    DistinctSplit(FlatMap(xs[..i], f), f(xs[i]));
  }

  // ---------------------------------------------------------------- filters

  function Filter<T>(xs: seq<T>, p: T -> bool): seq<T>
  {
    if xs == [] then []
    else if p(xs[0]) then [xs[0]] + Filter(xs[1..], p)
    else Filter(xs[1..], p)
  }

  lemma {:induction false} FilterConcat<T>(xs: seq<T>, ys: seq<T>, p: T -> bool)
    ensures Filter(xs + ys, p) == Filter(xs, p) + Filter(ys, p)
  {
    if xs == [] {
      assert xs + ys == ys;
    } else {
      assert (xs + ys)[1..] == xs[1..] + ys;
      FilterConcat(xs[1..], ys, p);
    }
  }

  lemma {:induction false} FilterFlatMap<A, B>(xs: seq<A>, f: A -> seq<B>, g: A -> seq<B>, p: B -> bool)
    requires forall x :: x in xs ==> g(x) == Filter(f(x), p)
    ensures FlatMap(xs, g) == Filter(FlatMap(xs, f), p)
  {
    if xs != [] {
      FilterFlatMap(xs[1..], f, g, p);
      FilterConcat(f(xs[0]), FlatMap(xs[1..], f), p);
    }
  }

  lemma {:induction false} FilterMultiset<T>(xs: seq<T>, p: T -> bool)
    ensures forall x :: multiset(Filter(xs, p))[x] == if p(x) then multiset(xs)[x] else 0
  {
    if xs != [] {
      FilterMultiset(xs[1..], p);
      assert xs == [xs[0]] + xs[1..];
    }
  }

  lemma {:induction false} FilterAll<T>(xs: seq<T>, p: T -> bool)
    requires forall x :: x in xs ==> p(x)
    ensures Filter(xs, p) == xs
  {
    if xs != [] {
      FilterAll(xs[1..], p);
    }
  }

  lemma {:induction false} FilterSnoc<T>(xs: seq<T>, i: nat, p: T -> bool)
    requires i < |xs|
    ensures Filter(xs[..i + 1], p) == Filter(xs[..i], p) + if p(xs[i]) then [xs[i]] else []
  {
    assert xs[..i + 1] == xs[..i] + [xs[i]];
    FilterConcat(xs[..i], [xs[i]], p);
    assert Filter([xs[i]], p) == if p(xs[i]) then [xs[i]] else [];
  }

  lemma {:induction false} FilterMembers<T>(xs: seq<T>, p: T -> bool)
    ensures forall x :: x in Filter(xs, p) <==> x in xs && p(x)
    ensures |Filter(xs, p)| <= |xs|
  {
    if xs != [] {
      FilterMembers(xs[1..], p);
      assert xs == [xs[0]] + xs[1..];
    }
  }

  lemma {:induction false} FilterNone<T>(xs: seq<T>, p: T -> bool)
    requires forall x :: x in xs ==> !p(x)
    ensures Filter(xs, p) == []
  {
    if xs != [] {
      FilterNone(xs[1..], p);
    }
  }
}
