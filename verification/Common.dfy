/** Types and arithmetic shared by the modules. */
module Common {

  const INT32_MIN: int := -0x8000_0000
  const INT32_MAX: int := 0x7fff_ffff

  datatype Option<+T> = None | Some(value: T)

  /** An item pointer: a heap tuple, or in an inner index tuple a downlink. */
  datatype Tid = Tid(block: nat, offset: nat)

  function Indices(n: nat): (s: seq<nat>)
    ensures |s| == n && forall i :: 0 <= i < n ==> s[i] == i
  {
    seq(n, i => i)
  }

  /** Quotient and remainder are determined by their equation. */
  lemma DivMod(a: int, p: int, q: int, r: int)
    requires p >= 1 && 0 <= r < p && a == q * p + r
    ensures a / p == q && a % p == r
  {
    var d := a / p - q;
    assert d * p == r - a % p;
    assert (-d) * p == -(d * p);
    if d >= 1 { MulGe(d, p); }
    if d <= -1 { MulGe(-d, p); }
  }

  lemma MulGe(d: int, p: int)
    requires d >= 1 && p >= 1
    ensures d * p >= p
  {
  }
}
