/** Widening a 32-bit transaction id to 64 bits, near a known 64-bit id. */
module XidWiden {

  const TWO31: int := 0x8000_0000
  const TWO32: int := 0x1_0000_0000
  const TWO64: int := 0x1_0000_0000_0000_0000
  const FIRST_NORMAL: int := 3

  type Xid = n: int | 0 <= n < TWO32
  type FullXid = n: int | 0 <= n < TWO64

  /** The cached next id, as the three entry assertions demand it. */
  ghost predicate Context(next: FullXid) { next >= FIRST_NORMAL && next % TWO32 >= FIRST_NORMAL }

  /** `(int32) (a - b)` on 32-bit ids: their distance modulo 2^32, signed. */
  function Distance(a: Xid, b: Xid): (d: int)
    ensures -TWO31 <= d < TWO31
  {
    (a - b + TWO31) % TWO32 - TWO31
  }

  /** `FullTransactionIdFromXidAndCtx`, with 64-bit unsigned arithmetic. */
  function Widen(xid: Xid, next: FullXid): FullXid
    requires next >= FIRST_NORMAL
  {
    if xid < FIRST_NORMAL then xid
    else
      var diff := Distance(next % TWO32, xid);
      if diff > 0 && next - FIRST_NORMAL < diff then FIRST_NORMAL
      else (next - diff) % TWO64
  }

  /** Ids closer to `next` than half the 32-bit circle. */
  ghost predicate Window(next: int, f: int) { next - TWO31 < f <= next + TWO31 }

  /** The integer in the window that `xid` abbreviates. */
  ghost function Meant(xid: Xid, next: FullXid): int { next - Distance(next % TWO32, xid) }

  /** Two values in step with each other modulo 2^32 and less than that apart
      are the same. */
  lemma SameResidue(a: int, b: int)
    requires a % TWO32 == b % TWO32 && -TWO32 < a - b < TWO32
    ensures a == b
  {
    var d := a / TWO32 - b / TWO32;
    assert a - b == TWO32 * d;
  }

  lemma Residue(a: int, k: int, r: int)
    requires a == TWO32 * k + r && 0 <= r < TWO32
    ensures a % TWO32 == r
  {
  }

  /** The meant id is in the window, abbreviates to `xid`, and is alone in that. */
  lemma MeantIsUnique(xid: Xid, next: FullXid)
    ensures Window(next, Meant(xid, next)) && Meant(xid, next) % TWO32 == xid
    ensures forall f: int :: Window(next, f) && f % TWO32 == xid ==> f == Meant(xid, next)
  {
    var a := next % TWO32;
    var k := (a - xid + TWO31) / TWO32;
    assert Meant(xid, next) == TWO32 * (next / TWO32 + k) + xid;
    Residue(Meant(xid, next), next / TWO32 + k, xid);
    forall f: int | Window(next, f) && f % TWO32 == xid ensures f == Meant(xid, next) {
      SameResidue(f, Meant(xid, next));
    }
  }

  /** The result for a normal xid: the meant id where that is a normal 64-bit
      id, the first normal id where it would lie before epoch 0. The exit
      assertion holds, and so does the one about epoch 0. */
  lemma WidenNormal(xid: Xid, next: FullXid)
    requires Context(next) && xid >= FIRST_NORMAL && Meant(xid, next) < TWO64
    ensures Widen(xid, next) == if Meant(xid, next) < FIRST_NORMAL then FIRST_NORMAL else Meant(xid, next)
    ensures Widen(xid, next) >= FIRST_NORMAL
    ensures Meant(xid, next) < FIRST_NORMAL ==> next / TWO32 == 0
  {
  }

  /** The three special ids stand for themselves, whatever the epoch. */
  lemma WidenSpecial(xid: Xid, next: FullXid)
    requires Context(next) && xid < FIRST_NORMAL
    ensures Widen(xid, next) % TWO32 == xid && Widen(xid, next) / TWO32 == 0 && Widen(xid, next) < FIRST_NORMAL
  {
  }

  /** The result is the one id in the window that `xid` can mean, exactly when
      there is such a normal 64-bit id. */
  lemma WidenIsMeantIff(xid: Xid, next: FullXid)
    requires Context(next) && xid >= FIRST_NORMAL
    ensures Window(next, Widen(xid, next)) && Widen(xid, next) % TWO32 == xid <==>
            FIRST_NORMAL <= Meant(xid, next) < TWO64
  {
    MeantIsUnique(xid, next);
    if Meant(xid, next) < TWO64 {
      WidenNormal(xid, next);
    } else {
      assert Widen(xid, next) == Meant(xid, next) - TWO64;
    }
  }

  /** Abbreviating and widening again gives the id back, for every normal id near
      `next`. */
  lemma WidenInverts(f: FullXid, next: FullXid)
    requires Context(next) && f >= FIRST_NORMAL && f % TWO32 >= FIRST_NORMAL && Window(next, f)
    ensures Widen(f % TWO32, next) == f
  {
    MeantIsUnique(f % TWO32, next);
    WidenNormal(f % TWO32, next);
  }

  /** A stale cache widens like a fresh one, while the id is near both. */
  lemma StaleCacheAgrees(f: FullXid, stale: FullXid, latest: FullXid)
    requires Context(stale) && Context(latest) && f >= FIRST_NORMAL && f % TWO32 >= FIRST_NORMAL
    requires Window(stale, f) && Window(latest, f)
    ensures Widen(f % TWO32, stale) == Widen(f % TWO32, latest)
  {
    WidenInverts(f, stale);
    WidenInverts(f, latest);
  }

  /** Among ids that are not clamped, widening orders by signed distance. */
  lemma WidenOrders(x: Xid, y: Xid, next: FullXid)
    requires Context(next) && x >= FIRST_NORMAL && y >= FIRST_NORMAL
    requires FIRST_NORMAL <= Meant(x, next) < TWO64 && FIRST_NORMAL <= Meant(y, next) < TWO64
    ensures Widen(x, next) < Widen(y, next) <==> Distance(next % TWO32, x) > Distance(next % TWO32, y)
  {
    WidenNormal(x, next);
    WidenNormal(y, next);
  }

  /** `fxid_in_cached_range`. */
  predicate InCachedRange(f: FullXid, oldest: FullXid, next: FullXid) { oldest <= f < next }

  /** Whether an xid is reported as in range is whether the id it abbreviates is,
      for any id near `next` and any oldest id within the window. */
  lemma RangeTestIsExact(f: FullXid, oldest: FullXid, next: FullXid)
    requires Context(next) && f >= FIRST_NORMAL && f % TWO32 >= FIRST_NORMAL && Window(next, f)
    requires oldest >= FIRST_NORMAL && oldest % TWO32 >= FIRST_NORMAL && Window(next, oldest)
    ensures InCachedRange(Widen(f % TWO32, next), Widen(oldest % TWO32, next), next) <==> oldest <= f < next
  {
    WidenInverts(f, next);
    WidenInverts(oldest, next);
  }
}
