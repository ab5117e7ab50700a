/** Small vocabulary shared by every module. */
module Common {
  /** The source's INVALID sentinel is modelled by None. */
  datatype Option<+T> = None | Some(value: T)

  /**
   A page address inside one bank, split as the macros of ftl.c split it: the block
   part (x / PAGES_PER_BLK) and the page part (x % PAGES_PER_BLK).  Data lpns, log
   lpns and isolation lpns are all addresses of this form.
   */
  datatype Addr = Addr(blk: nat, off: nat)

  lemma {:induction false} SubsetSize<T>(s: set<T>, t: set<T>)
    requires s <= t
    ensures |s| <= |t|
  {
    if s != {} {
      var x :| x in s;
      SubsetSize(s - {x}, t - {x});
    }
  }

  lemma MulOrder(a: int, b: int, n: nat)
    ensures a < b ==> a * n + n <= b * n
    ensures a <= b ==> a * n <= b * n
  {
    if a < b {
      assert (a + 1) * n <= b * n;
    }
  }

  lemma ModNext(x: int, n: nat)
    requires 0 < n
    ensures (x % n + 1) % n == (x + 1) % n
  {
    var q, m := x / n, x % n;
    assert x == q * n + m;
    if m + 1 < n {
      ModIs(x + 1, q, m + 1, n);
      ModIs(m + 1, 0, m + 1, n);
    } else {
      assert x + 1 == (q + 1) * n;
      ModIs(x + 1, q + 1, 0, n);
      ModIs(m + 1, 1, 0, n);
    }
  }

  lemma ModIs(x: int, q: int, m: nat, n: nat)
    requires x == q * n + m && m < n
    ensures x % n == m
  {
    assert x == x / n * n + x % n;
    MulOrder(q, x / n, n);
    MulOrder(x / n, q, n);
  }

  /** Quotients and remainders, such as the page of a sector and its place there. */
  function Quot(x: nat, n: nat): nat
    requires 0 < n
  {
    x / n
  }

  function Rem(x: nat, n: nat): (r: nat)
    requires 0 < n
    ensures r < n
  {
    x % n
  }

  lemma Split(x: nat, n: nat)
    requires 0 < n
    ensures x == Quot(x, n) * n + Rem(x, n)
  {
  }
}
