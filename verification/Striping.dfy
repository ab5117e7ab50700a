/** How host sectors are spread over banks, data blocks, pages and sectors (the macros of ftl_faster/ftl.c). */
module Striping {
  import opened Common

  lemma DivMod(a: nat, n: nat, r: nat)
    requires r < n
    ensures (a * n + r) / n == a && (a * n + r) % n == r
  {
    var x := a * n + r;
    assert x == x / n * n + x % n;
    MulOrder(a, x / n, n);
    MulOrder(x / n, a, n);
  }

  /** get_num_bank, get_data_lbn and get_data_offset. */
  function BankOf(NB: nat, lpn: nat): (r: nat)
    requires 0 < NB
    ensures r < NB
  {
    lpn % NB
  }

  function AddrOf(NB: nat, P: nat, lpn: nat): Addr
    requires 0 < NB && 0 < P
  {
    Addr(lpn / NB / P, lpn / NB % P)
  }

  /** get_data_lpn. */
  function LpnOf(NB: nat, P: nat, bank: nat, l: Addr): nat {
    (l.blk * P + l.off) * NB + bank
  }

  /** Splitting an lpn and putting it together again are inverse. */
  lemma LpnRoundTrip(NB: nat, P: nat, lpn: nat)
    requires 0 < NB && 0 < P
    ensures LpnOf(NB, P, BankOf(NB, lpn), AddrOf(NB, P, lpn)) == lpn
    ensures BankOf(NB, lpn) < NB && AddrOf(NB, P, lpn).off < P
  {
    var k := lpn / NB;
    assert k / P * P + k % P == k;
    assert k * NB + lpn % NB == lpn;
  }

  lemma AddrRoundTrip(NB: nat, P: nat, bank: nat, l: Addr)
    requires bank < NB && l.off < P
    ensures BankOf(NB, LpnOf(NB, P, bank, l)) == bank && AddrOf(NB, P, LpnOf(NB, P, bank, l)) == l
    ensures BankOf(NB, (l.blk * P + l.off) * NB + bank) == bank && AddrOf(NB, P, (l.blk * P + l.off) * NB + bank) == l
  {
    DivMod(l.blk * P + l.off, NB, bank);
    DivMod(l.blk, P, l.off);
  }

  /** get_next_data_lpn is the next page of the same data block, or the first of the next one. */
  lemma NextDataLpn(NB: nat, P: nat, lpn: nat)
    requires 0 < NB && 0 < P
    ensures var l := AddrOf(NB, P, lpn);
            && BankOf(NB, lpn + NB) == BankOf(NB, lpn)
            && AddrOf(NB, P, lpn + NB) == if l.off + 1 < P then Addr(l.blk, l.off + 1) else Addr(l.blk + 1, 0)
  {
    LpnRoundTrip(NB, P, lpn);
    var l := AddrOf(NB, P, lpn);
    var n := if l.off + 1 < P then Addr(l.blk, l.off + 1) else Addr(l.blk + 1, 0);
    assert n.blk * P + n.off == l.blk * P + l.off + 1 by {
      assert (l.blk + 1) * P == l.blk * P + P;
    }
    assert LpnOf(NB, P, BankOf(NB, lpn), n) == lpn + NB by {
      assert (l.blk * P + l.off + 1) * NB == (l.blk * P + l.off) * NB + NB;
    }
    AddrRoundTrip(NB, P, BankOf(NB, lpn), n);
  }

  /** The sector of the whole device that is sector s of page l of a bank. */
  function LbaOf(NB: nat, P: nat, S: nat, bank: nat, l: Addr, s: nat): nat {
    LpnOf(NB, P, bank, l) * S + s
  }

  /** The pages of all banks below D blocks cover the sectors below NB * D * P * S, each once. */
  function Sectors(NB: nat, D: nat, P: nat, S: nat): nat {
    D * P * NB * S
  }

  lemma LbaBound(NB: nat, D: nat, P: nat, S: nat, bank: nat, l: Addr, s: nat)
    requires bank < NB && l.blk < D && l.off < P && s < S
    ensures LbaOf(NB, P, S, bank, l, s) < Sectors(NB, D, P, S)
  {
    Below(l.blk, D, P, l.off);
    Below(l.blk * P + l.off, D * P, NB, bank);
    Below(LpnOf(NB, P, bank, l), D * P * NB, S, s);
  }

  lemma Below(a: nat, A: nat, n: nat, r: nat)
    requires a < A && r < n
    ensures a * n + r < A * n
  {
    MulOrder(a, A, n);
  }

  lemma LbaInside(NB: nat, D: nat, P: nat, S: nat, lba: nat)
    requires 0 < NB && 0 < P && 0 < S && lba < Sectors(NB, D, P, S)
    ensures lba / S < D * P * NB && AddrOf(NB, P, lba / S).blk < D
  {
    LessDiv(lba, D * P * NB, S);
    LessDiv(lba / S, D * P, NB);
    LessDiv(lba / S / NB, D, P);
  }

  lemma LessDiv(x: nat, a: nat, n: nat)
    requires 0 < n && x < a * n
    ensures x / n < a
  {
    MulOrder(a, x / n, n);
    assert x / n * n <= x;
  }

  // ----- sectors and pages -----

  /** The sector that is sector s of page lpn, and the page and offset of a sector. */
  function SectorOf(S: nat, lpn: nat, s: nat): nat {
    lpn * S + s
  }

  function PageIn(S: nat, lba: nat): nat
    requires 0 < S
  {
    lba / S
  }

  function OffsetIn(S: nat, lba: nat): nat
    requires 0 < S
  {
    lba % S
  }

  lemma SectorParts(S: nat, lba: nat)
    requires 0 < S
    ensures SectorOf(S, PageIn(S, lba), OffsetIn(S, lba)) == lba && OffsetIn(S, lba) < S
  {
  }

  lemma SectorMeans(S: nat, lpn: nat, s: nat)
    requires s < S
    ensures PageIn(S, SectorOf(S, lpn, s)) == lpn
  {
    DivMod(lpn, S, s);
  }

  lemma SectorStep(S: nat, lpn: nat, s: nat)
    ensures SectorOf(S, lpn, s) == SectorOf(S, lpn, 0) + s && SectorOf(S, lpn + 1, 0) == SectorOf(S, lpn, 0) + S
  {
    assert (lpn + 1) * S == lpn * S + S;
  }

  /** The number of pages that n sectors from lba on touch. */
  function PageCount(S: nat, lba: nat, n: nat): nat
    requires 0 < S
  {
    if n == 0 then 0 else PageIn(S, OffsetIn(S, lba) + n - 1) + 1
  }

  /** Where the pages of a transfer end. */
  lemma LastPage(S: nat, lba: nat, n: nat, lpn: nat, off: nat, done: nat, k: nat)
    requires 0 < S && off < S && 0 < k && off + k <= S && done + k == n && SectorOf(S, lpn, off) == lba + done
    ensures lpn + 1 == PageIn(S, lba) + PageCount(S, lba, n)
  {
    var q, t := lba / S, off + k - 1;
    assert lba == q * S + lba % S;
    assert q * S + (lba % S + n - 1) == lpn * S + t;
    MulOrder(lpn, q, S);
    assert (lpn - q) * S == lpn * S - q * S;
    DivMod(lpn - q, S, t);
  }

  /** Before the end there are fewer. */
  lemma PageBefore(S: nat, lba: nat, n: nat, lpn: nat, off: nat, done: nat)
    requires 0 < S && off < S && done < n && SectorOf(S, lpn, off) == lba + done
    ensures PageIn(S, lba) <= lpn < PageIn(S, lba) + PageCount(S, lba, n)
  {
    var q, x, r := lba / S, lba % S + n - 1, lba % S;
    assert lba == q * S + r && x == x / S * S + x % S;
    MulOrder(lpn, q, S);
    MulOrder(q + x / S, lpn, S);
    assert (q + x / S) * S == q * S + x / S * S;
  }

  lemma DivAtLeast(x: nat, n: nat, q: nat)
    requires 0 < n
    ensures q <= x / n <==> q * n <= x
  {
    assert x == x / n * n + x % n;
    MulOrder(q, x / n, n);
    MulOrder(x / n, q, n);
  }

  /** The pages of a transfer are those that have a sector of it. */
  lemma PagesTouched(S: nat, lba: nat, n: nat, lpn: nat)
    requires 0 < S
    ensures PageIn(S, lba) <= lpn < PageIn(S, lba) + PageCount(S, lba, n) <==>
              0 < n && lpn * S < lba + n && lba < lpn * S + S
  {
    if n > 0 {
      var last := lba + n - 1;
      LastOf(S, lba, n);
      DivAtLeast(last, S, lpn);
      DivAtLeast(lba, S, lpn + 1);
      assert (lpn + 1) * S == lpn * S + S;
    }
  }

  lemma LastOf(S: nat, lba: nat, n: nat)
    requires 0 < S && 0 < n
    ensures PageIn(S, lba) + PageCount(S, lba, n) == (lba + n - 1) / S + 1
  {
    SumDiv(lba / S, lba % S + n - 1, S, lba + n - 1);
  }

  lemma SumDiv(q: nat, x: nat, n: nat, y: nat)
    requires 0 < n && y == q * n + x
    ensures y / n == q + x / n
  {
    var p := x / n;
    DivAtLeast(x, n, p);
    DivAtLeast(x, n, p + 1);
    assert (q + p) * n == q * n + p * n && (q + (p + 1)) * n == q * n + (p + 1) * n;
    DivAtLeast(y, n, q + p);
    DivAtLeast(y, n, q + p + 1);
  }

  // ----- pages of a bank by number -----

  /** The number of page lpn among those of its bank, and the page with that number. */
  function LocalOf(NB: nat, lpn: nat): nat
    requires 0 < NB
  {
    lpn / NB
  }

  function LpnAt(NB: nat, bank: nat, l: nat): nat { l * NB + bank }

  lemma LocalRoundTrip(NB: nat, bank: nat, l: nat)
    requires bank < NB
    ensures BankOf(NB, LpnAt(NB, bank, l)) == bank && LocalOf(NB, LpnAt(NB, bank, l)) == l
  {
    DivMod(l, NB, bank);
  }

  lemma LpnParts(NB: nat, lpn: nat)
    requires 0 < NB
    ensures BankOf(NB, lpn) < NB && LpnAt(NB, BankOf(NB, lpn), LocalOf(NB, lpn)) == lpn
  {
  }

  lemma LpnInside(NB: nat, N: nat, S: nat, lpn: nat, lba: nat)
    requires 0 < NB && SectorOf(S, lpn, 0) <= lba < N * NB * S
    ensures LocalOf(NB, lpn) < N
  {
    MulOrder(N * NB, lpn, S);
    LessDiv(lpn, N, NB);
  }
}
