/** How page writes that go to the banks in turn use up the pages of the banks (ftl_tutorial/ftl.c). */
module BankTurns {
  import opened Common
  import opened Striping

  // ----- turns -----

  /** How many of m pages in a row go to bank b of NB, the first of them to bank t. */
  function Turns(NB: nat, t: nat, m: nat, b: nat): nat
    requires 0 < NB
  {
    if m == 0 then 0 else Turns(NB, t, m - 1, b) + (if BankOf(NB, t + m - 1) == b then 1 else 0)
  }

  /** In the first round bank b has its turn when as many pages have been written as it is behind bank t. */
  lemma {:induction false} FirstRound(NB: nat, t: nat, m: nat, b: nat)
    requires t < NB && b < NB && m <= NB
    ensures Turns(NB, t, m, b) == if (if t <= b then b - t else b - t + NB) < m then 1 else 0
  {
    if m > 0 {
      FirstRound(NB, t, m - 1, b);
      OnceRound(NB, t + m - 1);
      hide BankOf;
    }
  }

  lemma OnceRound(NB: nat, x: nat)
    requires x < 2 * NB
    ensures BankOf(NB, x) == if x < NB then x else x - NB
  {
    if x < NB { ModIs(x, 0, x, NB); } else { ModIs(x, 1, x - NB, NB); }
  }

  /** Every NB pages in a row, one goes to each bank. */
  lemma {:induction false} RoundMore(NB: nat, t: nat, m: nat, b: nat)
    requires t < NB && b < NB
    ensures Turns(NB, t, m + NB, b) == Turns(NB, t, m, b) + 1
  {
    if m == 0 {
      FirstRound(NB, t, NB, b);
    } else {
      RoundMore(NB, t, m - 1, b);
      RemMore(t + m - 1, NB);
      assert BankOf(NB, t + (m + NB) - 1) == BankOf(NB, t + m - 1);
    }
  }

  lemma RemMore(x: nat, n: nat)
    requires 0 < n
    ensures (x + n) % n == x % n
  {
    assert (x / n + 1) * n == x / n * n + n;
    ModIs(x + n, x / n + 1, x % n, n);
  }

  /** So r rounds go r times to each bank. */
  lemma {:induction false} Rounds(NB: nat, t: nat, r: nat, b: nat)
    requires t < NB && b < NB
    ensures Turns(NB, t, NB * r, b) == r
  {
    hide BankOf;
    if r > 0 {
      Rounds(NB, t, r - 1, b);
      RoundMore(NB, t, NB * (r - 1), b);
      OneTime(NB, r);
    }
  }

  lemma OneTime(n: nat, r: nat)
    requires 0 < r
    ensures n * r == n * (r - 1) + n
  {
  }

  lemma {:induction false} TurnsGrow(NB: nat, t: nat, m: nat, n: nat, b: nat)
    requires 0 < NB && m <= n
    ensures Turns(NB, t, m, b) <= Turns(NB, t, n, b)
  {
    if m < n { TurnsGrow(NB, t, m, n - 1, b); }
  }

  /** The pages after the first m are counted from the bank whose turn it is then. */
  lemma {:induction false} TurnsJoin(NB: nat, t: nat, m: nat, u: nat, k: nat, b: nat)
    requires 0 < NB && u == BankOf(NB, t + m)
    ensures Turns(NB, t, m + k, b) == Turns(NB, t, m, b) + Turns(NB, u, k, b)
  {
    hide BankOf;
    if k > 0 {
      TurnsJoin(NB, t, m, u, k - 1, b);
      RemSum(t + m, k - 1, NB);
    }
  }

  lemma RemSum(x: nat, k: nat, n: nat)
    requires 0 < n
    ensures BankOf(n, BankOf(n, x) + k) == BankOf(n, x + k)
  {
    var q, r := (x % n + k) / n, (x % n + k) % n;
    assert x + k == x / n * n + (q * n + r) == (x / n + q) * n + r;
    ModIs(x + k, x / n + q, r, n);
  }

  // ----- what the banks have left -----

  /** The banks, with left[b] pages each, have the pages for m page writes from bank t on. */
  ghost predicate Takes(left: seq<nat>, t: nat, m: nat) {
    forall b {:trigger left[b]} :: 0 <= b < |left| ==> Turns(|left|, t, m, b) <= left[b]
  }

  /** m page writes from bank t on have been made, one page each, and it is the turn of bank u. */
  ghost predicate Wrote(left: seq<nat>, t: nat, left': seq<nat>, u: nat, m: nat) {
    && 0 < |left| == |left'| && u == BankOf(|left|, t + m)
    && forall b {:trigger left[b]} {:trigger left'[b]} :: 0 <= b < |left| ==>
      left'[b] + Turns(|left|, t, m, b) == left[b]
  }

  /**
   So have they when pages have been written and, if full, the bank whose turn it was then had no page; if not,
   it still is its turn.
   */
  ghost predicate Spent(left: seq<nat>, t: nat, left': seq<nat>, t': nat, pages: nat, full: bool) {
    && 0 < |left|
    && var u := BankOf(|left|, t + pages);
    && Wrote(left, t, left', u, pages) && if full then left'[u] == 0 else t' == u
  }

  lemma SpentNone(left: seq<nat>, t: nat)
    requires t < |left|
    ensures Spent(left, t, left, t, 0, false)
  {
    WroteNone(left, t);
  }

  lemma SpentMore(left: seq<nat>, t: nat, left': seq<nat>, t': nat, m: nat, left'': seq<nat>, t'': nat, k: nat,
      full: bool)
    requires Spent(left, t, left', t', m, false) && Spent(left', t', left'', t'', k, full)
    ensures Spent(left, t, left'', t'', m + k, full)
  {
    WroteMore(left, t, left', t', m, left'', BankOf(|left|, t' + k), k);
  }

  /** What has been written could be written, and when the flash is full not a page more. */
  lemma SpentTakes(left: seq<nat>, t: nat, left': seq<nat>, t': nat, m: nat, full: bool, n: nat)
    requires Spent(left, t, left', t', m, full)
    ensures n <= m ==> Takes(left, t, n)
    ensures full && m < n ==> !Takes(left, t, n)
  {
    TakesWrote(left, t, left', BankOf(|left|, t + m), m, n);
  }

  lemma WroteBank(left: seq<nat>, t: nat, left': seq<nat>, u: nat, m: nat)
    requires Wrote(left, t, left', u, m)
    ensures |left'| == |left| && u == BankOf(|left|, t + m) < |left|
  {
  }

  lemma WroteNone(left: seq<nat>, t: nat)
    requires t < |left|
    ensures Wrote(left, t, left, t, 0)
  {
    OnceRound(|left|, t);
    forall b | 0 <= b < |left| ensures left[b] + Turns(|left|, t, 0, b) == left[b] {}
  }

  /** One page more, from the bank whose turn it is. */
  lemma WroteOne(left: seq<nat>, t: nat)
    requires t < |left| && 0 < left[t]
    ensures Wrote(left, t, left[t := left[t] - 1], BankOf(|left|, t + 1), 1)
  {
    forall b | 0 <= b < |left| ensures Turns(|left|, t, 1, b) == if b == t then 1 else 0 {
      FirstRound(|left|, t, 1, b);
    }
  }

  lemma WroteMore(left: seq<nat>, t: nat, left': seq<nat>, u: nat, m: nat, left'': seq<nat>, v: nat, k: nat)
    requires Wrote(left, t, left', u, m) && Wrote(left', u, left'', v, k)
    ensures Wrote(left, t, left'', v, m + k)
  {
    hide BankOf, Turns;
    var NB := |left|;
    RemSum(t + m, k, NB);
    forall b | 0 <= b < NB ensures left''[b] + Turns(NB, t, m + k, b) == left[b] {
      TurnsJoin(NB, t, m, u, k, b);
      assert left'[b] + Turns(NB, t, m, b) == left[b] && left''[b] + Turns(NB, u, k, b) == left'[b];
    }
  }

  /**
   Page writes that have been made could be made; and when the bank whose turn it is has no page left, not
   one more, nor any larger number.
   */
  lemma TakesWrote(left: seq<nat>, t: nat, left': seq<nat>, u: nat, m: nat, n: nat)
    requires Wrote(left, t, left', u, m)
    ensures n <= m ==> Takes(left, t, n)
    ensures left'[u] == 0 && m < n ==> !Takes(left, t, n)
  {
    var NB := |left|;
    if n <= m {
      forall b | 0 <= b < NB ensures Turns(NB, t, n, b) <= left[b] {
        TurnsGrow(NB, t, n, m, b);
      }
    } else if left'[u] == 0 {
      assert Turns(NB, t, m + 1, u) == left[u] + 1;
      TurnsGrow(NB, t, m + 1, n, u);
    }
  }

  /** NB banks with r pages each take NB * r page writes, wherever they begin, and no more. */
  lemma Capacity(left: seq<nat>, t: nat, r: nat, m: nat)
    requires t < |left| && forall b {:trigger left[b]} :: 0 <= b < |left| ==> left[b] == r
    ensures Takes(left, t, m) <==> m <= |left| * r
  {
    var NB := |left|;
    if m <= NB * r {
      forall b | 0 <= b < NB ensures Turns(NB, t, m, b) <= left[b] {
        Rounds(NB, t, r, b);
        TurnsGrow(NB, t, m, NB * r, b);
      }
    } else {
      var u := BankOf(NB, t + NB * r);
      Rounds(NB, t, r, u);
      TurnsGrow(NB, t, NB * r + 1, m, u);
      assert left[u] == r;
    }
  }

  // ----- the pages of one bank -----

  /** The rows below end, from row on, that lie in no bad vblock. */
  function Usable(bad: set<nat>, PV: nat, row: nat, end: nat): nat
    requires 0 < PV
    decreases end - row
  {
    if end <= row then 0 else (if Quot(row, PV) in bad then 0 else 1) + Usable(bad, PV, row + 1, end)
  }

  /** Rows in bad vblocks do not count. */
  lemma {:induction false} UsableSkip(bad: set<nat>, PV: nat, row: nat, next: nat, end: nat)
    requires 0 < PV && row <= next <= end && forall i {:trigger Quot(i, PV)} :: row <= i < next ==> Quot(i, PV) in bad
    ensures Usable(bad, PV, row, end) == Usable(bad, PV, next, end)
    decreases next - row
  {
    if row < next { UsableSkip(bad, PV, row + 1, next, end); }
  }

  lemma {:induction false} UsableSome(bad: set<nat>, PV: nat, row: nat, i: nat, end: nat)
    requires 0 < PV && row <= i < end && Quot(i, PV) !in bad
    ensures 0 < Usable(bad, PV, row, end)
    decreases i - row
  {
    if row < i { UsableSome(bad, PV, row + 1, i, end); }
  }

  /** Without bad vblocks all rows count. */
  lemma {:induction false} UsableAll(bad: set<nat>, PV: nat, row: nat, end: nat)
    requires 0 < PV && row <= end && forall i {:trigger Quot(i, PV)} :: row <= i < end ==> Quot(i, PV) !in bad
    ensures Usable(bad, PV, row, end) == end - row
    decreases end - row
  {
    if row < end { UsableAll(bad, PV, row + 1, end); }
  }
}
