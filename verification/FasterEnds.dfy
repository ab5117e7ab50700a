/** Formatted banks that come to the limits: what their methods return, one page after the other being written. */
module FasterEnds {
  import opened Common
  import opened StaticHashTable
  import opened BlockMaps
  import opened FasterState
  import opened FasterControl
  import opened FasterRuns
  import opened FasterBank
  import opened FasterFtl
  import opened FasterRows
  import opened FasterLaps
  import opened FasterBrink
  import opened FasterLimits
  import opened FasterStream

  // ----- the lpns of the runs are those of the first D data blocks -----

  predicate Within(g: Geo, D: nat, ls: seq<Addr>) {
    forall i :: 0 <= i < |ls| ==> ls[i].blk < D && ls[i].off < g.P
  }

  lemma RoundWithin(g: Geo, D: nat, w: seq<Addr>)
    requires GeoOk(g) && Within(g, D, w) && 0 < D
    ensures Within(g, D, RoundRun(g, w))
  {
  }

  lemma {:induction false} RoundsWithin(g: Geo, D: nat, n: nat)
    requires GeoOk(g) && 4 <= D
    ensures Within(g, D, Rounds(g, n))
  {
    if n > 0 {
      RoundsWithin(g, D, n - 1);
      RoundWithin(g, D, Content(g));
    }
  }

  lemma {:induction false} XsWithin(g: Geo, b: nat)
    requires GeoOk(g) && b <= g.K
    ensures Within(g, 2 * g.K, Xs(g, b))
    decreases g.K - b
  {
    if b < g.K {
      XsWithin(g, b + 1);
      assert Within(g, 2 * g.K, [Own(g.P, b, 0)] + Rep(g.P - 2));
    }
  }

  lemma {:induction false} WsWithin(g: Geo, b: nat)
    requires GeoOk(g) && b <= g.K
    ensures Within(g, 2 * g.K, Ws(g, b))
    decreases g.K - b
  {
    if b < g.K {
      WsWithin(g, b + 1);
      assert Within(g, 2 * g.K, Owns(g.P, b, 1, g.P - 2));
    }
  }

  lemma {:induction false} SinglesWithin(g: Geo, b: nat, n: nat)
    requires GeoOk(g) && b + n <= g.K
    ensures Within(g, 2 * g.K, Singles(g, b, n))
  {
    if n > 0 { SinglesWithin(g, b, n - 1); }
  }

  lemma LongWithin(g: Geo, no: nat, start: seq<Addr>, m: nat)
    requires GeoOk(g) && m + 4 <= g.K && Within(g, 2 * g.K, start)
    ensures Within(g, 2 * g.K, LongRun(g, no, start, m))
  {
    hide Xs, Ws, Singles, Rounds, Content, Enough, LapPages;
    var e := g.K - m;
    RoundsWithin(g, 2 * g.K, g.ISOL - 5);
    ContentEven(g);
    ContentWithin(g);
    XsWithin(g, e);
    WsWithin(g, e);
    SinglesWithin(g, e, m);
    assert Within(g, 2 * g.K, LastRound(g, e)) && Within(g, 2 * g.K, EndRun(g, e)) && Within(g, 2 * g.K, LastRun(g, m));
    assert Within(g, 2 * g.K, DescentRun(g, m));
  }

  lemma ContentWithin(g: Geo)
    requires GeoOk(g)
    ensures Within(g, 4, Content(g))
  {
  }

  lemma StartsWithin(g: Geo, no: nat)
    requires GeoOk(g)
    ensures Within(g, 4, OverrunStart(g)) && Within(g, 4, ReserveStart(g)) && Within(g, 4, StuckRun(g, no))
  {
    hide Content, RoundRun, Own;
    ContentWithin(g);
    RoundWithin(g, 4, Content(g));
    OwnsWithin(g);
    RoundWithin(g, 4, StuckContent(g));
  }

  lemma OwnsWithin(g: Geo)
    requires GeoOk(g)
    ensures Within(g, 4, StuckContent(g)) && Within(g, 4, SeqRun(g))
  {
  }

  // ----- the ends -----

  /** The good blocks of a bank, in ascending order, as many as its sizes say. */
  ghost predicate Formattable(g: Geo, V: nat, good: seq<nat>) {
    && GeoOk(g) && V < NO_BLOCK && |good| == g.D + FREE_BLK_PER_BANK + g.ISOL + g.K
    && (forall i :: 0 <= i < |good| ==> 0 < good[i] < V) && Ascending(good)
  }

  method StuckBank(g: Geo, no: nat, V: nat, good: seq<nat>, hash: HashFn, buckets: nat) returns (r: Outcome)
    requires Formattable(g, V, good) && 0 < buckets && 4 <= g.K && 4 <= g.D
    ensures r == AssertFails
  {
    hide RoundRun;
    StartsWithin(g, no);
    ghost var n := StuckReached(g, no);
    var b;
    r, b := FormatAndWrite(g, no, V, good, hash, buckets, StuckRun(g, no));
  }

  method ReserveBank(g: Geo, no: nat, V: nat, good: seq<nat>, hash: HashFn, buckets: nat) returns (r: Outcome)
    requires Formattable(g, V, good) && 0 < buckets && 5 <= g.K && 2 * g.K <= g.D
    ensures r == AssertFails
  {
    hide LongRun, ReserveStart;
    StartsWithin(g, no);
    LongWithin(g, no, ReserveStart(g), 1);
    ReserveRunsOut(g, no);
    var b;
    r, b := FormatAndWrite(g, no, V, good, hash, buckets, LongRun(g, no, ReserveStart(g), 1));
  }

  method OverrunBank(g: Geo, no: nat, V: nat, good: seq<nat>, hash: HashFn, buckets: nat) returns (r: Outcome)
    requires Formattable(g, V, good) && 0 < buckets && g.P + 4 <= g.K && 2 * g.K <= g.D
    ensures r == Overrun
  {
    hide LongRun, OverrunStart;
    StartsWithin(g, no);
    LongWithin(g, no, OverrunStart(g), g.P);
    OverrunReached(g, no);
    var b;
    r, b := FormatAndWrite(g, no, V, good, hash, buckets, LongRun(g, no, OverrunStart(g), g.P));
  }

  /**
   A formatted bank to which k whole data blocks are written in order: all of it goes well, no page of the isolation
   area and five pages of the RW log have been used, and the log holds nothing any more.
   */
  method StreamBank(g: Geo, no: nat, V: nat, good: seq<nat>, hash: HashFn, buckets: nat, b: nat, k: nat)
    returns (r: Outcome, bank: Bank)
    requires Formattable(g, V, good) && 0 < buckets && b + k <= g.D && 0 < k
    ensures r == Fine && bank.Valid() && bank.g == g && bank.tbl.m == map[]
    ensures bank.misc.rw == Addr(1, 4) && bank.misc.isolFree == g.ISOL
  {
    hide Bank.Valid, WritesCtl, Stream, StreamPage, Rowed;
    StreamWithin(g, b, k);
    RowedGone(b + k, 0, 0);
    SequentialStream(g, no, b, k * g.P);
    r, bank := FormatAndWrite(g, no, V, good, hash, buckets, Stream(g, b, k * g.P));
  }

  /** The pages of k data blocks, and the one behind them. */
  lemma StreamWithin(g: Geo, b: nat, k: nat)
    requires GeoOk(g) && b + k <= g.D && 0 < k
    ensures Within(g, g.D, Stream(g, b, k * g.P)) && 5 < k * g.P && StreamPage(g, b, k * g.P) == Addr(b + k, 0)
  {
    hide StreamPage;
    MulOrder(1, k, g.P);
    StreamPageIs(g, b, k * g.P);
    QuotIs(k * g.P, k, 0, g.P);
    forall i | 0 <= i < k * g.P ensures StreamPage(g, b, i).blk < g.D && StreamPage(g, b, i).off < g.P {
      PageWithin(g, b, k, i);
    }
    hide GeoOk;
  }

  lemma PageWithin(g: Geo, b: nat, k: nat, i: nat)
    requires 0 < g.P && i < k * g.P
    ensures StreamPage(g, b, i).blk < b + k && StreamPage(g, b, i).off < g.P
  {
    hide StreamPage;
    StreamPageIs(g, b, i);
    Split(i, g.P);
    MulOrder(k, Quot(i, g.P), g.P);
  }
}
