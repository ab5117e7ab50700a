/** Which lpns go to the SW log block of a FASTer bank (ftl_faster/ftl.c), and what a sequential stream comes to. */
module FasterStream {
  import opened Common
  import opened FasterState
  import opened FasterSteps
  import opened FasterGc
  import opened FasterControl
  import opened FasterRuns

  // ----- what goes to the SW log block -----

  /** The lpn that went to the SW log block last, while the block still serves its data block. */
  ghost function SwLast(g: Geo, no: nat, ls: seq<Addr>): Option<Addr>
    requires GeoOk(g)
  {
    if ls == [] || WritesCtl(g, no, Fresh(g), ls).1.swLbn.None? then None
    else
      var pre, l := ls[..|ls| - 1], ls[|ls| - 1];
      if ToRw(g, WritesCtl(g, no, Fresh(g), pre).1, l) then SwLast(g, no, pre) else Some(l)
  }

  /** A write leaves the SW log block where its lpn took it, or the block has been merged. */
  lemma SwLeft(g: Geo, no: nat, c: Ctl, l: Addr)
    requires GeoOk(g) && WriteCtl(g, no, c, l).0 == Fine
    ensures var d := WriteCtl(g, no, c, l).1;
            || (d.swLbn.None? && d.swOff == -1)
            || (d.swLbn == (if ToRw(g, c, l) then c.swLbn else Some(l.blk))
                && d.swOff == if ToRw(g, c, l) then c.swOff else l.off)
  {
    hide PrepareCtl, AfterCtl, ToRw, Collects;
    var c1 := c.(tune := c.tune.(writes := c.tune.writes + 1));
    SameKind(g, c, c1.tune, l);
    SwPrepared(g, c1, l);
    var d := PrepareCtl(g, c1, l).1;
    var x := if ToRw(g, c, l) then d.rw else Addr(SW_LOG_LBN, l.off);
    SwMergedOrNot(g, no, d.(hm := d.hm[l := x]), ToRw(g, c, l), Collects(g, c, l));
  }

  lemma SwPrepared(g: Geo, c: Ctl, l: Addr)
    requires GeoOk(g) && PrepareCtl(g, c, l).0 == Fine
    ensures var d := PrepareCtl(g, c, l).1;
            if ToRw(g, c, l) then d.swLbn == c.swLbn && d.swOff == c.swOff
            else d.swLbn == Some(l.blk) && d.swOff == l.off
  {
    hide AssignCtl, SwMergedCtl, SwCopied;
  }

  lemma SwMergedOrNot(g: Geo, no: nat, c: Ctl, rw: bool, gc: bool)
    requires GeoOk(g)
    ensures var d := AfterCtl(g, no, c, rw, gc).1;
            (d.swLbn.None? && d.swOff == -1) || (d.swLbn == c.swLbn && d.swOff == c.swOff)
  {
    hide Keep, NextLive, Owner, Tuned;
  }

  /** The SW log block serves the data block of that lpn, up to its page. */
  lemma {:induction false} SwLastIs(g: Geo, no: nat, ls: seq<Addr>)
    requires GeoOk(g) && WritesCtl(g, no, Fresh(g), ls).0 == Fine
    ensures var c, x := WritesCtl(g, no, Fresh(g), ls).1, SwLast(g, no, ls);
            if x.None? then c.swLbn.None? && c.swOff == -1 else c.swLbn == Some(x.value.blk) && c.swOff == x.value.off
  {
    if ls != [] {
      var n := |ls| - 1;
      SwLastIs(g, no, ls[..n]);
      SwLeft(g, no, WritesCtl(g, no, Fresh(g), ls[..n]).1, ls[n]);
      hide WriteCtl;
    }
  }

  /**
   After any run of writes from format on: an lpn of the data block that the SW log block serves goes there if
   and only if it is the one behind the lpn that went there last; another one if and only if it is found to
   continue a sequence.
   */
  lemma GoesToSw(g: Geo, no: nat, ls: seq<Addr>, l: Addr)
    requires GeoOk(g) && WritesCtl(g, no, Fresh(g), ls).0 == Fine
    ensures var x := SwLast(g, no, ls);
            !ToRw(g, WritesCtl(g, no, Fresh(g), ls).1, l) <==>
              if x.Some? && x.value.blk == l.blk then l.off == x.value.off + 1
              else Chain(g, Looks(g, no, ls + [l])) > COR_REF_THRESHOLD + 1
  {
    hide WritesCtl, SwLast, Looks, Chain, Noted;
    var c, x := WritesCtl(g, no, Fresh(g), ls).1, SwLast(g, no, ls);
    SwLastIs(g, no, ls);
    CorrOfRun(g, no, ls);
    LooksOn(g, no, ls, l);
    LooksSize(g, no, ls);
    var xs, y := Looks(g, no, ls), Look(l, c.swLbn, c.swOff);
    if x.None? || x.value.blk != l.blk {
      assert xs == [] ==> (xs + [y])[0] == y;
      assert xs != [] ==> (xs + [y])[0] == xs[0];
      DetectMeans(g, xs, y);
    }
  }

  lemma LooksSize(g: Geo, no: nat, ls: seq<Addr>)
    requires GeoOk(g)
    ensures |Looks(g, no, ls)| == |ls|
  {
  }

  // ----- a sequential stream -----

  /** Page n of the stream that begins with data block b. */
  function StreamPage(g: Geo, b: nat, n: nat): Addr {
    if n == 0 then Addr(b, 0) else Succ(g, StreamPage(g, b, n - 1))
  }

  /** Its first n pages. */
  function Stream(g: Geo, b: nat, n: nat): (r: seq<Addr>)
    ensures |r| == n && forall i :: 0 <= i < n ==> r[i] == StreamPage(g, b, i)
  {
    if n == 0 then [] else Stream(g, b, n - 1) + [StreamPage(g, b, n - 1)]
  }

  /** They are the pages of the data blocks, one block after the other. */
  lemma {:induction false} StreamPageIs(g: Geo, b: nat, n: nat)
    requires 0 < g.P
    ensures StreamPage(g, b, n) == Addr(b + n / g.P, n % g.P)
  {
    if n > 0 {
      StreamPageIs(g, b, n - 1);
      var q, m := Quot(n - 1, g.P), Rem(n - 1, g.P);
      Split(n - 1, g.P);
      assert n == q * g.P + m + 1;
      assert (q + 1) * g.P == q * g.P + g.P;
      if m + 1 < g.P {
        QuotIs(n, q, m + 1, g.P);
      } else {
        QuotIs(n, q + 1, 0, g.P);
      }
    } else {
      QuotIs(0, 0, 0, g.P);
    }
  }

  lemma QuotIs(x: nat, q: nat, m: nat, n: nat)
    requires x == q * n + m && m < n
    ensures x / n == q && x % n == m
  {
    assert x == x / n * n + x % n;
    MulOrder(q, x / n, n);
    MulOrder(x / n, q, n);
  }

  /** The first n pages of data block b are pages 0 to n - 1 of log block k. */
  function Rowed(b: nat, k: nat, n: nat): map<Addr, Addr> {
    map o: nat | 0 <= o < n :: Addr(b, o) := Addr(k, o)
  }

  /** Nothing has been collected or merged, and the RW log holds n pages. */
  predicate Plain(g: Geo, c: Ctl, n: nat)
    requires 0 < g.P
  {
    && c.iv.None? && c.isolFree == g.ISOL && c.rwFree + 1 == g.K
    && c.rw == if n == 0 then Addr(0, g.P - 1) else Addr(1, n - 1)
  }

  /** The first pages go to the RW log, until there are enough of them. */
  predicate Beginning(g: Geo, c: Ctl, b: nat, n: nat)
    requires 0 < g.P
  {
    && Plain(g, c, n) && c.swLbn.None? && c.swOff == -1 && c.hm == Rowed(b, 1, n)
    && c.corr == if n == 0 then Corr(None, 0xABABABAB) else Corr(Some(Addr(b, n - 1)), n)
  }

  /** From then on page l is the next one for the SW log block. */
  predicate Streaming(g: Geo, c: Ctl, l: Addr)
    requires 0 < g.P
  {
    && Plain(g, c, COR_REF_THRESHOLD + 1) && l.off < g.P
    && c.corr.cnt == COR_REF_THRESHOLD + 1 && c.corr.ref.Some? && Succ(g, c.corr.ref.value) == l
    && c.hm == Rowed(l.blk, SW_LOG_LBN, l.off)
    && (if l.off == 0 then c.swLbn.None? && c.swOff == -1 else c.swLbn == Some(l.blk) && c.swOff + 1 == l.off)
  }

  lemma StreamStart(g: Geo, b: nat)
    requires GeoOk(g)
    ensures Beginning(g, Fresh(g), b, 0)
  {
  }

  lemma BeginOne(g: Geo, no: nat, c: Ctl, b: nat, n: nat)
    requires GeoOk(g) && Beginning(g, c, b, n) && n <= COR_REF_THRESHOLD
    ensures WriteCtl(g, no, c, Addr(b, n)).0 == Fine && Beginning(g, WriteCtl(g, no, c, Addr(b, n)).1, b, n + 1)
  {
    hide Turn, CollectOutcome, CollectedCtl, Keep, SwCopied, Rowed;
    RowedMore(b, 1, n);
  }

  lemma RowedMore(b: nat, k: nat, n: nat)
    ensures Rowed(b, k, n + 1) == Rowed(b, k, n)[Addr(b, n) := Addr(k, n)]
  {
  }

  /** Pages of the block that are copied to the SW log block leave their old places. */
  lemma RowedCopied(b: nat, k: nat, n: nat)
    ensures SwCopied(Rowed(b, k, n), b, n) == Rowed(b, SW_LOG_LBN, n)
  {
  }

  lemma DetectOne(g: Geo, no: nat, c: Ctl, b: nat)
    requires GeoOk(g) && Beginning(g, c, b, COR_REF_THRESHOLD + 1)
    ensures var l := Addr(b, COR_REF_THRESHOLD + 1);
            WriteCtl(g, no, c, l).0 == Fine && Streaming(g, WriteCtl(g, no, c, l).1, Succ(g, l))
  {
    hide Turn, CollectOutcome, CollectedCtl, Keep, SwCopied, Rowed;
    RowedCopied(b, 1, COR_REF_THRESHOLD + 1);
    RowedMore(b, SW_LOG_LBN, COR_REF_THRESHOLD + 1);
  }

  /** The SW log block has been filled: no entry of the data block is left. */
  lemma RowedGone(b: nat, n: nat, s: int)
    ensures Keep(Rowed(b, SW_LOG_LBN, n), b, s, n) == map[]
    ensures Rowed(b, SW_LOG_LBN, 0) == map[]
  {
  }

  lemma StreamOne(g: Geo, no: nat, c: Ctl, l: Addr)
    requires GeoOk(g) && Streaming(g, c, l)
    ensures WriteCtl(g, no, c, l).0 == Fine && Streaming(g, WriteCtl(g, no, c, l).1, Succ(g, l))
  {
    hide Turn, CollectOutcome, CollectedCtl, Keep, SwCopied, Rowed;
    RowedCopied(l.blk, SW_LOG_LBN, l.off);
    RowedMore(l.blk, SW_LOG_LBN, l.off);
    if l.off + 1 == g.P {
      RowedGone(l.blk, g.P, g.P);
      RowedGone(l.blk + 1, 0, 0);
    }
  }

  /**
   A sequential stream from format on, of any length: it never fails, the RW log takes its first five pages
   and no others, and nothing is collected.  From the sixth page on, the pages of the block that the
   stream is in are those of the SW log block, and no page of any other block is in the log.
   */
  lemma {:induction false} SequentialStream(g: Geo, no: nat, b: nat, n: nat)
    requires GeoOk(g)
    ensures var c, l := WritesCtl(g, no, Fresh(g), Stream(g, b, n)).1, StreamPage(g, b, n);
            && WritesCtl(g, no, Fresh(g), Stream(g, b, n)).0 == Fine
            && c.isolFree == g.ISOL
            && if n <= 5 then
                 c.rw == (if n == 0 then Addr(0, g.P - 1) else Addr(1, n - 1))
                 && c.hm == Rowed(b, 1, n)
               else c.rw == Addr(1, 4) && c.hm == Rowed(l.blk, SW_LOG_LBN, l.off)
  {
    hide WritesCtl, Stream, StreamPage, Rowed;
    StreamState(g, no, b, n);
  }

  lemma {:induction false} StreamState(g: Geo, no: nat, b: nat, n: nat)
    requires GeoOk(g)
    ensures var (r, c) := WritesCtl(g, no, Fresh(g), Stream(g, b, n));
            && r == Fine
            && if n <= 5 then Beginning(g, c, b, n) && StreamPage(g, b, n) == Addr(b, n)
               else Streaming(g, c, StreamPage(g, b, n))
  {
    hide WriteCtl, Beginning, Streaming, Fresh;
    if n == 0 {
      StreamStart(g, b);
    } else {
      StreamState(g, no, b, n - 1);
      var ls, c := Stream(g, b, n - 1), WritesCtl(g, no, Fresh(g), Stream(g, b, n - 1)).1;
      assert Stream(g, b, n)[..n - 1] == ls;
      if n <= 5 {
        BeginOne(g, no, c, b, n - 1);
      } else if n == 6 {
        DetectOne(g, no, c, b);
      } else {
        StreamOne(g, no, c, StreamPage(g, b, n - 1));
      }
    }
  }
}
