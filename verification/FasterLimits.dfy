/**
 Runs of page writes from format on that come to the limits of ftl_faster/ftl.c: a collection that programs over
 pages in use, one that fails though two isolation blocks are free, and a victim pointer that gets stuck.
 */
module FasterLimits {
  import opened Common
  import opened FasterState
  import opened FasterSteps
  import opened FasterGc
  import opened FasterControl
  import opened FasterRuns
  import opened FasterRows
  import opened FasterLaps
  import opened FasterBrink

  // ----- over the brink -----

  /** The isolation write pointer, from the end of block i on, after n pages; and the free isolation blocks. */
  function IcOver(g: Geo, i: nat, n: nat): Addr
    requires 2 <= g.P
  {
    if n == 0 then Addr(i, g.P - 2) else if n < g.P then Addr(i + 1, n - 1) else Addr(i + 2, n - g.P)
  }

  function FreeOver(g: Geo, n: nat): nat { if n == 0 then 3 else if n < g.P then 2 else 1 }

  /** Block b is collected: its cold page goes to the isolation area, and is written again. */
  lemma Single(g: Geo, no: nat, s: Board, b: nat) returns (q: Board)
    requires GeoOk(g) && Sound(g, no, s) && Mine(s.rows) && |s.rows| == g.K && 2 <= b < g.K && s.idle != b
    requires s.c.rw == Addr(b - 1, g.P - 2) && s.c.rwFree == 1 && s.rows[b] == Mixed(g, b) && Away(g, s.c.ic)
    requires RoomOutcome(g, Needed(g, IsolSucc(g, s.c.ic).off, 1), s.c.isolFree, s.c.iv) == Fine
    ensures Sound(g, no, q) && Mine(q.rows) && q.ls == s.ls + [Own(g.P, b, 0)] && SameUpTo(s.rows, q.rows, b)
    ensures forall i :: b < i < g.K ==> q.rows[i] == s.rows[i]
    ensures q.c.rw == Addr(b, g.P - 2) && q.c.rwFree == 1 && q.idle == s.idle && q.c.iv == s.c.iv
    ensures q.c.ic == IcPos(g, s.c.ic, 1)
    ensures q.c.isolFree == FreeAfter(g, IsolSucc(g, s.c.ic).off, s.c.isolFree, 1)
  {
    hide Sound, Calm, Due, Tuned, AllRows, Turn, IcPos, FreeAfter, FirstAfter, Mine, Own;
    SoundParts(g, no, s);
    var l, f := Own(g.P, b, 0), Owns(g.P, b, 0, g.P - 1);
    assert Moving(g, Mixed(g, b)) == 1 && Rest(g, Mixed(g, b)) == Line(f[1..], g.P - 2);
    var rs := s.rows[b := Line(f[1..], g.P - 2)];
    RestUnused(g, s.rows, b);
    OwnPlain(g, s, b);
    TurnPlain(g, Asked(g, s.c, l), s.rows);
    q := Collect(g, no, s, l, b, s.rows, 0);
    MineKept(g, s.rows, b);
  }

  lemma OwnPlain(g: Geo, s: Board, b: nat)
    requires GeoOk(g) && 1 <= b
    ensures Plain(g, s.c, Own(g.P, b, 0)) && Own(g.P, b, 0) != IDLE
  {
  }

  lemma RestUnused(g: Geo, rows: seq<Line>, b: nat)
    requires GeoOk(g) && Mine(rows) && 1 <= b < |rows|
    ensures Unused(rows[b := Line(Owns(g.P, b, 0, g.P - 1)[1..], g.P - 2)], Own(g.P, b, 0))
  {
    var f := Owns(g.P, b, 0, g.P - 1);
    forall c, k | 1 <= c < |rows| && c != b && 0 <= k < |rows[c].f| ensures rows[c].f[k] != Own(g.P, b, 0) {
      assert OwnedBy(c, rows[c].f[k]);
    }
    forall k | 0 <= k < |f| - 1 ensures f[1..][k] != Own(g.P, b, 0) { assert f[1..][k] == Own(g.P, b, k + 1); }
  }

  lemma MineKept(g: Geo, rows: seq<Line>, b: nat)
    requires GeoOk(g) && Mine(rows) && 1 <= b < |rows|
    ensures Mine(rows[b := With(Line(Owns(g.P, b, 0, g.P - 1)[1..], g.P - 2), Own(g.P, b, 0))])
  {
  }

  /** The writes that collect the last blocks from b on, n of them. */
  function Singles(g: Geo, b: nat, n: nat): seq<Addr> {
    if n == 0 then [] else Singles(g, b, n - 1) + [Own(g.P, b + n - 1, 0)]
  }

  /** After n of them. */
  ghost predicate Over(g: Geo, no: nat, s: Board, m: nat, i: nat, n: nat) {
    && GeoOk(g) && n <= m && m + 4 <= g.K == |s.rows| && Sound(g, no, s) && Mine(s.rows)
    && s.rows[1] == Cold(Content(g)) && AllMixed(g, s.rows, g.K - m + n, g.K) && s.c.rwFree == 1
    && s.c.rw == Addr(g.K - m + n - 1, g.P - 2) && s.idle < g.K - m && s.idle != 1
    && s.c.ic == Some(IcOver(g, i, n)) && s.c.isolFree == FreeOver(g, n)
  }

  lemma {:induction false} SinglesOn(g: Geo, no: nat, s: Board, m: nat, i: nat, n: nat) returns (q: Board)
    requires Brink(g, no, s, m) && AtEdge(g, s, i, 3) && n <= m && 1 <= i
    requires if n <= 1 then i + 1 < g.ISOL else n <= g.P && i + 2 < g.ISOL && s.c.iv.None?
    ensures Over(g, no, q, m, i, n) && q.ls == s.ls + Singles(g, g.K - m, n) && q.c.iv == s.c.iv
  {
    hide Sound, Mine, Content;
    if n == 0 {
      q := s;
      assert s.ls + [] == s.ls;
    } else {
      var p := SinglesOn(g, no, s, m, i, n - 1);
      q := Single(g, no, p, g.K - m + n - 1);
      assert p.ls + [Own(g.P, g.K - m + n - 1, 0)] == s.ls + Singles(g, g.K - m, n);
    }
  }

  /** The next write turns to the first block, all of whose pages are cold. */
  lemma LastNeeds(g: Geo, no: nat, s: Board, m: nat, i: nat)
    requires Over(g, no, s, m, i, m) && IsolSucc(g, s.c.ic).off == 1
    ensures var d := Turn(g, Asked(g, s.c, IDLE));
            NeededNow(g, d) == 2 && WriteCtl(g, no, s.c, IDLE).0 == RoomOutcome(g, 2, s.c.isolFree, s.c.iv)
  {
    hide Sound, Mine, Content, AllRows, Turn, NeededNow, WriteCtl, CollectedCtl, CollectOutcome;
    SoundParts(g, no, s);
    ContentLong(g);
    TurnPlain(g, Asked(g, s.c, IDLE), s.rows);
    Collected(g, Asked(g, s.c, IDLE), s.rows);
    GcWrite(g, no, s.c, IDLE);
  }

  lemma ContentLong(g: Geo)
    requires 4 <= g.P
    ensures |Content(g)| + 1 == g.P && !Warm(g, Cold(Content(g))) && Moving(g, Cold(Content(g))) == g.P - 1
  {
  }
  // ----- the counters of a run -----

  lemma PrepareTune(g: Geo, c: Ctl, l: Addr)
    requires GeoOk(g)
    ensures PrepareCtl(g, c, l).1.tune == c.tune
  {
    hide Turn, CollectOutcome, CollectedCtl, Keep, SwCopied;
    TurnParts(g, c.(rwFree := 0, corr := Decide(g, c.corr, c.swLbn, c.swOff, l).1));
    OpenParts(g, Turn(g, c.(rwFree := 0, corr := Decide(g, c.corr, c.swLbn, c.swOff, l).1)));
  }

  lemma AfterTune(g: Geo, no: nat, c: Ctl, rw: bool, gc: bool)
    requires GeoOk(g)
    ensures var t := AfterCtl(g, no, c, rw, gc).1.tune;
            t.trigger <= c.tune.trigger + 1 &&
            (c.tune.base <= g.P ==> t.base <= g.P && (t.interval <= c.tune.interval + 1 || t.interval <= g.P))
  {
    hide Keep, NextLive, Owner;
  }

  lemma WriteTune(g: Geo, no: nat, c: Ctl, l: Addr)
    requires GeoOk(g) && WriteCtl(g, no, c, l).0 == Fine
    ensures var t := WriteCtl(g, no, c, l).1.tune;
            t.trigger <= c.tune.trigger + 1 &&
            (c.tune.base <= g.P ==> t.base <= g.P && (t.interval <= c.tune.interval + 1 || t.interval <= g.P))
  {
    hide PrepareCtl, AfterCtl;
    var c1 := c.(tune := c.tune.(writes := c.tune.writes + 1));
    PrepareTune(g, c1, l);
    var d := PrepareCtl(g, c1, l).1;
    AfterTune(g, no, d.(hm := d.hm[l := if ToRw(g, c, l) then d.rw else Addr(SW_LOG_LBN, l.off)]), ToRw(g, c, l),
      Collects(g, c, l));
  }

  /** The interval between merges, and the writes counted towards one, are bounded by the number of writes. */
  lemma {:induction false} TuneBound(g: Geo, no: nat, ls: seq<Addr>)
    requires GeoOk(g) && WritesCtl(g, no, Fresh(g), ls).0 == Fine
    ensures var t := WritesCtl(g, no, Fresh(g), ls).1.tune;
            t.trigger <= |ls| && t.base <= g.P && t.interval <= g.P + |ls|
  {
    hide WriteCtl;
    if ls != [] {
      var pre := ls[..|ls| - 1];
      TuneBound(g, no, pre);
      WriteTune(g, no, WritesCtl(g, no, Fresh(g), pre).1, ls[|ls| - 1]);
    }
  }
  // ----- the first rounds -----

  lemma FirstPages(g: Geo, no: nat, s: Board, w: seq<Addr>)
    requires Sound(g, no, s) && 2 <= |s.rows| == g.K && s.rows[1] == Cold(w) && s.idle != 1
    ensures forall l :: l in PagesOf(s.c.hm, 1, |w|) ==> l in w
    ensures forall o :: 0 <= o < |w| ==> w[o] in PagesOf(s.c.hm, 1, |w|) && PagesOf(s.c.hm, 1, |w|)[w[o]] == o
  {
    assert RowIs(g, s.c.hm, s.c.sc, 1, s.rows[1]);
  }

  /**
   The first block is filled with the lpns of w, they go to the first isolation block, and others come in
   their place.
   */
  lemma TwoRounds(g: Geo, no: nat, w: seq<Addr>) returns (s: Board)
    requires GeoOk(g) && 4 <= g.K && |w| + 1 == g.P && forall i :: 0 <= i < |w| ==> w[i] != IDLE && w[i].off < g.P
    requires forall i :: 0 <= i < |w| ==> w[i].off % 2 == 0
    requires forall i, j :: 0 <= i < j < |w| ==> w[i] != w[j]
    ensures Sound(g, no, s) && Ended(g, s) && s.rows == Deads(g.K)[1 := Cold(Content(g))] && AtEdge(g, s, 0, g.ISOL)
    ensures s.c.iv.None? && s.c.swLbn.None? && Calm(no, s, 0) && s.ls == RoundRun(g, w) + RoundRun(g, Content(g))
    ensures forall l :: l in s.first ==> l in w && l !in Content(g)
    ensures forall o :: 0 <= o < |w| && w[o] !in Content(g) ==> w[o] in s.first && s.first[w[o]] == o
  {
    hide Sound, Calm, RoundRun, Content;
    var p := Formatted(g, no);
    assert p.rows[1 := DEAD] == p.rows && p.first - (set l | l in w) == map[];
    s := Round(g, no, p, w, 0);
    assert FirstThen(s) == PagesOf(s.c.hm, 1, |w|);
    FirstPages(g, no, s, w);
    ContentFresh(g, s);
    s := Round(g, no, s, Content(g), 0);
  }

  /** The pages of the first block go to the isolation area, and no content comes in their place. */
  lemma Clear(g: Geo, no: nat, s: Board, i: nat, f: nat) returns (q: Board)
    requires GeoOk(g) && Ended(g, s) && Sound(g, no, s) && |s.rows[1].f| + 1 == g.P && s.rows[1] == Cold(s.rows[1].f)
    requires AtEdge(g, s, i, f) && i + 2 < g.ISOL && g.ISOL - 2 <= f - 1 && Calm(no, s, 0)
    ensures Sound(g, no, q) && Quiet(g, q) && Empty(g, q) && Moved(g, s, q) && !q.c.tune.inc && q.first == s.first
    ensures q.ls == s.ls + [IDLE] && q.c.rw == Addr(1, 0)
  {
    hide Sound;
    SoundParts(g, no, s);
    q := Burst(g, no, s, s.rows[1].f, IDLE, 0);
    assert FirstMoved(s, s.rows[1].f) == s.first;
    assert s.first - {IDLE} == s.first;
  }
  // ----- merges are put off -----

  /** As many laps let the interval between merges grow beyond L writes, after a writes. */
  function Enough(g: Geo, no: nat, a: nat, L: nat): nat { (a + L + 2) * (Period(g) + 1) + 8 * (g.P + a + no) + 8 }

  /** The last n writes of these laps will do, up to 4 * (g.P + a + no) + 4 having gone before. */
  lemma PutOff(g: Geo, no: nat, s: Board, n: nat, a: nat, L: nat) returns (q: Board)
    requires Sound(g, no, s) && Quiet(g, s) && Empty(g, s) && s.c.isolFree == g.ISOL - 1 && 8 <= g.ISOL && !s.c.tune.inc
    requires s.c.tune.trigger <= a && Enough(g, no, a, L) <= n + 8 * (g.P + a + no) + 7
    ensures Sound(g, no, q) && Quiet(g, q) && Empty(g, q) && Same(s, q) && q.first == s.first
    ensures q.ls == s.ls + Rep(n) && q.c.rw == Spin(g, s.c.rw, n) && Calm(no, q, |q.ls| + L)
  {
    hide Sound, Gauge, Period;
    q := Grow(g, no, s, n);
    assert (a + L + 2) * (Period(g) + 1) == (a + L) * (Period(g) + 1) + 2 * (Period(g) + 1);
    GaugeMeans(g, q.c.tune, a + L);
  }

  /** Back at the end of a lap. */
  lemma LapEnded(g: Geo, s: Board)
    requires Quiet(g, s) && Empty(g, s) && 4 <= g.K && s.c.rw == Addr(g.K - 1, g.P - 2) && Edge(g, s.c)
    ensures Ended(g, s)
  {
  }

  // ----- a page that is not erased is programmed -----

  function OverrunStart(g: Geo): seq<Addr>
    requires GeoOk(g)
  {
    RoundRun(g, Content(g)) + RoundRun(g, Content(g))
  }

  /** The last blocks from the brink on are collected one after the other, and then the first one. */
  function LastRun(g: Geo, m: nat): seq<Addr>
    requires m <= g.K
  {
    Singles(g, g.K - m, m) + [IDLE]
  }

  /**
   The run: start is followed by laps in which nothing but IDLE is written, the descent, and what happens
   behind the brink.
   */
  function LongRun(g: Geo, no: nat, start: seq<Addr>, m: nat): seq<Addr>
    requires GeoOk(g) && m + 4 <= g.K
  {
    start + Rep(LapPages(g, Enough(g, no, |start| + 1, |DescentRun(g, m)|))) + DescentRun(g, m) + LastRun(g, m)
  }

  lemma ContentEven(g: Geo)
    requires GeoOk(g)
    ensures |Content(g)| + 1 == g.P
    ensures forall i :: 0 <= i < |Content(g)| ==>
              Content(g)[i] != IDLE && Content(g)[i].off < g.P && Content(g)[i].off % 2 == 0
    ensures forall i, j :: 0 <= i < j < |Content(g)| ==> Content(g)[i] != Content(g)[j]
  {
    assert g.P == 2 * (64 * (g.P / 128));
  }

  /** Merges being far off, the bank is at the end of a lap, two isolation blocks being full. */
  lemma OverrunStarted(g: Geo, no: nat, L: nat) returns (s: Board)
    requires GeoOk(g) && 4 <= g.K
    ensures Sound(g, no, s) && Ended(g, s) && Empty(g, s) && AtEdge(g, s, 1, g.ISOL - 1) && s.c.iv.None?
    ensures Calm(no, s, |s.ls| + L)
    ensures s.ls == OverrunStart(g) + Rep(LapPages(g, Enough(g, no, |OverrunStart(g)| + 1, L)))
  {
    hide Sound, Calm, RoundRun, Content, Enough;
    ContentEven(g);
    s := TwoRounds(g, no, Content(g));
    s := Clear(g, no, s, 0, g.ISOL);
    var a, x := |OverrunStart(g)| + 1, Addr(g.K - 1, g.P - 2);
    var n := LapPages(g, Enough(g, no, a, L));
    assert 0 < Enough(g, no, a, L) by { EnoughIs(g, no, a, L); }
    CountersSmall(g, no, s);
    s := PutOff(g, no, s, n - 1, a, L);
    SpinBlock(g, x, 1);
    SpinSum(g, x, 1, n - 1);
    SpinLaps(g, Enough(g, no, a, L));
    RepSum(1, n - 1);
    assert OverrunStart(g) + [IDLE] + Rep(n - 1) == OverrunStart(g) + ([IDLE] + Rep(n - 1));
    LapEnded(g, s);
  }

  lemma EnoughIs(g: Geo, no: nat, a: nat, L: nat)
    ensures 8 * (g.P + a + no) + 8 <= Enough(g, no, a, L)
  {
  }

  lemma CountersSmall(g: Geo, no: nat, s: Board)
    requires Sound(g, no, s)
    ensures s.c.tune.trigger <= |s.ls| && s.c.tune.interval <= g.P + |s.ls|
  {
    TuneBound(g, no, s.ls);
  }

  /**
   From format on the last of these writes needs two isolation blocks when one is left, and no ASSERT notices: no victim
   page has been merged, as the writes before it all collect.
   */
  lemma OverrunReached(g: Geo, no: nat)
    requires GeoOk(g) && g.P + 4 <= g.K
    ensures WritesCtl(g, no, Fresh(g), LongRun(g, no, OverrunStart(g), g.P)).0 == Overrun
  {
    hide Sound, Calm, WritesCtl, WriteCtl, Turn, NeededNow, Brink, DescentRun, OverrunStart, Singles, Enough;
    var s := OverrunStarted(g, no, |DescentRun(g, g.P)|);
    s := Descend(g, no, s, g.P, 1);
    s := SinglesOn(g, no, s, g.P, g.ISOL - 3, g.P);
    LastNeeds(g, no, s, g.P, g.ISOL - 3);
    OverLs(g, no, s, g.P, g.ISOL - 3);
    OneMore(g, no, Fresh(g), s.ls, IDLE);
    assert s.ls + [IDLE] == LongRun(g, no, OverrunStart(g), g.P);
  }

  lemma OverLs(g: Geo, no: nat, s: Board, m: nat, i: nat)
    requires Over(g, no, s, m, i, m)
    ensures WritesCtl(g, no, Fresh(g), s.ls) == (Fine, s.c)
  {
  }
  // ----- a merge becomes due -----

  /** The counting writes made, twice, less one at the end of a block, which the next write does not count. */
  function Ticks(g: Geo, s: Board): int { 2 * s.c.tune.trigger - (if s.c.rw.off + 2 == g.P then 1 else 0) }

  /** A merge becomes due after a while, twice the counting writes being no more than M. */
  ghost predicate Waits(g: Geo, no: nat, s: Board, M: nat) {
    && Sound(g, no, s) && Quiet(g, s) && Empty(g, s) && s.c.isolFree + 2 == g.ISOL && 8 <= g.ISOL && !s.c.tune.inc
    && 2 * s.c.tune.trigger <= M && 4 * (s.c.tune.interval + no) <= M
  }

  lemma OneTick(g: Geo, no: nat, s: Board, M: nat) returns (q: Board)
    requires Waits(g, no, s, M) && (RwFull(g, s.c) || !Due(no, s.c.tune))
    ensures Waits(g, no, q, M) && Same(s, q) && q.ls == s.ls + [IDLE] && q.first == s.first &&
            q.c.rw == Spin(g, s.c.rw, 1)
    ensures q.c.tune.interval == s.c.tune.interval && Ticks(g, s) < Ticks(g, q)
  {
    hide Sound;
    q := IdleOne(g, no, s);
    StillEmpty(g, no, s, q);
    assert Spin(g, s.c.rw, 0) == s.c.rw;
  }

  lemma {:induction false} UntilDue(g: Geo, no: nat, s: Board, M: nat) returns (q: Board, n: nat)
    requires Waits(g, no, s, M)
    ensures Waits(g, no, q, M) && Same(s, q) && !RwFull(g, q.c) && Due(no, q.c.tune) && q.first == s.first
    ensures q.ls == s.ls + Rep(n) && q.c.rw == Spin(g, s.c.rw, n) && q.c.tune.interval == s.c.tune.interval
    ensures n + Ticks(g, s) <= M
    decreases M - Ticks(g, s)
  {
    hide Waits, Sound;
    WaitsParts(g, no, s, M);
    if !RwFull(g, s.c) && Due(no, s.c.tune) {
      q, n := s, 0;
      assert s.ls + Rep(0) == s.ls;
    } else {
      var p := OneTick(g, no, s, M);
      WaitsParts(g, no, p, M);
      var m;
      q, m := UntilDue(g, no, p, M);
      n := m + 1;
      RepSum(1, m);
      assert s.ls + [IDLE] + Rep(m) == s.ls + ([IDLE] + Rep(m));
      SpinSum(g, s.c.rw, 1, m);
    }
  }

  lemma WaitsParts(g: Geo, no: nat, s: Board, M: nat)
    requires Waits(g, no, s, M)
    ensures Ticks(g, s) <= M && Sound(g, no, s) && Quiet(g, s) && Empty(g, s)
    ensures s.c.isolFree + 2 == g.ISOL && 8 <= g.ISOL && !s.c.tune.inc
  {
  }

  // ----- the reserve is too small -----

  /** The first isolation block, without live pages, is recycled, and the victim pointer is parked behind it. */
  lemma Recycle(g: Geo, no: nat, s: Board, M: nat) returns (q: Board)
    requires Waits(g, no, s, M) && !RwFull(g, s.c) && Due(no, s.c.tune) && s.c.iv.None? && s.first == map[]
    ensures Sound(g, no, q) && Quiet(g, q) && Empty(g, q) && q.c.ic == s.c.ic && q.c.iv == Some(Addr(0, g.P - 1))
    ensures q.c.isolFree + 1 == g.ISOL && !q.c.tune.inc && q.c.tune.trigger == 0 && q.c.swLbn == s.c.swLbn
    ensures q.ls == s.ls + [IDLE] && q.first == map[] && q.c.rw == Spin(g, s.c.rw, 1)
  {
    hide AllRows, WritesCtl, WriteCtl, Live, First;
    SoundParts(g, no, s);
    var x, d := NextRw(g, s.c), Programmed(g, s.c, IDLE);
    assert x == Addr(s.c.rw.blk, s.c.rw.off + 1);
    PlainToRw(g, s.c, IDLE);
    PlainStep(g, no, s.c, IDLE);
    RowsWritten(g, s.c.hm, s.c.sc, s.rows, IDLE, x);
    FirstWritten(g, s.c.hm, s.first, IDLE, x);
    assert s.first - {IDLE} == map[] && s.rows[x.blk := With(s.rows[x.blk], IDLE)] == s.rows;
    DeadVictim(g, d);
    OneMore(g, no, Fresh(g), s.ls, IDLE);
    q := Board(s.ls + [IDLE], WriteCtl(g, no, s.c, IDLE).1, s.rows, x.blk, map[]);
    assert Spin(g, s.c.rw, 0) == s.c.rw;
  }

  lemma DeadVictim(g: Geo, c: Ctl)
    requires GeoOk(g) && First(g, c.hm, map[]) && c.iv.None?
    ensures FullMergeCtl(g, c) == (Fine, c.(iv := Some(Addr(0, g.P - 1)), isolFree := c.isolFree + 1))
  {
    forall o: nat ensures !LiveAt(c.hm, Addr(g.LOG, o)) {}
    NoneLive(g, c.hm, 0, 0);
  }
  function ReserveStart(g: Geo): seq<Addr>
    requires GeoOk(g)
  {
    OverrunStart(g) + RoundRun(g, Content(g))
  }

  /** Three isolation blocks have been filled, and a merge is not due yet. */
  lemma ReserveWaits(g: Geo, no: nat, a: nat) returns (s: Board)
    requires GeoOk(g) && 4 <= g.K && a == |ReserveStart(g)| + 1
    ensures Waits(g, no, s, 4 * (g.P + a + no)) && s.c.ic == Some(Addr(2, g.P - 2)) && s.c.iv.None? && s.first == map[]
    ensures s.ls == ReserveStart(g) + [IDLE] && s.c.rw == Addr(1, 0) && s.c.tune.trigger <= a
  {
    hide Sound, Calm, RoundRun, Content, Empty, Quiet;
    ContentEven(g);
    s := TwoRounds(g, no, Content(g));
    ContentFresh(g, s.(rows := s.rows));
    assert s.first == map[];
    s := Round(g, no, s, Content(g), 0);
    s := Clear(g, no, s, 1, g.ISOL - 1);
    CountersSmall(g, no, s);
  }

  lemma FourParts(g: Geo, x: Addr, k: nat, n: nat, ls: seq<Addr>)
    requires 4 <= g.P && x.off + 2 == g.P && k + 2 <= n
    ensures Spin(g, Spin(g, Spin(g, Addr(RwVictim(g, x), 0), k), 1), n - k - 2) == Spin(g, x, n)
    ensures ls + [IDLE] + Rep(k) + [IDLE] + Rep(n - k - 2) == ls + Rep(n)
  {
    SpinBlock(g, x, 1);
    SpinSum(g, x, 1, k);
    SpinSum(g, x, k + 1, 1);
    SpinSum(g, x, k + 2, n - k - 2);
    RepSum(1, k);
    RepSum(k + 1, 1);
    RepSum(k + 2, n - k - 2);
    assert ls + Rep(1) + Rep(k) + Rep(1) + Rep(n - k - 2) == ls + (Rep(1) + Rep(k) + Rep(1) + Rep(n - k - 2));
  }

  /** The first isolation block, all of it rewritten, has been recycled, and merges have been put off again. */
  lemma ReserveStarted(g: Geo, no: nat, L: nat) returns (s: Board)
    requires GeoOk(g) && 4 <= g.K
    ensures Sound(g, no, s) && Ended(g, s) && Empty(g, s) && AtEdge(g, s, 2, g.ISOL - 1)
    ensures s.c.iv == Some(Addr(0, g.P - 1)) && Calm(no, s, |s.ls| + L)
    ensures s.ls == ReserveStart(g) + Rep(LapPages(g, Enough(g, no, |ReserveStart(g)| + 1, L)))
  {
    hide Sound, Calm, Waits, Enough, ReserveStart;
    var a, x := |ReserveStart(g)| + 1, Addr(g.K - 1, g.P - 2);
    var n, k := LapPages(g, Enough(g, no, a, L)), 0;
    EnoughIs(g, no, a, L);
    s := ReserveWaits(g, no, a);
    WaitsParts(g, no, s, 4 * (g.P + a + no));
    s, k := UntilDue(g, no, s, 4 * (g.P + a + no));
    s := Recycle(g, no, s, 4 * (g.P + a + no));
    s := PutOff(g, no, s, n - k - 2, a, L);
    FourParts(g, x, k, n, ReserveStart(g));
    SpinLaps(g, Enough(g, no, a, L));
    LapEnded(g, s);
  }

  /**
   From format on the last of these writes needs two isolation blocks; two are free, but one of them is the block behind
   which the victim pointer is parked.
   */
  lemma ReserveRunsOut(g: Geo, no: nat)
    requires GeoOk(g) && 5 <= g.K
    ensures var ls := LongRun(g, no, ReserveStart(g), 1);
            && WritesCtl(g, no, Fresh(g), ls).0 == AssertFails
            && var c := WritesCtl(g, no, Fresh(g), ls[..|ls| - 1]).1;
               c.isolFree == RESERV_ISOL_BLK && Parked(g, c.iv) && NeededNow(g, Turn(g, Asked(g, c, IDLE))) == 2
  {
    hide Sound, Calm, WritesCtl, WriteCtl, Turn, NeededNow, Brink, DescentRun, ReserveStart, Enough;
    var s := ReserveStarted(g, no, |DescentRun(g, 1)|);
    s := Descend(g, no, s, 1, 2);
    s := SinglesOn(g, no, s, 1, g.ISOL - 2, 1);
    LastNeeds(g, no, s, 1, g.ISOL - 2);
    OverLs(g, no, s, 1, g.ISOL - 2);
    OneMore(g, no, Fresh(g), s.ls, IDLE);
    var ls := LongRun(g, no, ReserveStart(g), 1);
    assert s.ls + [IDLE] == ls && ls[..|ls| - 1] == s.ls;
  }
  // ----- the victim pointer gets stuck -----

  /** The lpn whose page comes to the end of the first isolation block. */
  function Last(g: Geo): Addr
    requires 2 <= g.P
  {
    Addr(SEQ, g.P - 2)
  }

  /** The last j of the pages before the data block of that lpn, up to five. */
  function Five(g: Geo, j: nat): (r: seq<Addr>)
    requires 6 <= g.P
    ensures |r| == j && forall i :: 0 <= i < j ==> r[i] == Addr(0, g.P - 5 + i)
  {
    if j == 0 then [] else Five(g, j - 1) + [Addr(0, g.P - 6 + j)]
  }

  function StuckContent(g: Geo): seq<Addr>
    requires GeoOk(g)
  {
    Owns(g.P, 1, 0, g.P - 2) + [Last(g)]
  }

  lemma StuckRounds(g: Geo, no: nat) returns (s: Board)
    requires GeoOk(g) && 4 <= g.K
    ensures Sound(g, no, s) && Ended(g, s) && s.rows == Deads(g.K)[1 := Cold(Content(g))] && AtEdge(g, s, 0, g.ISOL)
    ensures s.c.iv.None? && s.c.swLbn.None? && Calm(no, s, 0) && s.first == map[Last(g) := g.P - 2]
    ensures s.ls == RoundRun(g, StuckContent(g)) + RoundRun(g, Content(g))
  {
    hide Sound, Calm, RoundRun;
    ContentEven(g);
    var w := StuckContent(g);
    forall i | 0 <= i < |w|
      ensures w[i] != IDLE && w[i].off < g.P && w[i].off % 2 == 0 && (w[i] in Content(g) <==> i + 2 < g.P) {
      assert i + 2 < g.P ==> w[i] == Content(g)[i];
      EvenNext(g.P, 0);
      assert g.P == 2 * (64 * (g.P / 128));
    }
    s := TwoRounds(g, no, w);
    forall l ensures l in s.first <==> l == Last(g) {
      if l in s.first { assert l in w && l !in Content(g); }
      assert w[g.P - 2] == Last(g);
    }
  }

  /** The first block, with j of the five, behind another page. */
  function FiveRows(g: Geo, j: nat): seq<Line>
    requires GeoOk(g)
  {
    Deads(g.K)[1 := Line([Own(g.P, 1, 0)] + Five(g, j), 0)]
  }

  /** j of the five have been written there. */
  ghost predicate AtFive(g: Geo, no: nat, s: Board, j: nat) {
    && GeoOk(g) && s.rows == FiveRows(g, j) && s.c.rw == Addr(1, j) && Running(g, s.c)
    && s.c.corr == (if j == 0 then Corr(Some(Own(g.P, 1, 0)), 1) else Corr(Some(Addr(0, g.P - 6 + j)), j))
    && g.ISOL - 1 <= s.c.isolFree && s.c.swLbn.None? && s.first == map[Last(g) := g.P - 2] && Calm(no, s, 0)
    && Based(g, no, s)
  }

  lemma FiveFits(g: Geo, j: nat)
    requires GeoOk(g) && 1 <= j <= 5
    ensures var l := Addr(0, g.P - 6 + j);
            && Fits(g, FiveRows(g, j - 1), l, Addr(1, j)) && FiveRows(g, j - 1)[1] == Line(FiveRows(g, j - 1)[1].f, 0)
            && FiveRows(g, j - 1)[1 := With(FiveRows(g, j - 1)[1], l)] == FiveRows(g, j)
            && l != IDLE && l !in map[Last(g) := g.P - 2] && Own(g.P, 1, 0).blk != 0
  {
    var l, f := Addr(0, g.P - 6 + j), [Own(g.P, 1, 0)] + Five(g, j - 1);
    assert f + [l] == [Own(g.P, 1, 0)] + Five(g, j);
  }

  lemma FiveStep(g: Geo, no: nat, s: Board, j: nat) returns (q: Board)
    requires 1 <= j <= 5 && AtFive(g, no, s, j - 1)
    ensures AtFive(g, no, q, j) && Same(s, q) && q.idle == s.idle && q.ls == s.ls + [Addr(0, g.P - 6 + j)]
  {
    hide Calm, WritesCtl, AllRows, First, Tuned, Fits, FiveRows, Own;
    var l := Addr(0, g.P - 6 + j);
    FiveFits(g, j);
    assert map[Last(g) := g.P - 2] - {l} == map[Last(g) := g.P - 2];
    q := FillAny(g, no, s, l, 0);
  }

  /** They go there one after the other, and each is taken to follow the one before. */
  lemma {:induction false} FiveOn(g: Geo, no: nat, s: Board, j: nat) returns (q: Board)
    requires 6 <= g.P && j <= 5 && AtFive(g, no, s, 0)
    ensures AtFive(g, no, q, j) && Same(s, q) && q.idle == s.idle && q.ls == s.ls + Five(g, j)
  {
    hide AtFive;
    if j == 0 {
      q := s;
      assert s.ls + [] == s.ls;
    } else {
      q := FiveOn(g, no, s, j - 1);
      assert q.ls + [Addr(0, g.P - 6 + j)] == s.ls + Five(g, j);
      q := FiveStep(g, no, q, j);
    }
  }

  /** The page behind them is taken for the sixth of a sequence, and is the first page of the SW log block. */
  lemma Detected(g: Geo, no: nat, s: Board) returns (q: Board)
    requires Based(g, no, s) && s.c.corr == Corr(Some(Addr(0, g.P - 1)), 5) && s.c.swLbn.None?
    requires RESERV_ISOL_BLK < s.c.isolFree && Unused(s.rows, Addr(SEQ, 0)) && Addr(SEQ, 0) !in s.first &&
             Calm(no, s, 0)
    ensures Sound(g, no, q) && q.ls == s.ls + [Addr(SEQ, 0)] && q.rows == s.rows && q.idle == s.idle &&
            q.first == s.first
    ensures q.c.swLbn == Some(SEQ) && q.c.swOff == 0 && Calm(no, q, 0)
    ensures q.c == s.c.(hm := q.c.hm, corr := q.c.corr, tune := q.c.tune, swLbn := q.c.swLbn, swOff := q.c.swOff)
  {
    hide WritesCtl, AllRows, First, Tuned, Calm, Turn, AssignCtl, Keep;
    var l := Addr(SEQ, 0);
    assert SwCopied(s.c.hm, SEQ, 0) == s.c.hm;
    var r := WriteCtl(g, no, s.c, l);
    var t := Tuned(g, s.c.tune.(writes := s.c.tune.writes + 1), s.c.isolFree);
    assert r == (Fine, s.c.(hm := s.c.hm[l := Addr(SW_LOG_LBN, 0)], corr := Corr(Some(l), 5), tune := t,
                            swLbn := Some(SEQ), swOff := 0));
    OneMore(g, no, Fresh(g), s.ls, l);
    SwRows(g, s.c.hm, s.c.sc, s.rows, l);
    FirstWritten(g, s.c.hm, s.first, l, Addr(SW_LOG_LBN, 0));
    assert s.first - {l} == s.first;
    q := Board(s.ls + [l], r.1, s.rows, s.idle, s.first);
    CalmOn(g, no, s, q, s.c.tune.(writes := s.c.tune.writes + 1), s.c.isolFree, 0);
  }

  lemma SwRows(g: Geo, hm: map<Addr, Addr>, sc: set<Addr>, rows: seq<Line>, l: Addr)
    requires AllRows(g, hm, sc, rows) && Unused(rows, l)
    ensures AllRows(g, hm[l := Addr(SW_LOG_LBN, 0)], sc, rows)
  {
    hide Live, Bits;
    forall b | 1 <= b < |rows| ensures RowIs(g, hm[l := Addr(SW_LOG_LBN, 0)], sc, b, rows[b]) {
      assert RowIs(g, hm, sc, b, rows[b]);
      LiveWritten(hm, b, rows[b].f, l, Addr(SW_LOG_LBN, 0));
    }
  }
  /** What else goes to the first block. */
  function Others(g: Geo): seq<Addr>
    requires GeoOk(g)
  {
    Owns(g.P, 1, 1, g.P - 7)
  }

  /** All of it. */
  function SeqContent(g: Geo): (r: seq<Addr>)
    requires GeoOk(g)
    ensures |r| + 1 == g.P
  {
    [Own(g.P, 1, 0)] + Five(g, 5) + Others(g)
  }

  /** The writes, with the one that goes to the SW log block among them. */
  function SeqRun(g: Geo): seq<Addr>
    requires GeoOk(g)
  {
    [Own(g.P, 1, 0)] + Five(g, 5) + [Addr(SEQ, 0)] + Others(g)
  }

  lemma SeqFresh(g: Geo, s: Board)
    requires GeoOk(g) && s.rows == FiveRows(g, 5)
    ensures Unused(s.rows, Addr(SEQ, 0)) && Writable(g, s, Others(g)) && |Others(g)| == g.P - 7
    ensures Longer(s.rows, 1, Others(g)) == Deads(g.K)[1 := Line(SeqContent(g), 0)]
  {
    var w := Others(g);
    forall i | 0 <= i < |w| ensures w[i] != IDLE && Plain(g, s.c, w[i]) && Unused(s.rows, w[i]) {
      assert w[i] == Own(g.P, 1, i + 1);
      assert g.P == 2 * (64 * (g.P / 128));
    }
  }

  /** The first block is filled again, and the SW log block comes to serve the data block of Last. */
  lemma SeqFill(g: Geo, no: nat, s: Board) returns (q: Board)
    requires AtFive(g, no, s, 0)
    ensures GeoOk(g) && Sound(g, no, q) && Running(g, q.c) && Calm(no, q, 0) && (s.c.rwFree == 1 ==> q.c.rwFree == 1)
    ensures q.rows == Deads(g.K)[1 := Line(SeqContent(g), 0)] && q.c.rw == Addr(1, g.P - 2) && q.idle == s.idle
    ensures q.ls == s.ls + Five(g, 5) + [Addr(SEQ, 0)] + Others(g) && q.first == s.first
    ensures q.c.swLbn == Some(SEQ) && q.c.swOff == 0 && q.c.ic == s.c.ic && q.c.iv == s.c.iv
    ensures q.c.isolFree == s.c.isolFree
  {
    hide Based, Sound, Calm, Unused;
    var p := FiveOn(g, no, s, 5);
    SeqFresh(g, p);
    assert Addr(SEQ, 0) !in p.first;
    p := Detected(g, no, p);
    SeqFresh(g, p);
    q := FillWith(g, no, p, Others(g), 0);
    forall l | l in Others(g) ensures l != Last(g) {}
    assert p.first - (set l | l in Others(g)) == p.first;
  }
  function StuckStart(g: Geo): seq<Addr>
    requires GeoOk(g)
  {
    RoundRun(g, StuckContent(g)) + RoundRun(g, Content(g)) + SeqRun(g) + Rep(Pages(g, g.K - 2)) + Rep(Pages(g, g.K - 2))
  }

  /** The second block of pages has been moved, and the third content begins. */
  lemma StuckBurst(g: Geo, no: nat) returns (s: Board)
    requires GeoOk(g) && 4 <= g.K
    ensures AtFive(g, no, s, 0) && AtEdge(g, s, 1, g.ISOL - 1) && s.c.iv.None? && s.c.rwFree == 1 && s.idle + 1 == g.K
    ensures s.ls == RoundRun(g, StuckContent(g)) + RoundRun(g, Content(g)) + [Own(g.P, 1, 0)]
  {
    hide Calm, RoundRun, Content, WritesCtl, Tuned, AllRows, First;
    s := StuckRounds(g, no);
    var l := Own(g.P, 1, 0);
    ContentEven(g);
    OwnFirst(g, s, l);
    assert s.first - {l} == s.first && FirstMoved(s, Content(g)) == s.first;
    s := Burst(g, no, s, Content(g), l, 0);
    assert [l] + Five(g, 0) == [l];
  }

  /** It is written, and the bank goes on to where it is collected. */
  lemma StuckHeated(g: Geo, no: nat) returns (s: Board)
    requires GeoOk(g) && 4 <= g.K
    ensures Sound(g, no, s) && Ended(g, s) && s.rows == Deads(g.K)[1 := Cold(SeqContent(g))] && s.ls == StuckStart(g)
    ensures AtEdge(g, s, 1, g.ISOL - 1) && s.c.iv.None? && s.c.swLbn == Some(SEQ) && s.first == map[Last(g) := g.P - 2]
    ensures Calm(no, s, 0)
  {
    hide Calm, RoundRun, Content, Sound, AtFive;
    var l := Own(g.P, 1, 0);
    s := StuckBurst(g, no);
    AtFiveParts(g, no, s);
    s := SeqFill(g, no, s);
    assert RoundRun(g, StuckContent(g)) + RoundRun(g, Content(g)) + [l] + Five(g, 5) + [Addr(SEQ, 0)] + Others(g) ==
           RoundRun(g, StuckContent(g)) + RoundRun(g, Content(g)) + SeqRun(g);
    s := BlocksIdle(g, no, s, 2, g.K, 0);
    s := Pass(g, no, s, g.K, 0);
    assert Deads(g.K)[1 := Line(SeqContent(g), 0)][1 := Cold(SeqContent(g))] == Deads(g.K)[1 := Cold(SeqContent(g))];
  }

  lemma AtFiveParts(g: Geo, no: nat, s: Board)
    requires AtFive(g, no, s, 0)
    ensures s.first == map[Last(g) := g.P - 2]
  {
  }

  lemma OwnFirst(g: Geo, s: Board, l: Addr)
    requires GeoOk(g) && l == Own(g.P, 1, 0) && s.rows == Deads(g.K)[1 := Cold(Content(g))]
    ensures Plain(g, s.c, l) && l != IDLE && Unused(s.rows[1 := DEAD], l) && l != Last(g)
    ensures s.rows[1 := With(DEAD, l)] == Deads(g.K)[1 := Line([l], 0)]
  {
    assert [] + [l] == [l];
    assert s.rows[1 := DEAD] == Deads(g.K);
  }
  /** The full merge turns back: the partial merge it makes first forgets the page of Last. */
  lemma TurnedBack(g: Geo, c: Ctl)
    requires GeoOk(g) && First(g, c.hm, map[Last(g) := g.P - 2]) && c.iv.None? && c.swLbn == Some(SEQ) && c.swOff == 0
    ensures FullMergeCtl(g, c) ==
              (Fine, c.(hm := Keep(c.hm, SEQ, 1, g.P), swOff := -1, swLbn := None, iv := Some(Addr(0, g.P - 2))))
  {
    hide Keep;
    var k := Last(g);
    assert c.hm[k] == Addr(g.LOG, g.P - 2);
    forall o: nat | o + 2 < g.P ensures !LiveAt(c.hm, Addr(g.LOG, o)) {}
    LastLive(g, c.hm, 0);
    assert Owner(c.hm, Addr(g.LOG, g.P - 2)) == Some(k) by { assert LiveAt(c.hm, Addr(g.LOG, g.P - 2)); }
    Forgotten(c.hm, k, g.P);
  }

  lemma Forgotten(hm: map<Addr, Addr>, k: Addr, P: nat)
    requires 1 <= k.off < P
    ensures k !in Keep(hm, k.blk, 1, P)
  {
  }

  /** The search for a live victim page goes on to the last one. */
  lemma {:induction false} LastLive(g: Geo, hm: map<Addr, Addr>, o: nat)
    requires o + 2 <= g.P && forall q: nat :: q + 2 < g.P ==> !LiveAt(hm, Addr(g.LOG, q))
    ensures NextLive(g, hm, 0, o) + 2 == g.P
    decreases g.P - o
  {
    if o + 2 < g.P { LastLive(g, hm, o + 1); }
  }

  lemma EmptyRows(g: Geo, hm: map<Addr, Addr>, sc: set<Addr>, rows: seq<Line>, L: nat)
    requires AllRows(g, hm, sc, rows) && AllDead(rows, 1, |rows|)
    ensures AllRows(g, Keep(hm, L, 1, g.P), sc, rows)
  {
    forall b | 1 <= b < |rows| ensures RowIs(g, Keep(hm, L, 1, g.P), sc, b, rows[b]) {
      assert RowIs(g, hm, sc, b, rows[b]);
    }
  }

  lemma FirstForgotten(g: Geo, hm: map<Addr, Addr>)
    requires GeoOk(g) && First(g, hm, map[Last(g) := g.P - 2])
    ensures First(g, Keep(hm, SEQ, 1, g.P), map[])
    ensures IDLE in Keep(hm, SEQ, 1, g.P) ==> IDLE in hm && Keep(hm, SEQ, 1, g.P)[IDLE] == hm[IDLE]
  {
  }

  /** The merge that becomes due leaves the victim pointer stuck. */
  lemma TurnBack(g: Geo, no: nat, s: Board, M: nat) returns (q: Board)
    requires Waits(g, no, s, M) && !RwFull(g, s.c) && Due(no, s.c.tune) && s.c.iv.None? && s.c.swLbn == Some(SEQ)
    requires s.first == map[Last(g) := g.P - 2]
    ensures Waits(g, no, q, M) && q.ls == s.ls + [IDLE] && Stuck(g, q.c.iv) && q.c.tune.trigger == 0
  {
    hide AllRows, WritesCtl, WriteCtl, Live, First, Keep;
    SoundParts(g, no, s);
    var x, d := NextRw(g, s.c), Programmed(g, s.c, IDLE);
    PlainToRw(g, s.c, IDLE);
    PlainStep(g, no, s.c, IDLE);
    RowsWritten(g, s.c.hm, s.c.sc, s.rows, IDLE, x);
    FirstWritten(g, s.c.hm, s.first, IDLE, x);
    assert s.first - {IDLE} == s.first && s.rows[x.blk := With(s.rows[x.blk], IDLE)] == s.rows;
    TurnedBack(g, d);
    EmptyRows(g, d.hm, d.sc, s.rows, SEQ);
    FirstForgotten(g, d.hm);
    OneMore(g, no, Fresh(g), s.ls, IDLE);
    q := Board(s.ls + [IDLE], WriteCtl(g, no, s.c, IDLE).1, s.rows, x.blk, map[]);
  }

  /** The run. */
  function StuckRun(g: Geo, no: nat): seq<Addr>
    requires GeoOk(g)
  {
    StuckStart(g) + Rep(8 * (g.P + |StuckStart(g)| + 1 + no) + 6)
  }

  /** The victim pointer is stuck, and a merge is due again. */
  lemma StuckDue(g: Geo, no: nat, M: nat) returns (s: Board, n: nat)
    requires GeoOk(g) && 4 <= g.K && M == 4 * (g.P + |StuckStart(g)| + 1 + no)
    ensures Waits(g, no, s, M) && !RwFull(g, s.c) && Due(no, s.c.tune) && Stuck(g, s.c.iv)
    ensures s.ls == StuckStart(g) + Rep(n) && n < 2 * M + 6
  {
    hide Waits, Sound, Calm, StuckStart;
    s := StuckHeated(g, no);
    var j, k := 0, 0;
    s := Clear(g, no, s, 1, g.ISOL - 1);
    CountersSmall(g, no, s);
    ToWaits(g, no, s, M);
    WaitsParts(g, no, s, M);
    assert -1 <= Ticks(g, s);
    s, j := UntilDue(g, no, s, M);
    s := TurnBack(g, no, s, M);
    WaitsParts(g, no, s, M);
    assert -1 <= Ticks(g, s);
    s, k := UntilDue(g, no, s, M);
    n := j + k + 2;
    RepSum(1, j);
    RepSum(j + 1, 1);
    RepSum(j + 2, k);
    assert StuckStart(g) + Rep(1) + Rep(j) + Rep(1) + Rep(k) == StuckStart(g) + (Rep(1) + Rep(j) + Rep(1) + Rep(k));
  }

  lemma ToWaits(g: Geo, no: nat, s: Board, M: nat)
    requires Sound(g, no, s) && Quiet(g, s) && Empty(g, s) && s.c.isolFree + 2 == g.ISOL && 8 <= g.ISOL && !s.c.tune.inc
    requires 2 * s.c.tune.trigger <= M && 4 * (s.c.tune.interval + no) <= M
    ensures Waits(g, no, s, M)
  {
  }

  /**
   From format on the n-th of these writes fails the ASSERT of full_merge that finds the victim pointer stuck: the merge
   before has turned back.
   */
  lemma StuckReached(g: Geo, no: nat) returns (n: nat)
    requires GeoOk(g) && 4 <= g.K
    ensures n < |StuckRun(g, no)| && WritesCtl(g, no, Fresh(g), StuckRun(g, no)[..n]).0 == Fine
    ensures var c := WritesCtl(g, no, Fresh(g), StuckRun(g, no)[..n]).1;
            Stuck(g, c.iv) && MergesNow(g, no, c, StuckRun(g, no)[n])
    ensures WritesCtl(g, no, Fresh(g), StuckRun(g, no)).0 == AssertFails
  {
    hide Sound, WritesCtl, WriteCtl, StuckStart, Quiet, Empty;
    var M, ls := 4 * (g.P + |StuckStart(g)| + 1 + no), StuckRun(g, no);
    var s, k := StuckDue(g, no, M);
    n := |StuckStart(g)| + k;
    assert ls[..n] == s.ls && ls[n] == IDLE;
    WaitsParts(g, no, s, M);
    StuckFails(g, no, s);
    WritesOn(g, no, Fresh(g), ls, n);
    WritesFailed(g, no, Fresh(g), ls, n + 1);
  }

  lemma StuckFails(g: Geo, no: nat, s: Board)
    requires Sound(g, no, s) && s.c.isolFree + 2 == g.ISOL && !RwFull(g, s.c) && Due(no, s.c.tune) && Stuck(g, s.c.iv)
    ensures WritesCtl(g, no, Fresh(g), s.ls) == (Fine, s.c) && MergesNow(g, no, s.c, IDLE)
    ensures WriteCtl(g, no, s.c, IDLE).0 == AssertFails
  {
    hide AllRows, First, WritesCtl;
    PlainToRw(g, s.c, IDLE);
    WriteOutcome(g, no, s.c, IDLE);
  }
}
