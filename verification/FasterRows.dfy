/**
 Runs of page writes on a FASTer bank, followed block by block: which lpns the pages of each RW log block
 are live for, and which of the pages have had their second chance.
 */
module FasterRows {
  import opened Common
  import opened FasterState
  import opened FasterSteps
  import opened FasterCapacity
  import opened FasterGc
  import opened FasterControl
  import opened FasterRuns

  /** The lpn that is written where a page is to be filled and nothing else is to happen. */
  const IDLE: Addr := Addr(0, 0)

  /** The live pages of a log block, from page 0 on; those before page cold have had their second chance. */
  datatype Line = Line(f: seq<Addr>, cold: nat)

  /** Pages 0.. of log block b are live for the lpns of f; no other page of the block is, but for IDLE. */
  ghost predicate Live(hm: map<Addr, Addr>, b: nat, f: seq<Addr>) {
    && (forall o :: 0 <= o < |f| ==> f[o] in hm && hm[f[o]] == Addr(b, o) && f[o] != IDLE)
    && forall l :: l in hm && l != IDLE && hm[l].blk == b ==> hm[l].off < |f| && f[hm[l].off] == l
  }

  predicate Bits(g: Geo, sc: set<Addr>, b: nat, cold: nat) {
    forall o: nat :: o + 1 < g.P ==> (Addr(b, o) in sc <==> o < cold)
  }

  ghost predicate RowIs(g: Geo, hm: map<Addr, Addr>, sc: set<Addr>, b: nat, t: Line) {
    t.cold <= |t.f| < g.P && Live(hm, b, t.f) && Bits(g, sc, b, t.cold)
  }

  predicate Elsewhere(hm: map<Addr, Addr>, l: Addr, b: nat) { l in hm ==> hm[l].blk != b }

  // ----- a collection -----

  /** The list of the block. */
  function Slots(f: seq<Addr>, n: nat): (r: seq<Option<Addr>>)
    ensures |r| == n && forall o :: 0 <= o < n ==> r[o] == if o < |f| then Some(f[o]) else None
  {
    if n == 0 then [] else Slots(f, n - 1) + [if n <= |f| then Some(f[n - 1]) else None]
  }

  lemma ListIs(g: Geo, hm: map<Addr, Addr>, b: nat, f: seq<Addr>)
    requires |f| < g.P && Live(hm, b, f) && Elsewhere(hm, IDLE, b)
    ensures LiveList(hm, b, Slots(f, g.P - 1), g.P - 1)
  {
  }

  lemma {:induction false} Counted(g: Geo, hm: map<Addr, Addr>, sc: set<Addr>, b: nat, f: seq<Addr>, cold: nat, n: nat)
    requires |f| < g.P && Live(hm, b, f) && Elsewhere(hm, IDLE, b) && Bits(g, sc, b, cold) && cold <= |f| && n < g.P
    ensures |LiveIn(hm, b, n)| == Least(n, |f|) && |ColdIn(hm, sc, b, n)| == Least(n, cold)
  {
    if n == 0 {
      assert LiveIn(hm, b, 0) == {} && ColdIn(hm, sc, b, 0) == {};
    } else {
      Counted(g, hm, sc, b, f, cold, n - 1);
      ListIs(g, hm, b, f);
      LiveNext(hm, b, Slots(f, g.P - 1), n - 1);
      ColdNext(hm, sc, b, Slots(f, g.P - 1), n - 1);
    }
  }

  /** All its data pages are live, and none has had its second chance. */
  predicate Warm(g: Geo, t: Line) { |t.f| + 1 == g.P && t.cold == 0 }

  /** The number of pages that collecting the block moves to the isolation area. */
  function Moving(g: Geo, t: Line): nat { if |t.f| < g.P / 2 then 0 else t.cold }

  /** The row of the replacement. */
  function Rest(g: Geo, t: Line): Line
    requires t.cold <= |t.f|
  {
    Line(t.f[Moving(g, t)..], |t.f| - Moving(g, t))
  }

  lemma CountedAll(g: Geo, hm: map<Addr, Addr>, sc: set<Addr>, b: nat, t: Line)
    requires 0 < g.P && RowIs(g, hm, sc, b, t) && Elsewhere(hm, IDLE, b)
    ensures |LiveIn(hm, b, g.P - 1)| == |t.f| && |ColdIn(hm, sc, b, g.P - 1)| == t.cold
    ensures AllWarm(g, hm, sc, b) <==> Warm(g, t)
    ensures Moves(g, hm, sc, b) == Moving(g, t)
  {
    Counted(g, hm, sc, b, t.f, t.cold, g.P - 1);
    ListIs(g, hm, b, t.f);
    WarmByCount(g, hm, sc, b, Slots(t.f, g.P - 1));
  }

  /** Cold pages go to the isolation area in order, the others follow each other in the replacement. */
  lemma PlaceIs(g: Geo, hm: map<Addr, Addr>, sc: set<Addr>, ic: Option<Addr>, b: nat, t: Line, o: nat)
    requires 0 < g.P && RowIs(g, hm, sc, b, t) && Elsewhere(hm, IDLE, b) && o < |t.f|
    ensures Place(g, hm, Movers(g, hm, sc, b), ic, b, Addr(b, o)) ==
              if o < Moving(g, t) then InIsol(g, IcNext(g, IcAfter(g, ic, o))) else Addr(b, o - Moving(g, t))
  {
    hide IcNext, IcAfter, InIsol;
    CountedAll(g, hm, sc, b, t);
    Counted(g, hm, sc, b, t.f, t.cold, o);
    if |t.f| < g.P / 2 { Counted(g, hm, {}, b, t.f, 0, o); }
  }

  /** Where page o of a block goes when its first m pages move. */
  function Spot(g: Geo, ic: Option<Addr>, b: nat, m: nat, o: nat): Addr {
    if o < m then InIsol(g, IcNext(g, IcAfter(g, ic, o))) else Addr(b, o - m)
  }

  /** Where lpn l is once block b, with row t, has been collected. */
  ghost predicate SweptAt(g: Geo, hm: map<Addr, Addr>, hm': map<Addr, Addr>, ic: Option<Addr>, b: nat, t: Line,
      l: Addr) {
    l in hm && l in hm' &&
    if hm[l].blk != b then hm'[l] == hm[l]
    else hm[l].off < |t.f| && t.f[hm[l].off] == l && hm'[l] == Spot(g, ic, b, Moving(g, t), hm[l].off)
  }

  ghost predicate Swept(g: Geo, hm: map<Addr, Addr>, hm': map<Addr, Addr>, ic: Option<Addr>, b: nat, t: Line) {
    && (forall l {:trigger l in hm'} :: l in hm' ==> l in hm)
    && forall l {:trigger SweptAt(g, hm, hm', ic, b, t, l)} :: l in hm ==> SweptAt(g, hm, hm', ic, b, t, l)
  }

  lemma SweptIs(g: Geo, hm: map<Addr, Addr>, sc: set<Addr>, ic: Option<Addr>, b: nat, t: Line)
    requires 0 < g.P && RowIs(g, hm, sc, b, t) && Elsewhere(hm, IDLE, b)
    ensures Swept(g, hm, CollectedMap(g, hm, Movers(g, hm, sc, b), ic, b), ic, b, t)
  {
    var hm' := CollectedMap(g, hm, Movers(g, hm, sc, b), ic, b);
    assert forall l :: l in hm' <==> l in hm;
    forall l | l in hm ensures SweptAt(g, hm, hm', ic, b, t, l) {
      assert hm'[l] == Place(g, hm, Movers(g, hm, sc, b), ic, b, hm[l]);
      hide IcNext, IcAfter, Movers, Place, Moving, CollectedMap, InIsol;
      if hm[l].blk != b {
        PlaceElsewhere(g, hm, Movers(g, hm, sc, b), ic, b, hm[l]);
      } else {
        assert hm[l] == Addr(b, hm[l].off);
        PlaceIs(g, hm, sc, ic, b, t, hm[l].off);
      }
    }
  }

  lemma SpotIn(g: Geo, ic: Option<Addr>, b: nat, m: nat, o: nat)
    requires b < g.LOG
    ensures o < m ==> Spot(g, ic, b, m, o).blk != b
    ensures m <= o ==> Spot(g, ic, b, m, o) == Addr(b, o - m)
  {
  }

  /** The row of the block afterwards. */
  lemma SweptRow(g: Geo, hm: map<Addr, Addr>, hm': map<Addr, Addr>, ic: Option<Addr>, b: nat, t: Line)
    requires Swept(g, hm, hm', ic, b, t) && Live(hm, b, t.f) && b < g.LOG && t.cold <= |t.f|
    ensures Live(hm', b, Rest(g, t).f)
  {
    hide Spot;
    var m, f := Moving(g, t), Rest(g, t).f;
    forall o | 0 <= o < |f| ensures f[o] in hm' && hm'[f[o]] == Addr(b, o) && f[o] != IDLE {
      assert f[o] == t.f[m + o];
      assert SweptAt(g, hm, hm', ic, b, t, f[o]);
      SpotIn(g, ic, b, m, m + o);
    }
    forall l | l in hm' && l != IDLE && hm'[l].blk == b ensures hm'[l].off < |f| && f[hm'[l].off] == l {
      assert SweptAt(g, hm, hm', ic, b, t, l);
      SpotIn(g, ic, b, m, hm[l].off);
    }
  }

  /** And those of the others. */
  lemma SweptOther(g: Geo, hm: map<Addr, Addr>, hm': map<Addr, Addr>, ic: Option<Addr>, b: nat, t: Line, a: nat,
      f: seq<Addr>)
    requires Swept(g, hm, hm', ic, b, t) && Live(hm, a, f) && a != b && a < g.LOG
    ensures Live(hm', a, f)
  {
    hide IcNext, IcAfter;
    forall o | 0 <= o < |f| ensures f[o] in hm' && hm'[f[o]] == Addr(a, o) {
      assert SweptAt(g, hm, hm', ic, b, t, f[o]);
    }
    forall l | l in hm' && l != IDLE && hm'[l].blk == a ensures hm'[l].off < |f| && f[hm'[l].off] == l {
      assert SweptAt(g, hm, hm', ic, b, t, l);
    }
  }

  /** Lpn l goes to the next page of its block. */
  lemma LiveWritten(hm: map<Addr, Addr>, b: nat, f: seq<Addr>, l: Addr, x: Addr)
    requires Live(hm, b, f) && l !in f
    ensures l == IDLE || x.blk != b ==> Live(hm[l := x], b, f)
    ensures l != IDLE && x == Addr(b, |f|) ==> Live(hm[l := x], b, f + [l])
  {
    var hm' := hm[l := x];
    forall o | 0 <= o < |f| ensures f[o] in hm' && hm'[f[o]] == Addr(b, o) { assert f[o] in f; }
  }
  // ----- the first isolation block -----

  /** The isolation write pointer after n pages, less than a block full. */
  function IcPos(g: Geo, ic: Option<Addr>, n: nat): Option<Addr> {
    if n == 0 then ic
    else if ic.None? then Some(Addr(0, n - 1))
    else if ic.value.off + n + 1 < g.P then Some(Addr(ic.value.blk, ic.value.off + n))
    else if g.P <= ic.value.off + n + 1 then Some(Addr(ic.value.blk + 1, ic.value.off + n + 1 - g.P)) else None
  }

  predicate Ahead(g: Geo, ic: Option<Addr>) {
    ic.Some? ==> ic.value.off + 1 < g.P && ic.value.blk + 1 < g.ISOL
  }

  lemma {:induction false} IcAt(g: Geo, ic: Option<Addr>, n: nat)
    requires 4 <= g.P && n < g.P && 0 < g.ISOL && Ahead(g, ic)
    ensures IcAfter(g, ic, n) == IcPos(g, ic, n)
  {
    if n > 0 { IcAt(g, ic, n - 1); }
  }

  /** The next pages do not go to the first isolation block. */
  predicate Away(g: Geo, ic: Option<Addr>) {
    Ahead(g, ic) && ic.Some? && (0 < ic.value.blk || ic.value.off + 2 == g.P)
  }

  /** The first isolation block is live for these lpns, at these pages. */
  ghost predicate First(g: Geo, hm: map<Addr, Addr>, first: map<Addr, nat>) {
    && (forall l :: l in hm && hm[l].blk == g.LOG ==> l in first)
    && forall l :: l in first ==> l in hm && hm[l] == Addr(g.LOG, first[l])
  }

  /** The lpns of the first m pages of block b. */
  ghost function PagesOf(hm: map<Addr, Addr>, b: nat, m: nat): map<Addr, nat> {
    map l | l in hm && hm[l].blk == b && hm[l].off < m :: hm[l].off
  }

  lemma SweptFirst(g: Geo, hm: map<Addr, Addr>, hm': map<Addr, Addr>, ic: Option<Addr>, b: nat, t: Line,
      first: map<Addr, nat>)
    requires 4 <= g.P && 0 < g.ISOL && Swept(g, hm, hm', ic, b, t) && First(g, hm, first) && b < g.LOG
    requires t.cold <= |t.f| < g.P
    requires Moving(g, t) == 0 || Away(g, ic) || (ic.None? && first == map[])
    ensures First(g, hm', if Moving(g, t) == 0 || Away(g, ic) then first else PagesOf(hm, b, Moving(g, t)))
  {
    hide IcNext, IcAfter;
    forall l | l in hm
      ensures SweptAt(g, hm, hm', ic, b, t, l)
      ensures hm[l].blk == b && hm[l].off < Moving(g, t) ==>
                hm'[l] == InIsol(g, IcPos(g, ic, hm[l].off + 1).value) {
      assert SweptAt(g, hm, hm', ic, b, t, l);
      if hm[l].blk == b && hm[l].off < Moving(g, t) {
        IcAt(g, ic, hm[l].off);
        IcAt(g, ic, hm[l].off + 1);
        assert IcAfter(g, ic, hm[l].off + 1) ==
          Some(IcNext(g, IcAfter(g, ic, hm[l].off))) by { IcMore(g, ic, hm[l].off); }
      }
    }
  }

  lemma IcMore(g: Geo, ic: Option<Addr>, n: nat)
    ensures IcAfter(g, ic, n + 1) == Some(IcNext(g, IcAfter(g, ic, n)))
  {
  }

  lemma FirstWritten(g: Geo, hm: map<Addr, Addr>, first: map<Addr, nat>, l: Addr, x: Addr)
    requires First(g, hm, first) && x.blk < g.LOG
    ensures First(g, hm[l := x], first - {l})
  {
  }
  // ----- a bank on its way -----

  /** The data block that the SW log block comes to serve, if any. */
  const SEQ: nat := 1

  /**
   The page writes that have been made, the control state that they led to, the rows of the RW log blocks,
   the block where the page of IDLE is, and the lpns of the first isolation block.
   */
  datatype Board = Board(ls: seq<Addr>, c: Ctl, rows: seq<Line>, idle: nat, first: map<Addr, nat>)

  ghost predicate AllRows(g: Geo, hm: map<Addr, Addr>, sc: set<Addr>, rows: seq<Line>) {
    forall b {:trigger RowIs(g, hm, sc, b, rows[b])} :: 1 <= b < |rows| ==> RowIs(g, hm, sc, b, rows[b])
  }

  /** No more than the first page of the SW log block is in use. */
  predicate SwTame(c: Ctl) {
    if c.swLbn.None? then c.swOff == -1 else c.swLbn == Some(SEQ) && c.swOff == 0
  }

  /** The lpn noted last is at an even offset. */
  predicate CorrEven(g: Geo, c: Ctl) {
    c.corr.ref.Some? ==> c.corr.ref.value.off < g.P && c.corr.ref.value.off % 2 == 0
  }

  predicate Tame(g: Geo, c: Ctl) { SwTame(c) && CorrEven(g, c) }

  /** A formatted bank has come there, and lpns at even offsets can be written without being taken for a sequence. */
  ghost predicate Sound(g: Geo, no: nat, s: Board) { Based(g, no, s) && CorrEven(g, s.c) }

  ghost predicate Based(g: Geo, no: nat, s: Board) {
    && GeoOk(g) && WritesCtl(g, no, Fresh(g), s.ls) == (Fine, s.c) && SwTame(s.c)
    && |s.rows| == g.K && AllRows(g, s.c.hm, s.c.sc, s.rows)
    && (IDLE in s.c.hm ==> s.c.hm[IDLE].blk == s.idle) && First(g, s.c.hm, s.first) && IDLE !in s.first
  }

  /** The lpn is not taken for part of a sequence. */
  predicate Plain(g: Geo, c: Ctl, l: Addr) {
    l.off < g.P && l.off % 2 == 0 && (c.swLbn.None? || l.blk != SEQ)
  }

  lemma PlainToRw(g: Geo, c: Ctl, l: Addr)
    requires GeoOk(g) && Tame(g, c) && Plain(g, c, l)
    ensures Decide(g, c.corr, c.swLbn, c.swOff, l) == (SW_NO, Corr(Some(l), 1))
  {
    if c.corr.ref.Some? { EvenNext(g.P, c.corr.ref.value.off); }
  }

  lemma EvenNext(P: nat, o: nat)
    requires P % 128 == 0 && o % 2 == 0 && o < P
    ensures o + 1 < P && (o + 1) % 2 == 1
  {
    assert P == 2 * (64 * (P / 128));
  }

  /** No progressive merge becomes due before there have been end writes. */
  predicate Calm(no: nat, s: Board, end: nat) {
    !s.c.tune.inc && s.c.tune.trigger + end < 2 * (s.c.tune.interval + no) + |s.ls|
  }

  lemma CalmOn(g: Geo, no: nat, s: Board, q: Board, t: Tuning, isolFree: nat, end: nat)
    requires |q.ls| == |s.ls| + 1 && q.c.tune == Tuned(g, t, isolFree)
    requires t.interval == s.c.tune.interval && t.inc == s.c.tune.inc && t.trigger <= s.c.tune.trigger + 1
    ensures Calm(no, s, end) ==> Calm(no, q, end)
    ensures Calm(no, s, end) && |s.ls| < end ==> !Due(no, s.c.tune)
  {
  }

  /** No page of the RW log is live for the lpn. */
  predicate Unused(rows: seq<Line>, l: Addr) {
    forall b :: 1 <= b < |rows| ==> l !in rows[b].f
  }

  /** The row with lpn l on its next page. */
  function With(t: Line, l: Addr): Line { if l == IDLE then t else t.(f := t.f + [l]) }

  /** The block has a page for lpn l, and that is x. */
  predicate Fits(g: Geo, rows: seq<Line>, l: Addr, x: Addr) {
    && 1 <= x.blk < |rows| && x.off + 1 < g.P && (l != IDLE ==> x.off == |rows[x.blk].f| && Unused(rows, l))
  }

  lemma RowsWritten(g: Geo, hm: map<Addr, Addr>, sc: set<Addr>, rows: seq<Line>, l: Addr, x: Addr)
    requires AllRows(g, hm, sc, rows) && Fits(g, rows, l, x)
    ensures AllRows(g, hm[l := x], sc, rows[x.blk := With(rows[x.blk], l)])
  {
    hide Live, Bits;
    var rows' := rows[x.blk := With(rows[x.blk], l)];
    forall b | 1 <= b < |rows'| ensures RowIs(g, hm[l := x], sc, b, rows'[b]) {
      assert RowIs(g, hm, sc, b, rows[b]);
      NotIdle(hm, b, rows[b].f);
      LiveWritten(hm, b, rows[b].f, l, x);
    }
  }

  lemma NotIdle(hm: map<Addr, Addr>, b: nat, f: seq<Addr>)
    requires Live(hm, b, f)
    ensures IDLE !in f
  {
  }

  // ----- a write that collects nothing -----

  /** The RW page behind the last one written, another block being open if need be. */
  function NextRw(g: Geo, c: Ctl): Addr { if c.rw.off + 2 == g.P then Addr(RwVictim(g, c.rw), 0) else Succ(g, c.rw) }

  /** Lpn l has been programmed there. */
  function Programmed(g: Geo, c: Ctl, l: Addr): Ctl {
    c.(hm := c.hm[l := NextRw(g, c)], rw := NextRw(g, c), corr := Decide(g, c.corr, c.swLbn, c.swOff, l).1,
       rwFree := if c.rw.off + 2 == g.P && 0 < c.rwFree then c.rwFree - 1 else c.rwFree,
       tune := c.tune.(writes := c.tune.writes + 1))
  }

  /** And counted towards the next merge, if isolation blocks are in use. */
  function Ticked(g: Geo, t: Tuning, isolFree: nat): Tuning {
    if isolFree < g.ISOL - 1 then t.(trigger := t.trigger + 1) else t
  }

  lemma PlainStep(g: Geo, no: nat, c: Ctl, l: Addr)
    requires GeoOk(g) && SwTame(c) && ToRw(g, c, l) && !RwFull(g, c) && RESERV_ISOL_BLK < c.isolFree
    ensures var d := Programmed(g, c, l);
            if g.ISOL - 1 <= c.isolFree || !Due(no, c.tune) then
              WriteCtl(g, no, c, l) == (Fine, d.(tune := Tuned(g, Ticked(g, d.tune, c.isolFree), c.isolFree)))
            else
              var (r, e) := FullMergeCtl(g, d);
              WriteCtl(g, no, c, l) == (r, e.(tune := Tuned(g, e.tune.(trigger := 0), e.isolFree)))
  {
    hide Turn, CollectOutcome, CollectedCtl, Tuned, FullMergeCtl;
  }

  /** Lpn l goes to the next page of its block, whatever has been noted before. */
  lemma FillAny(g: Geo, no: nat, s: Board, l: Addr, end: nat) returns (q: Board)
    requires Based(g, no, s) && ToRw(g, s.c, l) && !RwFull(g, s.c) && RESERV_ISOL_BLK < s.c.isolFree
    requires g.ISOL - 1 <= s.c.isolFree || !Due(no, s.c.tune)
    requires Fits(g, s.rows, l, NextRw(g, s.c))
    ensures Based(g, no, q) && q.ls == s.ls + [l]
    ensures var x := NextRw(g, s.c); q.rows == s.rows[x.blk := With(s.rows[x.blk], l)] && q.c.rw == x
    ensures q.idle == (if l == IDLE then NextRw(g, s.c).blk else s.idle) && q.first == s.first - {l}
    ensures q.c.rwFree == (if s.c.rw.off + 2 == g.P && 0 < s.c.rwFree then s.c.rwFree - 1 else s.c.rwFree)
    ensures q.c == s.c.(hm := q.c.hm, rw := q.c.rw, rwFree := q.c.rwFree, corr := q.c.corr, tune := q.c.tune)
    ensures q.c.tune ==
            Tuned(g, Ticked(g, s.c.tune.(writes := s.c.tune.writes + 1), s.c.isolFree), s.c.isolFree)
    ensures q.c.corr == Decide(g, s.c.corr, s.c.swLbn, s.c.swOff, l).1
    ensures Calm(no, s, end) ==> Calm(no, q, end)
  {
    hide WriteCtl, AllRows, First, Tuned, WritesCtl, Calm;
    var x, t := NextRw(g, s.c), Ticked(g, s.c.tune.(writes := s.c.tune.writes + 1), s.c.isolFree);
    PlainStep(g, no, s.c, l);
    OneMore(g, no, Fresh(g), s.ls, l);
    RowsWritten(g, s.c.hm, s.c.sc, s.rows, l, x);
    FirstWritten(g, s.c.hm, s.first, l, x);
    q := Board(s.ls + [l], WriteCtl(g, no, s.c, l).1, s.rows[x.blk := With(s.rows[x.blk], l)],
               if l == IDLE then x.blk else s.idle, s.first - {l});
    CalmOn(g, no, s, q, t, s.c.isolFree, end);
  }
  /** Lpn l goes to the next page of its block. */
  lemma Fill(g: Geo, no: nat, s: Board, l: Addr, end: nat) returns (q: Board)
    requires Sound(g, no, s) && Plain(g, s.c, l) && !RwFull(g, s.c) && RESERV_ISOL_BLK < s.c.isolFree
    requires g.ISOL - 1 <= s.c.isolFree || !Due(no, s.c.tune)
    requires Fits(g, s.rows, l, NextRw(g, s.c))
    ensures Sound(g, no, q) && q.ls == s.ls + [l]
    ensures var x := NextRw(g, s.c); q.rows == s.rows[x.blk := With(s.rows[x.blk], l)] && q.c.rw == x
    ensures q.idle == (if l == IDLE then NextRw(g, s.c).blk else s.idle) && q.first == s.first - {l}
    ensures q.c.rwFree == (if s.c.rw.off + 2 == g.P && 0 < s.c.rwFree then s.c.rwFree - 1 else s.c.rwFree)
    ensures q.c == s.c.(hm := q.c.hm, rw := q.c.rw, rwFree := q.c.rwFree, corr := q.c.corr, tune := q.c.tune)
    ensures q.c.tune ==
            Tuned(g, Ticked(g, s.c.tune.(writes := s.c.tune.writes + 1), s.c.isolFree), s.c.isolFree)
    ensures Calm(no, s, end) ==> Calm(no, q, end)
  {
    PlainToRw(g, s.c, l);
    q := FillAny(g, no, s, l, end);
  }

  // ----- a write that collects a block -----

  /** The state in which a write of lpn l turns to the collection. */
  function Asked(g: Geo, c: Ctl, l: Addr): Ctl {
    c.(rwFree := 0, corr := Corr(Some(l), 1), tune := c.tune.(writes := c.tune.writes + 1))
  }

  lemma GcWrite(g: Geo, no: nat, c: Ctl, l: Addr)
    requires GeoOk(g) && Tame(g, c) && Plain(g, c, l) && RwFull(g, c)
    ensures var d := Turn(g, Asked(g, c, l)); var e := CollectedCtl(g, d);
            && WriteCtl(g, no, c, l).0 == CollectOutcome(g, d)
            && (CollectOutcome(g, d) == Fine ==>
                  WriteCtl(g, no, c, l).1 ==
                    e.(rw := Succ(g, e.rw), hm := e.hm[l := Succ(g, e.rw)], tune := Tuned(g, e.tune, e.isolFree)))
  {
    hide Turn, CollectOutcome, CollectedCtl, Tuned;
    PlainToRw(g, c, l);
    OpenParts(g, Turn(g, Asked(g, c, l)));
    TurnParts(g, Asked(g, c, l));
  }

  lemma OpenParts(g: Geo, d: Ctl)
    requires 2 <= g.K && 0 < g.P
    ensures var e := CollectedCtl(g, d);
            e == d.(hm := e.hm, sc := e.sc, rw := e.rw, rwFree := 1, ic := e.ic, isolFree := e.isolFree)
  {
  }

  lemma TurnParts(g: Geo, c: Ctl)
    requires 2 <= g.K && 2 <= g.P
    ensures Turn(g, c) == c.(sc := Turn(g, c).sc, rw := Turn(g, c).rw)
  {
  }

  /** The turn is with block b, whose row is not warm. */
  lemma TurnPlain(g: Geo, c: Ctl, rows: seq<Line>)
    requires GeoOk(g) && AllRows(g, c.hm, c.sc, rows) && |rows| == g.K
    requires var b := RwVictim(g, c.rw); !Warm(g, rows[b]) && Elsewhere(c.hm, IDLE, b)
    ensures Turn(g, c) == c
  {
    hide Live, Bits;
    assert RowIs(g, c.hm, c.sc, RwVictim(g, c.rw), rows[RwVictim(g, c.rw)]);
    CountedAll(g, c.hm, c.sc, RwVictim(g, c.rw), rows[RwVictim(g, c.rw)]);
  }

  /** A warm block gets its second chance. */
  function Chanced(t: Line): Line { t.(cold := |t.f|) }

  lemma ChancedRows(g: Geo, hm: map<Addr, Addr>, sc: set<Addr>, rows: seq<Line>)
    requires AllRows(g, hm, sc, rows) && 2 <= |rows| && Warm(g, rows[1])
    ensures AllRows(g, hm, sc + Row(1, g.P), rows[1 := Chanced(rows[1])])
  {
    var rows' := rows[1 := Chanced(rows[1])];
    forall b | 1 <= b < |rows'| ensures RowIs(g, hm, sc + Row(1, g.P), b, rows'[b]) {
      assert RowIs(g, hm, sc, b, rows[b]);
    }
  }

  /** The turn is with block 1, which is warm, and goes on to block 2. */
  lemma TurnChance(g: Geo, c: Ctl, rows: seq<Line>)
    requires GeoOk(g) && 3 <= g.K == |rows| && AllRows(g, c.hm, c.sc, rows) && RwVictim(g, c.rw) == 1
    requires Warm(g, rows[1]) && !Warm(g, rows[2]) && Elsewhere(c.hm, IDLE, 1) && Elsewhere(c.hm, IDLE, 2)
    ensures Turn(g, c) == Chance(g, c) == c.(sc := Chance(g, c).sc, rw := Addr(1, g.P - 1))
    ensures AllRows(g, c.hm, Chance(g, c).sc, rows[1 := Chanced(rows[1])])
  {
    hide Live, Bits;
    assert RowIs(g, c.hm, c.sc, 1, rows[1]);
    CountedAll(g, c.hm, c.sc, 1, rows[1]);
    ChancedRows(g, c.hm, c.sc, rows);
    TurnPlain(g, Chance(g, c), rows[1 := Chanced(rows[1])]);
  }

  /** The bits of a collected block are those of the pages that stay; those of the others are left alone. */
  lemma BitsRest(g: Geo, hm: map<Addr, Addr>, sc: set<Addr>, b: nat, t: Line, n: nat)
    requires 0 < g.P && |LiveIn(hm, b, g.P - 1)| == |t.f| && t.cold <= |t.f| && Bits(g, sc, b, t.cold)
    requires n == |t.f| - Moving(g, t)
    ensures Bits(g, BitsAfter(g, hm, sc, b, n), b, n)
    ensures forall x: Addr :: x.blk != b ==> (x in BitsAfter(g, hm, sc, b, n) <==> x in sc)
  {
  }

  lemma Collected(g: Geo, c: Ctl, rows: seq<Line>)
    requires GeoOk(g) && AllRows(g, c.hm, c.sc, rows) && |rows| == g.K
    requires Elsewhere(c.hm, IDLE, RwVictim(g, c.rw))
    ensures var b := RwVictim(g, c.rw); var t := rows[b];
            && t.cold <= |t.f| < g.P && CollectOutcome(g, c) == RoomOutcome(g, NeededNow(g, c), c.isolFree, c.iv)
            && NeededNow(g, c) == Needed(g, IsolSucc(g, c.ic).off, Moving(g, t))
            && AllRows(g, CollectedCtl(g, c).hm, CollectedCtl(g, c).sc, rows[b := Rest(g, t)])
            && Swept(g, c.hm, CollectedCtl(g, c).hm, c.ic, b, t)
            && CollectedCtl(g, c).rw == Pred(g, Addr(b, |Rest(g, t).f|))
            && CollectedCtl(g, c).ic == IcAfter(g, c.ic, Moving(g, t))
            && CollectedCtl(g, c).isolFree == FreeAfter(g, IsolSucc(g, c.ic).off, c.isolFree, Moving(g, t))
  {
    hide Live, Bits, Swept, CollectedMap, Movers, Moves, IcAfter, FreeAfter, BitsAfter;
    var b := RwVictim(g, c.rw);
    var t := rows[b];
    assert RowIs(g, c.hm, c.sc, b, t);
    CountedAll(g, c.hm, c.sc, b, t);
    var e, n := CollectedCtl(g, c), |t.f| - Moving(g, t);
    assert Kept(g, c) == n;
    SweptIs(g, c.hm, c.sc, c.ic, b, t);
    SweptRow(g, c.hm, e.hm, c.ic, b, t);
    BitsRest(g, c.hm, c.sc, b, t, n);
    var rows' := rows[b := Rest(g, t)];
    forall a | 1 <= a < |rows'| ensures RowIs(g, e.hm, e.sc, a, rows'[a]) {
      assert RowIs(g, c.hm, c.sc, a, rows[a]);
      if a != b {
        SweptOther(g, c.hm, e.hm, c.ic, b, t, a, rows[a].f);
        BitsSame(g, c.sc, e.sc, a, rows[a].cold);
      }
    }
  }

  lemma BitsSame(g: Geo, sc: set<Addr>, sc': set<Addr>, b: nat, cold: nat)
    requires Bits(g, sc, b, cold) && forall o: nat :: Addr(b, o) in sc' <==> Addr(b, o) in sc
    ensures Bits(g, sc', b, cold)
  {
  }
  /** The block whose turn it is once lpn l is to be written. */
  ghost function Victim(g: Geo, s: Board, l: Addr): nat
    requires 2 <= g.K && 2 <= g.P
  {
    RwVictim(g, Turn(g, Asked(g, s.c, l)).rw)
  }

  /** Its collection has room, and does not mix up the first isolation block. */
  predicate Roomy(g: Geo, s: Board, m: nat) {
    && Ahead(g, s.c.ic) && RoomOutcome(g, Needed(g, IsolSucc(g, s.c.ic).off, m), s.c.isolFree, s.c.iv) == Fine
    && (m == 0 || Away(g, s.c.ic) || (s.c.ic.None? && s.first == map[]))
  }

  ghost function FirstAfter(g: Geo, s: Board, b: nat, m: nat): map<Addr, nat> {
    if m == 0 || Away(g, s.c.ic) then s.first else PagesOf(s.c.hm, b, m)
  }

  /** The write of lpn l collects block b; rs are the rows when the turn comes to it. */
  lemma Collect(g: Geo, no: nat, s: Board, l: Addr, b: nat, rs: seq<Line>, end: nat) returns (q: Board)
    requires Sound(g, no, s) && Plain(g, s.c, l) && RwFull(g, s.c) && |rs| == g.K && b == Victim(g, s, l)
    requires AllRows(g, s.c.hm, Turn(g, Asked(g, s.c, l)).sc, rs) && Elsewhere(s.c.hm, IDLE, b)
    requires rs[b].cold <= |rs[b].f| && Roomy(g, s, Moving(g, rs[b]))
    requires Fits(g, rs[b := Rest(g, rs[b])], l, Addr(b, |Rest(g, rs[b]).f|))
    ensures Sound(g, no, q) && q.ls == s.ls + [l] && q.rows == rs[b := With(Rest(g, rs[b]), l)]
    ensures q.idle == (if l == IDLE then b else s.idle) && q.first == FirstAfter(g, s, b, Moving(g, rs[b])) - {l}
    ensures q.c.rw == Addr(b, |Rest(g, rs[b]).f|) && q.c.rwFree == 1 && q.c.ic == IcPos(g, s.c.ic, Moving(g, rs[b]))
    ensures q.c.isolFree == FreeAfter(g, IsolSucc(g, s.c.ic).off, s.c.isolFree, Moving(g, rs[b])) && q.c.iv == s.c.iv
    ensures q.c.swLbn == s.c.swLbn && q.c.swOff == s.c.swOff && q.c.corr == Corr(Some(l), 1)
    ensures q.c.tune == Tuned(g, s.c.tune.(writes := s.c.tune.writes + 1), q.c.isolFree)
    ensures Calm(no, s, end) ==> Calm(no, q, end)
  {
    hide Turn, WriteCtl, AllRows, First, Tuned, WritesCtl, Calm, CollectOutcome, CollectedCtl, NeededNow, Swept, IcPos,
      IcAfter, FreeAfter, PagesOf, Moving, RoomOutcome, Needed;
    var d, m := Turn(g, Asked(g, s.c, l)), Moving(g, rs[b]);
    TurnParts(g, Asked(g, s.c, l));
    Collected(g, d, rs);
    var e, x := CollectedCtl(g, d), Addr(b, |Rest(g, rs[b]).f|);
    GcWrite(g, no, s.c, l);
    OpenParts(g, d);
    OneMore(g, no, Fresh(g), s.ls, l);
    RowsWritten(g, e.hm, e.sc, rs[b := Rest(g, rs[b])], l, x);
    SweptFirst(g, s.c.hm, e.hm, s.c.ic, b, rs[b], s.first);
    MovingFew(g, rs[b]);
    IcAt(g, s.c.ic, m);
    FirstWritten(g, e.hm, FirstAfter(g, s, b, m), l, x);
    IdleKept(g, s.c.hm, e.hm, s.c.ic, b, rs[b]);
    IdleNot(s.c.hm, b, m);
    assert rs[b := Rest(g, rs[b])][b := With(Rest(g, rs[b]), l)] == rs[b := With(Rest(g, rs[b]), l)];
    q := Board(s.ls + [l], WriteCtl(g, no, s.c, l).1, rs[b := With(Rest(g, rs[b]), l)],
               if l == IDLE then b else s.idle, FirstAfter(g, s, b, m) - {l});
    CalmOn(g, no, s, q, s.c.tune.(writes := s.c.tune.writes + 1), q.c.isolFree, end);
  }

  lemma IdleNot(hm: map<Addr, Addr>, b: nat, m: nat)
    requires Elsewhere(hm, IDLE, b)
    ensures IDLE !in PagesOf(hm, b, m)
  {
  }

  lemma MovingFew(g: Geo, t: Line)
    ensures t.cold <= |t.f| < g.P ==> Moving(g, t) < g.P
  {
  }

  lemma IdleKept(g: Geo, hm: map<Addr, Addr>, hm': map<Addr, Addr>, ic: Option<Addr>, b: nat, t: Line)
    requires Swept(g, hm, hm', ic, b, t) && Elsewhere(hm, IDLE, b)
    ensures IDLE in hm' ==> IDLE in hm && hm'[IDLE] == hm[IDLE]
  {
    if IDLE in hm' { assert SweptAt(g, hm, hm', ic, b, t, IDLE); }
  }
}
