/** What the progressive merges of a FASTer bank (full_merge in ftl_faster/ftl.c) come to over a run. */
module FasterMerges {
  import opened Common
  import opened FasterState
  import opened FasterSteps
  import opened FasterGc
  import opened FasterControl
  import opened FasterRuns

  // ----- one merge -----

  /** The data pages of the victim block that the victim pointer has passed. */
  function Passed(g: Geo, iv: Option<Addr>): nat {
    if iv.None? || iv.value.off + 1 >= g.P then 0 else iv.value.off + 1
  }

  /** Free isolation blocks, in pages, and the pages passed of the next one to be free. */
  function Work(g: Geo, c: Ctl): nat
    requires 0 < g.P
  {
    c.isolFree * (g.P - 1) + Passed(g, c.iv)
  }

  /** The pointer is within its block. */
  predicate IvOk(g: Geo, c: Ctl) {
    c.iv.Some? ==> c.iv.value.off < g.P
  }

  /** A merge goes on by a page at least, and when it comes to the end of the block, the block is free. */
  lemma MergeGains(g: Geo, c: Ctl)
    requires GeoOk(g) && IvOk(g, c) && !Stuck(g, c.iv)
    ensures var (r, d) := FullMergeCtl(g, c);
            && r == Fine && IvOk(g, d) && Work(g, c) + 1 <= Work(g, d)
            && c.isolFree <= d.isolFree <= c.isolFree + 1
  {
    hide Keep;
    var d := FullMergeCtl(g, c).1;
    assert (c.isolFree + 1) * (g.P - 1) == c.isolFree * (g.P - 1) + (g.P - 1);
  }

  /** A merge removes entries only, and that of the lpn whose page the victim page is. */
  lemma MergeRemoves(g: Geo, c: Ctl, k: Addr)
    requires GeoOk(g) && !Stuck(g, c.iv) && k.off < g.P
    ensures forall l :: l in FullMergeCtl(g, c).1.hm ==> l in c.hm && FullMergeCtl(g, c).1.hm[l] == c.hm[l]
    ensures var v := IsolSucc(g, c.iv);
            Owner(c.hm, InIsol(g, Addr(v.blk, NextLive(g, c.hm, v.blk, v.off)))) == Some(k) ==>
              k !in FullMergeCtl(g, c).1.hm
  {
    hide Owner, NextLive;
  }

  /** No page of the victim block is live up to where the merge has come. */
  lemma MergeClears(g: Geo, c: Ctl)
    requires GeoOk(g) && IvOk(g, c) && !Stuck(g, c.iv) && OneToOne(g, c.hm)
    ensures var (r, d) := FullMergeCtl(g, c);
            var v := IsolSucc(g, c.iv);
            && (forall o :: v.off <= o <= NextLive(g, c.hm, v.blk, v.off) ==> !LiveAt(d.hm, InIsol(g, Addr(v.blk, o))))
            && (forall l :: l in d.hm ==> l in c.hm && d.hm[l] == c.hm[l])
  {
    var v := IsolSucc(g, c.iv);
    var x := Addr(v.blk, NextLive(g, c.hm, v.blk, v.off));
    var k := Owner(c.hm, InIsol(g, x));
    forall l | l in c.hm && c.hm[l] == InIsol(g, x) ensures k == Some(l) { OwnerIs(g, c.hm, InIsol(g, x), l); }
    NextLiveIs(g, c.hm, v.blk, v.off);
    MergeRemoves(g, c, if k.Some? then k.value else Addr(0, 0));
    hide FullMergeCtl, Owner, NextLive, OneToOne;
  }

  lemma {:induction false} NextLiveIs(g: Geo, hm: map<Addr, Addr>, i: nat, o: nat)
    ensures forall p :: o <= p < NextLive(g, hm, i, o) ==> !LiveAt(hm, InIsol(g, Addr(i, p)))
    decreases g.P - o
  {
    if !(g.P <= o + 2 || LiveAt(hm, Addr(g.LOG + i, o))) { NextLiveIs(g, hm, i, o + 1); }
  }

  // ----- runs -----

  /** The writes of ls that merge a victim page, the bank being in state c before. */
  ghost function Merges(g: Geo, no: nat, c: Ctl, ls: seq<Addr>): nat
    requires GeoOk(g)
  {
    if ls == [] then 0
    else
      var n := |ls| - 1;
      Merges(g, no, c, ls[..n]) + (if MergesNow(g, no, WritesCtl(g, no, c, ls[..n]).1, ls[n]) then 1 else 0)
  }

  /** The isolation blocks that the collections among them begin. */
  ghost function Begun(g: Geo, no: nat, c: Ctl, ls: seq<Addr>): nat
    requires GeoOk(g)
  {
    if ls == [] then 0
    else
      var n := |ls| - 1;
      var d := WritesCtl(g, no, c, ls[..n]).1;
      Begun(g, no, c, ls[..n]) + (if Begins(g, no, d, ls[n]) then 1 else 0)
  }

  /** Behind the programming of the page. */
  lemma AfterWork(g: Geo, no: nat, c: Ctl, rw: bool, gc: bool)
    requires GeoOk(g) && IvOk(g, c) && c.swOff < g.P && (c.swOff + 1 == g.P ==> c.swLbn.Some?)
    requires AfterCtl(g, no, c, rw, gc).0 == Fine
    ensures var d := AfterCtl(g, no, c, rw, gc).1;
            && IvOk(g, d) && d.swOff + 1 < g.P
            && if c.swOff + 1 < g.P && !gc
                  && (c.isolFree <= RESERV_ISOL_BLK || (c.isolFree < g.ISOL - 1 && rw && Due(no, c.tune)))
               then Work(g, c) + 1 <= Work(g, d) && c.isolFree <= d.isolFree && FullMergeCtl(g, c).0 == Fine
               else d.iv == c.iv && d.isolFree == c.isolFree
  {
    hide Keep, Tuned, Owner, NextLive;
    if !Stuck(g, c.iv) { MergeGains(g, c); }
    hide Work;
    FullMergeSw(g, c);
    hide FullMergeCtl;
  }

  lemma FullMergeSw(g: Geo, c: Ctl)
    ensures var d := FullMergeCtl(g, c).1; d.swOff == c.swOff || d.swOff == -1
    ensures Stuck(g, c.iv) ==> FullMergeCtl(g, c).0 != Fine
  {
  }

  /** Before it. */
  lemma PrepareWork(g: Geo, c: Ctl, l: Addr)
    requires GeoOk(g) && c.swOff + 1 < g.P && l.off < g.P && PrepareCtl(g, c, l).0 == Fine
    ensures var d := PrepareCtl(g, c, l).1;
            && d.iv == c.iv && d.tune == c.tune && d.isolFree <= c.isolFree <= d.isolFree + 1
            && (!Collects(g, c, l) ==> d.isolFree == c.isolFree)
            && (if ToRw(g, c, l) then d.swOff == c.swOff else d.swOff == l.off && d.swLbn.Some?)
  {
    hide Turn, CollectOutcome, Keep, SwCopied, Moves, CollectedMap, BitsAfter, Kept;
  }

  lemma SameIv(g: Geo, c: Ctl, d: Ctl)
    requires d.iv == c.iv
    ensures IvOk(g, d) == IvOk(g, c)
    ensures 0 < g.P && d.isolFree == c.isolFree ==> Work(g, d) == Work(g, c)
  {
  }

  /** One write: a merge is work done, a collection may take a block, and nothing else changes it. */
  lemma WorkOne(g: Geo, no: nat, c: Ctl, l: Addr)
    requires GeoOk(g) && IvOk(g, c) && c.swOff + 1 < g.P && l.off < g.P && WriteCtl(g, no, c, l).0 == Fine
    ensures var d := WriteCtl(g, no, c, l).1;
            && IvOk(g, d) && d.swOff + 1 < g.P
            && (MergesNow(g, no, c, l) ==> Work(g, c) + 1 <= Work(g, d) && c.isolFree <= d.isolFree)
            && (!MergesNow(g, no, c, l) ==> d.iv == c.iv && d.isolFree <= c.isolFree <= d.isolFree + 1)
            && (!MergesNow(g, no, c, l) && !Collects(g, c, l) ==> d.isolFree == c.isolFree)
  {
    hide PrepareCtl, AfterCtl, Collects, ToRw, Work, IvOk;
    var c1 := c.(tune := c.tune.(writes := c.tune.writes + 1));
    assert IvOk(g, c1) by { SameIv(g, c, c1); }
    SameKind(g, c, c1.tune, l);
    PrepareWork(g, c1, l);
    var d := PrepareCtl(g, c1, l).1;
    var x := if ToRw(g, c, l) then d.rw else Addr(SW_LOG_LBN, l.off);
    var e := d.(hm := d.hm[l := x]);
    SameIv(g, c, e);
    AfterWork(g, no, e, ToRw(g, c, l), Collects(g, c, l));
  }

  /** What a run starts from: the SW log block is not full, and the pointer is within its block. */
  predicate RunOk(g: Geo, c: Ctl, ls: seq<Addr>) {
    IvOk(g, c) && c.swOff + 1 < g.P && forall i :: 0 <= i < |ls| ==> ls[i].off < g.P
  }

  /** The data pages of k blocks. */
  function Pages(g: Geo, k: nat): nat
    requires 0 < g.P
  {
    k * (g.P - 1)
  }

  lemma PagesMore(g: Geo, k: nat)
    requires 0 < g.P
    ensures Pages(g, 0) == 0 && Pages(g, k + 1) == Pages(g, k) + g.P - 1
  {
  }

  /** The collection of lpn l begins an isolation block. */
  ghost predicate Begins(g: Geo, no: nat, c: Ctl, l: Addr)
    requires GeoOk(g)
  {
    Collects(g, c, l) && WriteCtl(g, no, c, l).1.isolFree < c.isolFree
  }

  lemma WorkBalance(g: Geo, no: nat, c: Ctl, l: Addr)
    requires GeoOk(g) && IvOk(g, c) && c.swOff + 1 < g.P && l.off < g.P && WriteCtl(g, no, c, l).0 == Fine
    ensures var d := WriteCtl(g, no, c, l).1;
            && IvOk(g, d) && d.swOff + 1 < g.P
            && Work(g, c) + (if MergesNow(g, no, c, l) then 1 else 0) <=
              Work(g, d) + (if Begins(g, no, c, l) then g.P - 1 else 0)
            && c.isolFree <= d.isolFree + (if Begins(g, no, c, l) then 1 else 0)
            && (!MergesNow(g, no, c, l) ==>
              d.iv == c.iv && c.isolFree == d.isolFree + (if Begins(g, no, c, l) then 1 else 0))
  {
    WorkOne(g, no, c, l);
    hide WriteCtl, IvOk, Collects;
    var d := WriteCtl(g, no, c, l).1;
    PagesMore(g, d.isolFree);
    assert Work(g, c) == Pages(g, c.isolFree) + Passed(g, c.iv) && Work(g, d) == Pages(g, d.isolFree) + Passed(g, d.iv);
    hide Pages, Work, Passed;
  }

  /**
   Over any run that goes well: the merges made are no more than the pages of the isolation blocks that have come
   free, and those passed of the next one; blocks come free by merges only, and go by collections only.
   */
  lemma {:induction false} MergeBalance(g: Geo, no: nat, c: Ctl, ls: seq<Addr>)
    requires GeoOk(g) && RunOk(g, c, ls) && WritesCtl(g, no, c, ls).0 == Fine
    ensures var d := WritesCtl(g, no, c, ls).1;
            && IvOk(g, d) && d.swOff + 1 < g.P
            && Work(g, c) + Merges(g, no, c, ls) <= Work(g, d) + Pages(g, Begun(g, no, c, ls))
            && c.isolFree <= d.isolFree + Begun(g, no, c, ls)
            && (Merges(g, no, c, ls) == 0 ==> d.iv == c.iv && c.isolFree == d.isolFree + Begun(g, no, c, ls))
  {
    hide WriteCtl, IvOk, Work, Pages, MergesNow, Begins, Passed;
    if ls != [] {
      var n := |ls| - 1;
      var d := WritesCtl(g, no, c, ls[..n]).1;
      assert RunOk(g, c, ls[..n]);
      MergeBalance(g, no, c, ls[..n]);
      WorkBalance(g, no, d, ls[n]);
      PagesMore(g, Begun(g, no, c, ls[..n]));
    } else {
      PagesMore(g, 0);
    }
  }

  /**
   So P - 1 merges free a block, or the pointer is stuck after them, if the collections between them have begun
   no block.
   */
  lemma MergesFree(g: Geo, no: nat, c: Ctl, ls: seq<Addr>)
    requires GeoOk(g) && RunOk(g, c, ls) && WritesCtl(g, no, c, ls).0 == Fine
    requires g.P - 1 <= Merges(g, no, c, ls) && Begun(g, no, c, ls) == 0
    ensures var d := WritesCtl(g, no, c, ls).1; c.isolFree < d.isolFree || Stuck(g, d.iv)
  {
    MergeBalance(g, no, c, ls);
    hide WritesCtl, Merges, Begun;
    PagesMore(g, 0);
    var d := WritesCtl(g, no, c, ls).1;
    assert Work(g, c) == Pages(g, c.isolFree) + Passed(g, c.iv) && Work(g, d) == Pages(g, d.isolFree) + Passed(g, d.iv);
    MulOrder(d.isolFree, c.isolFree, g.P - 1);
  }

  /** No write of ls collects, or fills the SW log block. */
  ghost predicate Ordinary(g: Geo, no: nat, c: Ctl, ls: seq<Addr>)
    requires GeoOk(g)
  {
    forall i {:trigger ls[i]} :: 0 <= i < |ls| ==>
      var d := WritesCtl(g, no, c, ls[..i]).1; !Collects(g, d, ls[i]) && !FillsSw(g, d, ls[i])
  }

  lemma NotBegun(g: Geo, no: nat, c: Ctl, l: Addr)
    requires GeoOk(g) && !Collects(g, c, l)
    ensures !Begins(g, no, c, l)
  {
    hide WriteCtl;
  }

  lemma {:induction false} AllMerge(g: Geo, no: nat, c: Ctl, ls: seq<Addr>)
    requires GeoOk(g) && RunOk(g, c, ls) && WritesCtl(g, no, c, ls).0 == Fine && Ordinary(g, no, c, ls)
    requires c.isolFree <= RESERV_ISOL_BLK
    ensures var d := WritesCtl(g, no, c, ls).1;
            && Begun(g, no, c, ls) == 0 && c.isolFree <= d.isolFree
            && (d.isolFree == c.isolFree ==> Merges(g, no, c, ls) == |ls|)
  {
    hide WriteCtl, IvOk, Work, Pages, Begins, Passed, Collects, FillsSw;
    if ls != [] {
      var n := |ls| - 1;
      var d := WritesCtl(g, no, c, ls[..n]).1;
      assert RunOk(g, c, ls[..n]);
      assert Ordinary(g, no, c, ls[..n]) by {
        forall i | 0 <= i < n ensures ls[..n][..i] == ls[..i] && ls[..n][i] == ls[i] {}
      }
      AllMerge(g, no, c, ls[..n]);
      MergeBalance(g, no, c, ls[..n]);
      assert !Collects(g, d, ls[n]) && !FillsSw(g, d, ls[n]);
      WorkOne(g, no, d, ls[n]);
      NotBegun(g, no, d, ls[n]);
    }
  }

  /**
   When the reserve is reached it grows again: P - 1 writes that collect nothing and do not fill the SW log block
   free an isolation block, or the pointer is stuck after them.
   */
  lemma ReserveRefills(g: Geo, no: nat, c: Ctl, ls: seq<Addr>)
    requires GeoOk(g) && RunOk(g, c, ls) && WritesCtl(g, no, c, ls).0 == Fine && Ordinary(g, no, c, ls)
    requires c.isolFree <= RESERV_ISOL_BLK && g.P - 1 <= |ls|
    ensures var d := WritesCtl(g, no, c, ls).1; c.isolFree < d.isolFree || Stuck(g, d.iv)
  {
    AllMerge(g, no, c, ls);
    if WritesCtl(g, no, c, ls).1.isolFree == c.isolFree { MergesFree(g, no, c, ls); }
  }

  // ----- how often merges are made -----

  /**
   The interval between merges grows at most once in a period; its base is at most what both were in the first
   period.
   */
  predicate TuneOk(g: Geo, t: Tuning, n: nat)
    requires 0 < g.P
  {
    && 1 <= t.base <= g.P / 4 && 1 <= t.interval && t.writes <= n
    && (n < Period(g) ==> t.interval == t.base == g.P / 4)
    && t.interval * Period(g) + t.writes <= g.P / 4 * Period(g) + n
  }

  lemma OneRound(m: nat, p: nat)
    ensures (m + 1) * p == m * p + p
  {
  }

  lemma TunedOk(g: Geo, t: Tuning, n: nat, isolFree: nat)
    requires GeoOk(g) && TuneOk(g, t, n)
    ensures TuneOk(g, Tuned(g, t, isolFree), n)
  {
    hide Period;
    var first := g.P / 4;
    assert 32 <= first;
    OneRound(t.interval, Period(g));
    var j := Tuned(g, t, isolFree).interval;
    MulOrder(j, first, Period(g));
    MulOrder(t.interval, j, Period(g));
  }

  /** What a write of lpn l has counted before the tuning: inc is set by a merge at the reserve. */
  predicate IncAfter(g: Geo, no: nat, c: Ctl, l: Addr) {
    c.tune.inc || (MergesNow(g, no, c, l) && c.isolFree <= RESERV_ISOL_BLK)
  }

  function Counted(g: Geo, no: nat, c: Ctl, l: Addr): Tuning {
    c.tune.(writes := c.tune.writes + 1, inc := IncAfter(g, no, c, l),
      trigger := if Collects(g, c, l) || FillsSw(g, c, l) || !ToRw(g, c, l) || c.isolFree <= RESERV_ISOL_BLK
                    || g.ISOL - 1 <= c.isolFree then c.tune.trigger
                 else if Due(no, c.tune) then 0 else c.tune.trigger + 1)
  }

  lemma TuneOne(g: Geo, no: nat, c: Ctl, l: Addr)
    requires GeoOk(g) && c.swOff + 1 < g.P && l.off < g.P && WriteCtl(g, no, c, l).0 == Fine
    ensures var d := WriteCtl(g, no, c, l).1; d.tune == Tuned(g, Counted(g, no, c, l), d.isolFree)
  {
    hide PrepareCtl, Collects, ToRw, SwMergedCtl, FullMergeCtl, Tuned;
    var c1 := c.(tune := c.tune.(writes := c.tune.writes + 1));
    SameKind(g, c, c1.tune, l);
    PrepareWork(g, c1, l);
    var d := PrepareCtl(g, c1, l).1;
    var x := if ToRw(g, c, l) then d.rw else Addr(SW_LOG_LBN, l.off);
    var e := d.(hm := d.hm[l := x]);
    TuneKept(g, e);
  }

  lemma TuneKept(g: Geo, c: Ctl)
    ensures SwMergedCtl(g, c).tune == c.tune && FullMergeCtl(g, c).1.tune == c.tune
  {
  }

  /** So it is after any run of writes to a formatted bank. */
  lemma {:induction false} TuneOfRun(g: Geo, no: nat, ls: seq<Addr>)
    requires GeoOk(g) && RunOk(g, Fresh(g), ls) && WritesCtl(g, no, Fresh(g), ls).0 == Fine
    ensures TuneOk(g, WritesCtl(g, no, Fresh(g), ls).1.tune, |ls|)
  {
    hide WriteCtl, TuneOk, Tuned;
    if ls != [] {
      var n := |ls| - 1;
      var c := WritesCtl(g, no, Fresh(g), ls[..n]).1;
      assert RunOk(g, Fresh(g), ls[..n]);
      TuneOfRun(g, no, ls[..n]);
      MergeBalance(g, no, Fresh(g), ls[..n]);
      TuneOne(g, no, c, ls[n]);
      TuneStarts(g, no, c, ls[n], n);
      TunedOk(g, Counted(g, no, c, ls[n]), n + 1, WriteCtl(g, no, c, ls[n]).1.isolFree);
    } else {
      TuneStarts(g, no, Fresh(g), Addr(0, 0), 0);
    }
  }

  lemma TuneStarts(g: Geo, no: nat, c: Ctl, l: Addr, n: nat)
    requires GeoOk(g)
    ensures TuneOk(g, Fresh(g).tune, 0)
    ensures TuneOk(g, c.tune, n) ==> TuneOk(g, Counted(g, no, c, l), n + 1)
  {
    assert 32 <= g.P / 4;
  }

  /**
   Once the reserve has been reached, the write that ends the period, two isolation blocks or more not being free
   then, brings the interval down to the base, which is at most what it was at first, and makes the base less by
   one, or nearly what it was at first when it was one.
   */
  lemma IncFalls(g: Geo, no: nat, c: Ctl, l: Addr, n: nat)
    requires GeoOk(g) && c.swOff + 1 < g.P && l.off < g.P && WriteCtl(g, no, c, l).0 == Fine && TuneOk(g, c.tune, n)
    requires IncAfter(g, no, c, l)
    requires Period(g) <= c.tune.writes + 1 && WriteCtl(g, no, c, l).1.isolFree + 2 <= g.ISOL
    ensures var t := WriteCtl(g, no, c, l).1.tune;
            && t.interval == t.base == (if c.tune.base == 1 then g.P / 4 - 1 else c.tune.base - 1)
            && !t.inc && t.writes == 0
  {
    hide WriteCtl, Period;
    assert 32 <= g.P / 4;
    TuneOne(g, no, c, l);
  }

  /** Otherwise the interval grows by one when the period ends with one isolation block in use, and stays as it is. */
  lemma TuneCases(g: Geo, no: nat, c: Ctl, l: Addr)
    requires GeoOk(g) && c.swOff + 1 < g.P && l.off < g.P && WriteCtl(g, no, c, l).0 == Fine
    requires !IncAfter(g, no, c, l) || WriteCtl(g, no, c, l).1.isolFree + 2 > g.ISOL
    ensures var d := WriteCtl(g, no, c, l).1;
            var ends := g.LOG * g.P / 8 <= c.tune.writes + 1 && d.isolFree < g.ISOL;
            && d.tune.interval == c.tune.interval + (if ends && d.isolFree + 1 == g.ISOL then 1 else 0)
            && d.tune.writes == (if ends then 0 else c.tune.writes + 1) && d.tune.inc == IncAfter(g, no, c, l)
  {
    hide WriteCtl, IncAfter;
    TuneOne(g, no, c, l);
  }

  /** Lpns go to the RW log, nothing is collected, some isolation blocks are in use, and the interval stays n. */
  ghost predicate Steady(g: Geo, no: nat, c: Ctl, ls: seq<Addr>, n: nat)
    requires GeoOk(g)
  {
    forall i {:trigger ls[i]} :: 0 <= i < |ls| ==>
      var d := WritesCtl(g, no, c, ls[..i]).1;
      && ToRw(g, d, ls[i]) && !Collects(g, d, ls[i]) && d.tune.interval == n
      && RESERV_ISOL_BLK < d.isolFree < g.ISOL - 1
  }

  /** Then every 2 * (n + no)-th write merges a victim page, and no other one does. */
  lemma {:induction false} MergesPeriodic(g: Geo, no: nat, c: Ctl, ls: seq<Addr>, n: nat)
    requires GeoOk(g) && RunOk(g, c, ls) && WritesCtl(g, no, c, ls).0 == Fine && Steady(g, no, c, ls, n)
    requires 0 < n && c.tune.trigger == 0
    ensures var t := WritesCtl(g, no, c, ls).1.tune.trigger;
            t < 2 * (n + no) && Merges(g, no, c, ls) * (2 * (n + no)) + t == |ls|
  {
    hide WriteCtl, IvOk, ToRw, Collects, MergesNow, Work, Pages, Passed;
    if ls != [] {
      var k := |ls| - 1;
      var d := WritesCtl(g, no, c, ls[..k]).1;
      assert RunOk(g, c, ls[..k]);
      assert Steady(g, no, c, ls[..k], n) by {
        forall i | 0 <= i < k ensures ls[..k][..i] == ls[..i] && ls[..k][i] == ls[i] {}
      }
      MergesPeriodic(g, no, c, ls[..k], n);
      MergeBalance(g, no, c, ls[..k]);
      assert ToRw(g, d, ls[k]) && !Collects(g, d, ls[k]);
      TriggerOne(g, no, d, ls[k]);
      OneRound(Merges(g, no, c, ls[..k]), 2 * (n + no));
    }
  }

  lemma TriggerOne(g: Geo, no: nat, c: Ctl, l: Addr)
    requires GeoOk(g) && c.swOff + 1 < g.P && l.off < g.P && WriteCtl(g, no, c, l).0 == Fine
    requires ToRw(g, c, l) && !Collects(g, c, l) && RESERV_ISOL_BLK < c.isolFree < g.ISOL - 1
    ensures var t, u := c.tune, WriteCtl(g, no, c, l).1.tune;
            if t.trigger + 1 >= 2 * (t.interval + no) then MergesNow(g, no, c, l) && u.trigger == 0
            else !MergesNow(g, no, c, l) && u.trigger == t.trigger + 1
  {
    hide WriteCtl, Collects, ToRw;
    TuneOne(g, no, c, l);
  }
}
