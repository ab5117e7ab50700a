/**
 Runs of page writes on the control states of FASTer banks: which of them succeed, and what the correlated reference
 (ftl_faster/ftl.c, is_ok_write_to_sw_logblk) knows of the writes so far.
 */
module FasterRuns {
  import opened Common
  import opened FasterState
  import opened FasterSteps
  import opened FasterGc
  import opened FasterControl
  import opened FlatDisk
  import opened Striping

  // ----- one write -----

  /** A write that makes no collection and does not fill the SW log block merges a victim page now. */
  predicate MergesNow(g: Geo, no: nat, c: Ctl, l: Addr) {
    && !Collects(g, c, l) && !FillsSw(g, c, l)
    && (c.isolFree <= RESERV_ISOL_BLK || (c.isolFree < g.ISOL - 1 && ToRw(g, c, l) && Due(no, c.tune)))
  }

  /**
   When a page write succeeds: if it collects, exactly when the isolation area has room for the cold pages
   of the block that is collected at last; if it merges, exactly when the victim pointer is not stuck;
   otherwise always.
   */
  lemma WriteOutcome(g: Geo, no: nat, c: Ctl, l: Addr)
    requires GeoOk(g) && c.swOff + 1 < g.P && l.off < g.P
    ensures WriteCtl(g, no, c, l).0 ==
              if Collects(g, c, l) then CollectOutcome(g, Turn(g, c.(rwFree := 0)))
              else if MergesNow(g, no, c, l) && Stuck(g, c.iv) then AssertFails
              else Fine
  {
    hide Turn, CollectOutcome, CollectedCtl, Keep, SwCopied, Tuned;
    var c1 := c.(tune := c.tune.(writes := c.tune.writes + 1), corr := Decide(g, c.corr, c.swLbn, c.swOff, l).1);
    if Collects(g, c, l) {
      TurnAny(g, c.(rwFree := 0), c1.(rwFree := 0));
      assert PrepareCtl(g, c.(tune := c1.tune), l) == AssignCtl(g, c1);
    }
  }

  /** The block collected at last depends on the tables and the write pointer only. */
  lemma {:induction false} TurnAny(g: Geo, c: Ctl, d: Ctl)
    requires 2 <= g.K && 2 <= g.P
    requires d.hm == c.hm && d.sc == c.sc && d.rw == c.rw && d.ic == c.ic && d.iv == c.iv && d.isolFree == c.isolFree
    ensures Turn(g, d).sc == Turn(g, c).sc && Turn(g, d).rw == Turn(g, c).rw
    ensures CollectOutcome(g, Turn(g, d)) == CollectOutcome(g, Turn(g, c))
    decreases |Unmarked(g, c.sc)|
  {
    if AllWarm(g, c.hm, c.sc, RwVictim(g, c.rw)) {
      MarkedOne(g, c.hm, c.sc, RwVictim(g, c.rw));
      TurnAny(g, Chance(g, c), Chance(g, d));
    }
  }

  /**
   A page that is not erased is programmed exactly when no victim page has been merged yet, one isolation
   block is free, and the collection needs two.
   */
  lemma OverrunsWhen(g: Geo, no: nat, c: Ctl, l: Addr)
    requires GeoOk(g) && c.swOff + 1 < g.P && l.off < g.P && 1 <= c.isolFree
    ensures WriteCtl(g, no, c, l).0 == Overrun <==>
              Collects(g, c, l) && c.iv.None? && c.isolFree == 1 && NeededNow(g, Turn(g, c.(rwFree := 0))) == 2
  {
    hide WriteCtl, Turn, NeededNow;
    WriteOutcome(g, no, c, l);
    var d := Turn(g, c.(rwFree := 0));
    assert NeededNow(g, d) <= 2 by { NeedsTwo(g, d); }
  }

  lemma NeedsTwo(g: Geo, c: Ctl)
    requires 0 < g.P
    ensures NeededNow(g, c) <= 2
  {
  }

  /** Neither a collection nor a merge can fail now. */
  predicate Healthy(g: Geo, c: Ctl) {
    2 <= Room(g, c.isolFree, c.iv) && !Stuck(g, c.iv)
  }

  lemma HealthyWrites(g: Geo, no: nat, c: Ctl, l: Addr)
    requires GeoOk(g) && c.swOff + 1 < g.P && l.off < g.P && Healthy(g, c)
    ensures WriteCtl(g, no, c, l).0 == Fine
  {
    WriteOutcome(g, no, c, l);
  }

  // ----- runs on one bank -----

  /** The lpns ls are written one after the other. */
  ghost function WritesCtl(g: Geo, no: nat, c: Ctl, ls: seq<Addr>): (Outcome, Ctl)
    requires GeoOk(g)
  {
    if ls == [] then (Fine, c)
    else
      var (r, d) := WritesCtl(g, no, c, ls[..|ls| - 1]);
      if r != Fine then (r, d) else WriteCtl(g, no, d, ls[|ls| - 1])
  }

  /** A run that has failed stays failed. */
  lemma {:induction false} WritesFailed(g: Geo, no: nat, c: Ctl, ls: seq<Addr>, n: nat)
    requires GeoOk(g) && n <= |ls| && WritesCtl(g, no, c, ls[..n]).0 != Fine
    ensures WritesCtl(g, no, c, ls).0 == WritesCtl(g, no, c, ls[..n]).0
  {
    if n == |ls| {
      assert ls[..n] == ls;
    } else {
      assert ls[..|ls| - 1][..n] == ls[..n];
      WritesFailed(g, no, c, ls[..|ls| - 1], n);
    }
  }

  lemma WritesNone(g: Geo, no: nat, c: Ctl)
    requires GeoOk(g)
    ensures WritesCtl(g, no, c, []) == (Fine, c)
  {
  }

  /** One write more. */
  lemma WritesOn(g: Geo, no: nat, c: Ctl, ls: seq<Addr>, i: nat)
    requires GeoOk(g) && i < |ls| && WritesCtl(g, no, c, ls[..i]).0 == Fine
    ensures WritesCtl(g, no, c, ls[..i + 1]) == WriteCtl(g, no, WritesCtl(g, no, c, ls[..i]).1, ls[i])
  {
    assert ls[..i + 1][..i] == ls[..i];
  }

  /** After at most n writes, none of which has merged or collected anything. */
  ghost predicate Early(g: Geo, c: Ctl, n: nat) {
    && c.iv.None? && c.isolFree == g.ISOL && c.swOff + 1 < g.P && 1 <= c.rwFree
    && if c.rw.blk == 0 then c.rw.off + 1 == g.P && c.rwFree + 1 == g.K
       else
         && 1 <= c.rw.blk && c.rw.off + 2 <= g.P && c.rw.blk + c.rwFree == g.K
         && (c.rw.blk - 1) * (g.P - 1) + c.rw.off + 1 <= n
  }

  lemma EarlyWrite(g: Geo, no: nat, c: Ctl, l: Addr, n: nat)
    requires GeoOk(g) && Early(g, c, n) && n < (g.K - 1) * (g.P - 1) && l.off < g.P
    ensures WriteCtl(g, no, c, l).0 == Fine && Early(g, WriteCtl(g, no, c, l).1, n + 1)
  {
    hide Turn, CollectOutcome, CollectedCtl, Keep, SwCopied, Tuned;
    WriteOutcome(g, no, c, l);
    if c.rw.blk != 0 {
      MulOrder(g.K - 1, c.rw.blk, g.P - 1);
      assert c.rw.blk * (g.P - 1) == (c.rw.blk - 1) * (g.P - 1) + (g.P - 1);
    }
  }

  /** From format on, the first (K - 1) * (P - 1) writes to a bank always succeed, whatever they are. */
  lemma {:induction false} FreshWrites(g: Geo, no: nat, ls: seq<Addr>)
    requires GeoOk(g) && |ls| <= (g.K - 1) * (g.P - 1) && forall i :: 0 <= i < |ls| ==> ls[i].off < g.P
    ensures WritesCtl(g, no, Fresh(g), ls).0 == Fine && Early(g, WritesCtl(g, no, Fresh(g), ls).1, |ls|)
  {
    if ls != [] {
      FreshWrites(g, no, ls[..|ls| - 1]);
      EarlyWrite(g, no, WritesCtl(g, no, Fresh(g), ls[..|ls| - 1]).1, ls[|ls| - 1], |ls| - 1);
    }
  }

  // ----- runs on the whole device -----

  /** Banks of one device differ in nothing but the number of log blocks lost to bad blocks. */
  predicate Alike(g: Geo, h: Geo) {
    GeoOk(h) && h == g.(K := h.K)
  }

  predicate AllAlike(g: Geo, gs: seq<Geo>) {
    4 <= g.P && 1 <= g.S && 0 < |gs| && forall i :: 0 <= i < |gs| ==> Alike(g, gs[i])
  }

  /** n pages from lpn on are written; pages go round the banks. */
  ghost function PagesCtl(g: Geo, gs: seq<Geo>, cs: seq<Ctl>, lpn: nat, n: nat): (r: (Outcome, seq<Ctl>))
    requires AllAlike(g, gs) && |cs| == |gs|
    ensures |r.1| == |cs|
  {
    if n == 0 then (Fine, cs)
    else
      var (r, ds) := PagesCtl(g, gs, cs, lpn, n - 1);
      var k := BankOf(|gs|, lpn + n - 1);
      if r != Fine then (r, ds)
      else var (r', d) := WriteCtl(gs[k], k, ds[k], AddrOf(|gs|, g.P, lpn + n - 1)); (r', ds[k := d])
  }

  /** A sequence of host commands. */
  ghost function RunCtl(g: Geo, gs: seq<Geo>, cs: seq<Ctl>, cmds: seq<Cmd>): (r: (Outcome, seq<Ctl>))
    requires AllAlike(g, gs) && |cs| == |gs|
    ensures |r.1| == |cs|
  {
    if cmds == [] then (Fine, cs)
    else
      var (r, ds) := RunCtl(g, gs, cs, cmds[..|cmds| - 1]);
      match cmds[|cmds| - 1]
      case Read(_, _) => (r, ds)
      case Write(lba, data) => if r != Fine then (r, ds)
        else PagesCtl(g, gs, ds, PageIn(g.S, lba), PageCount(g.S, lba, |data|))
  }

  lemma PagesNone(g: Geo, gs: seq<Geo>, cs: seq<Ctl>, lpn: nat)
    requires AllAlike(g, gs) && |cs| == |gs|
    ensures PagesCtl(g, gs, cs, lpn, 0) == (Fine, cs)
    ensures forall lba :: PageCount(g.S, lba, 0) == 0
    ensures forall lba, n :: 0 < n ==> 0 < PageCount(g.S, lba, n)
  {
  }

  /** One page more, and what a failing page means for all. */
  lemma PagesOn(g: Geo, gs: seq<Geo>, cs: seq<Ctl>, lpn: nat, n: nat, all: nat, r: Outcome)
    requires AllAlike(g, gs) && |cs| == |gs| && n < all && PagesCtl(g, gs, cs, lpn, n).0 == Fine
    requires var k := BankOf(|gs|, lpn + n);
             r == WriteCtl(gs[k], k, PagesCtl(g, gs, cs, lpn, n).1[k], AddrOf(|gs|, g.P, lpn + n)).0
    ensures var k := BankOf(|gs|, lpn + n);
            var ds := PagesCtl(g, gs, cs, lpn, n).1;
            PagesCtl(g, gs, cs, lpn, n + 1) == (r, ds[k := WriteCtl(gs[k], k, ds[k], AddrOf(|gs|, g.P, lpn + n)).1])
    ensures r != Fine ==> PagesCtl(g, gs, cs, lpn, all).0 == r
    decreases all
  {
    hide WriteCtl;
    if all > n + 1 { PagesOn(g, gs, cs, lpn, n, all - 1, r); }
  }

  lemma RunNone(g: Geo, gs: seq<Geo>, cs: seq<Ctl>)
    requires AllAlike(g, gs) && |cs| == |gs|
    ensures RunCtl(g, gs, cs, []) == (Fine, cs)
  {
  }

  /** One command more. */
  lemma RunOn(g: Geo, gs: seq<Geo>, cs: seq<Ctl>, cmds: seq<Cmd>, i: nat)
    requires AllAlike(g, gs) && |cs| == |gs| && i < |cmds| && RunCtl(g, gs, cs, cmds[..i]).0 == Fine
    ensures var ds := RunCtl(g, gs, cs, cmds[..i]).1;
            RunCtl(g, gs, cs, cmds[..i + 1]) ==
              match cmds[i]
              case Read(_, _) => (Fine, ds)
              case Write(lba, data) => PagesCtl(g, gs, ds, PageIn(g.S, lba), PageCount(g.S, lba, |data|))
  {
    assert cmds[..i + 1][..i] == cmds[..i];
  }

  /** A run that has failed stays failed. */
  lemma {:induction false} RunFailed(g: Geo, gs: seq<Geo>, cs: seq<Ctl>, cmds: seq<Cmd>, n: nat)
    requires AllAlike(g, gs) && |cs| == |gs| && n <= |cmds|
    requires RunCtl(g, gs, cs, cmds[..n]).0 != Fine
    ensures RunCtl(g, gs, cs, cmds).0 == RunCtl(g, gs, cs, cmds[..n]).0
    decreases |cmds|
  {
    if n == |cmds| {
      assert cmds[..n] == cmds;
    } else {
      assert cmds[..|cmds| - 1][..n] == cmds[..n];
      RunFailed(g, gs, cs, cmds[..|cmds| - 1], n);
    }
  }

  /** NB pages in a row lie in NB different banks. */
  lemma NextBanks(NB: nat, a: nat, b: nat)
    requires a < b < a + NB
    ensures BankOf(NB, a) != BankOf(NB, b)
  {
    if a % NB == b % NB {
      MulOrder(b / NB, a / NB, NB);
      MulOrder(a / NB, b / NB, NB);
    }
  }

  /** A page write to a healthy bank, the others being left alone. */
  lemma HealthyPage(g: Geo, gs: seq<Geo>, cs: seq<Ctl>, lpn: nat, n: nat)
    requires AllAlike(g, gs) && |cs| == |gs| && 0 < n && PagesCtl(g, gs, cs, lpn, n - 1).0 == Fine
    requires var k := BankOf(|gs|, lpn + n - 1);
             var c := PagesCtl(g, gs, cs, lpn, n - 1).1[k]; Healthy(gs[k], c) && c.swOff + 1 < g.P
    ensures PagesCtl(g, gs, cs, lpn, n).0 == Fine
    ensures forall i :: 0 <= i < |gs| && i != BankOf(|gs|, lpn + n - 1) ==>
              PagesCtl(g, gs, cs, lpn, n).1[i] == PagesCtl(g, gs, cs, lpn, n - 1).1[i]
  {
    hide WriteCtl, Healthy;
    var k := BankOf(|gs|, lpn + n - 1);
    LpnRoundTrip(|gs|, g.P, lpn + n - 1);
    HealthyWrites(gs[k], k, PagesCtl(g, gs, cs, lpn, n - 1).1[k], AddrOf(|gs|, g.P, lpn + n - 1));
  }

  /** A write of at most one page to each bank succeeds when the banks it goes to are healthy. */
  lemma {:induction false} OncePerBank(g: Geo, gs: seq<Geo>, cs: seq<Ctl>, lpn: nat, n: nat)
    requires AllAlike(g, gs) && |cs| == |gs| && n <= |gs|
    requires forall i :: 0 <= i < |cs| ==> Healthy(gs[i], cs[i]) && cs[i].swOff + 1 < g.P
    ensures PagesCtl(g, gs, cs, lpn, n).0 == Fine
    ensures forall k {:trigger BankOf(|gs|, k)} :: lpn + n <= k < lpn + |gs| ==>
            PagesCtl(g, gs, cs, lpn, n).1[BankOf(|gs|, k)] == cs[BankOf(|gs|, k)]
  {
    hide WriteCtl, PagesCtl, Healthy, BankOf, AddrOf;
    if n == 0 {
      PagesNone(g, gs, cs, lpn);
    } else {
      OncePerBank(g, gs, cs, lpn, n - 1);
      LpnParts(|gs|, lpn + n - 1);
      HealthyPage(g, gs, cs, lpn, n);
      forall j | lpn + n <= j < lpn + |gs|
        ensures PagesCtl(g, gs, cs, lpn, n).1[BankOf(|gs|, j)] == cs[BankOf(|gs|, j)] {
        LpnParts(|gs|, j);
        NextBanks(|gs|, lpn + n - 1, j);
      }
    }
  }

  // ----- what the correlated reference knows -----

  /** A call of is_ok_write_to_sw_logblk for lpn l, while the SW log block serves block swLbn up to swOff. */
  datatype Look = Look(l: Addr, swLbn: Option<nat>, swOff: int)

  /** The call is for the block that the SW log block serves, and its lpn is next there, or not. */
  predicate Inside(x: Look) { x.swLbn == Some(x.l.blk) }
  predicate Append(x: Look) { Inside(x) && x.swOff + 1 == x.l.off }

  function CorrAfter(g: Geo, xs: seq<Look>): Corr {
    if xs == [] then Corr(None, 0xABABABAB)
    else var x := xs[|xs| - 1]; Decide(g, CorrAfter(g, xs[..|xs| - 1]), x.swLbn, x.swOff, x.l).1
  }

  /** The lpns noted so far: all but those that miss their place in the SW log block. */
  function Noted(xs: seq<Look>): seq<Addr> {
    if xs == [] then []
    else
      var x := xs[|xs| - 1];
      Noted(xs[..|xs| - 1]) + (if Inside(x) && !Append(x) then [] else [x.l])
  }

  /** How many lpns at the end of ls follow one another. */
  function Streak(g: Geo, ls: seq<Addr>): (r: nat)
    ensures r <= |ls| && (ls != [] ==> 0 < r)
  {
    if |ls| <= 1 then |ls|
    else if Succ(g, ls[|ls| - 2]) == ls[|ls| - 1] then Streak(g, ls[..|ls| - 1]) + 1
    else 1
  }

  /** How many calls for other blocks there have been since one of them broke the sequence, that one included. */
  function Chain(g: Geo, xs: seq<Look>): (r: nat) {
    if xs == [] then 0
    else
      var pre, x := xs[..|xs| - 1], xs[|xs| - 1];
      if Inside(x) then Chain(g, pre)
      else if Noted(pre) != [] && Succ(g, Noted(pre)[|Noted(pre)| - 1]) == x.l then Chain(g, pre) + 1
      else 1
  }

  function Least(a: nat, b: nat): nat { if a < b then a else b }

  /**
   From format on the SW log block serves nobody until a sequence is detected, so the first call is for
   another block.
   */
  predicate FromFormat(xs: seq<Look>) {
    xs != [] ==> !Inside(xs[0])
  }

  /** The counter is the length of the chain, as far as it is counted, and the reference the lpn noted last. */
  lemma {:induction false} CorrMeans(g: Geo, xs: seq<Look>)
    requires FromFormat(xs)
    ensures xs == [] <==> Noted(xs) == []
    ensures CorrAfter(g, xs).ref == if xs == [] then None else Some(Noted(xs)[|Noted(xs)| - 1])
    ensures xs != [] ==> 0 < Chain(g, xs) && CorrAfter(g, xs).cnt == Least(Chain(g, xs), COR_REF_THRESHOLD + 1)
  {
    if xs != [] {
      var pre := xs[..|xs| - 1];
      assert pre != [] ==> pre[0] == xs[0];
      CorrMeans(g, pre);
    }
  }

  /** A sequence is detected exactly when the chain, the new call included, is longer than the threshold and one. */
  lemma DetectMeans(g: Geo, xs: seq<Look>, x: Look)
    requires FromFormat(xs + [x])
    ensures Decide(g, CorrAfter(g, xs), x.swLbn, x.swOff, x.l).0 == SW_DETECT <==>
              !Inside(x) && Chain(g, xs + [x]) > COR_REF_THRESHOLD + 1
  {
    assert xs != [] ==> xs[0] == (xs + [x])[0];
    assert (xs + [x])[..|xs|] == xs;
    CorrMeans(g, xs);
  }

  /** As long as no call is for the block that the SW log block serves, the chain is the streak of the lpns written. */
  lemma {:induction false} ChainIsStreak(g: Geo, xs: seq<Look>)
    requires forall i :: 0 <= i < |xs| ==> !Inside(xs[i])
    ensures |Noted(xs)| == |xs| && forall i :: 0 <= i < |xs| ==> Noted(xs)[i] == xs[i].l
    ensures Chain(g, xs) == Streak(g, Noted(xs))
  {
    if xs != [] {
      var pre := xs[..|xs| - 1];
      ChainIsStreak(g, pre);
      assert !Inside(xs[|xs| - 1]) && Noted(xs) == Noted(pre) + [xs[|xs| - 1].l];
      assert Noted(xs)[..|xs| - 1] == Noted(pre);
      forall i | 0 <= i < |xs| ensures Noted(xs)[i] == xs[i].l { assert i < |pre| ==> xs[i] == pre[i]; }
    }
  }

  /** The lpn of call x, the last of xs, is the one after the lpn noted before. */
  predicate Continues(g: Geo, pre: seq<Look>, x: Look) {
    Noted(pre) != [] && Succ(g, Noted(pre)[|Noted(pre)| - 1]) == x.l
  }

  /** What the chain had come to when an append last broke the sequence. */
  function Lost(g: Geo, xs: seq<Look>): nat {
    if xs == [] then 0
    else
      var pre, x := xs[..|xs| - 1], xs[|xs| - 1];
      if Append(x) && !Continues(g, pre, x) then Chain(g, pre)
      else if Inside(x) || Continues(g, pre, x) then Lost(g, pre)
      else 0
  }

  /** The appends since, that one included. */
  function Gained(g: Geo, xs: seq<Look>): nat {
    if xs == [] then 0
    else
      var pre, x := xs[..|xs| - 1], xs[|xs| - 1];
      if Append(x) then if Continues(g, pre, x) then Gained(g, pre) + 1 else 1
      else if Inside(x) || Continues(g, pre, x) then Gained(g, pre)
      else 0
  }

  /** The streak is the chain without what an append broke off, and with the appends since. */
  lemma {:induction false} StreakIs(g: Geo, xs: seq<Look>)
    requires FromFormat(xs)
    ensures Streak(g, Noted(xs)) + Lost(g, xs) == Chain(g, xs) + Gained(g, xs)
  {
    if xs != [] {
      var pre, x := xs[..|xs| - 1], xs[|xs| - 1];
      assert pre != [] ==> pre[0] == xs[0];
      CorrMeans(g, pre);
      StreakIs(g, pre);
      if Append(x) || !Inside(x) {
        assert Noted(xs)[..|Noted(xs)| - 1] == Noted(pre);
      } else {
        assert Noted(xs) == Noted(pre);
      }
    }
  }

  /**
   When a sequence is detected, more than COR_REF_THRESHOLD + 1 consecutive lpns have been noted if and
   only if the chain has lost no more to an append that broke it than it is over that number, the appends
   since included.
   */
  lemma DetectedStreak(g: Geo, xs: seq<Look>, x: Look)
    requires FromFormat(xs + [x])
    requires Decide(g, CorrAfter(g, xs), x.swLbn, x.swOff, x.l).0 == SW_DETECT
    ensures var ys := xs + [x];
            Streak(g, Noted(ys)) > COR_REF_THRESHOLD + 1 <==>
              COR_REF_THRESHOLD + 1 + Lost(g, ys) < Chain(g, ys) + Gained(g, ys)
    ensures Lost(g, xs) == 0 ==> Streak(g, Noted(xs + [x])) > COR_REF_THRESHOLD + 1
  {
    StreakIs(g, xs + [x]);
    DetectMeans(g, xs, x);
    assert (xs + [x])[..|xs|] == xs;
  }

  /** The chain is within the streak if and only if no more was broken off than there have been appends since. */
  lemma ChainInStreak(g: Geo, xs: seq<Look>)
    requires FromFormat(xs)
    ensures Chain(g, xs) <= Streak(g, Noted(xs)) <==> Lost(g, xs) <= Gained(g, xs)
  {
    StreakIs(g, xs);
  }

  /** The calls that a run of page writes to a formatted bank makes. */
  ghost function Looks(g: Geo, no: nat, ls: seq<Addr>): seq<Look>
    requires GeoOk(g)
  {
    if ls == [] then []
    else
      var pre := ls[..|ls| - 1];
      var c := WritesCtl(g, no, Fresh(g), pre).1;
      Looks(g, no, pre) + [Look(ls[|ls| - 1], c.swLbn, c.swOff)]
  }

  /** So the chain speaks of the writes to the bank since format. */
  lemma {:induction false} CorrOfRun(g: Geo, no: nat, ls: seq<Addr>)
    requires GeoOk(g) && WritesCtl(g, no, Fresh(g), ls).0 == Fine
    ensures WritesCtl(g, no, Fresh(g), ls).1.corr == CorrAfter(g, Looks(g, no, ls)) && FromFormat(Looks(g, no, ls))
  {
    if ls != [] {
      var pre, xs := ls[..|ls| - 1], Looks(g, no, ls);
      CorrOfRun(g, no, pre);
      assert xs[..|xs| - 1] == Looks(g, no, pre);
      CorrKept(g, no, WritesCtl(g, no, Fresh(g), pre).1, ls[|ls| - 1]);
    }
  }

  lemma CorrKept(g: Geo, no: nat, c: Ctl, l: Addr)
    requires GeoOk(g) && WriteCtl(g, no, c, l).0 == Fine
    ensures WriteCtl(g, no, c, l).1.corr == Decide(g, c.corr, c.swLbn, c.swOff, l).1
  {
    hide CollectOutcome, Keep, SwCopied, Tuned, CollectedMap, BitsAfter;
  }

  lemma OneMore(g: Geo, no: nat, c: Ctl, ls: seq<Addr>, l: Addr)
    requires GeoOk(g) && WritesCtl(g, no, c, ls).0 == Fine
    ensures WritesCtl(g, no, c, ls + [l]) == WriteCtl(g, no, WritesCtl(g, no, c, ls).1, l)
  {
    assert (ls + [l])[..|ls|] == ls;
  }

  lemma LooksOn(g: Geo, no: nat, ls: seq<Addr>, l: Addr)
    requires GeoOk(g)
    ensures var c := WritesCtl(g, no, Fresh(g), ls).1;
            Looks(g, no, ls + [l]) == Looks(g, no, ls) + [Look(l, c.swLbn, c.swOff)]
  {
    assert (ls + [l])[..|ls|] == ls;
  }

  /** What becomes of the SW log block, before anything has been collected or merged. */
  lemma SwAfter(g: Geo, no: nat, c: Ctl, l: Addr, n: nat)
    requires GeoOk(g) && Early(g, c, n) && n < (g.K - 1) * (g.P - 1) && l.off < g.P
    ensures var d, w := WriteCtl(g, no, c, l).1, Decide(g, c.corr, c.swLbn, c.swOff, l).0;
            && (w == SW_NO ==> d.swLbn == c.swLbn && d.swOff == c.swOff)
            && (w != SW_NO && l.off + 1 == g.P ==> d.swLbn == None && d.swOff == -1)
            && (w == SW_DETECT && l.off + 1 < g.P ==> d.swLbn == Some(l.blk) && d.swOff == l.off)
  {
    hide Turn, CollectOutcome, CollectedCtl, Keep, Tuned, SwCopied;
    EarlyWrite(g, no, c, l, n);
    if c.rw.blk != 0 {
      MulOrder(g.K - 1, c.rw.blk, g.P - 1);
      assert c.rw.blk * (g.P - 1) == (c.rw.blk - 1) * (g.P - 1) + (g.P - 1);
    }
  }

  /** One write more. */
  lemma SoonStep(g: Geo, no: nat, ls: seq<Addr>, l: Addr)
    requires GeoOk(g) && l.off < g.P && |ls| < (g.K - 1) * (g.P - 1)
    requires WritesCtl(g, no, Fresh(g), ls).0 == Fine && Early(g, WritesCtl(g, no, Fresh(g), ls).1, |ls|)
    ensures var c, d := WritesCtl(g, no, Fresh(g), ls).1, WritesCtl(g, no, Fresh(g), ls + [l]).1;
            var (w, corr) := Decide(g, c.corr, c.swLbn, c.swOff, l);
            && WritesCtl(g, no, Fresh(g), ls + [l]).0 == Fine && Early(g, d, |ls| + 1) && d.corr == corr
            && (w == SW_NO ==> d.swLbn == c.swLbn && d.swOff == c.swOff)
            && (w != SW_NO && l.off + 1 == g.P ==> d.swLbn == None && d.swOff == -1)
            && (w == SW_DETECT && l.off + 1 < g.P ==> d.swLbn == Some(l.blk) && d.swOff == l.off)
            && Looks(g, no, ls + [l]) == Looks(g, no, ls) + [Look(l, c.swLbn, c.swOff)]
  {
    hide WriteCtl, WritesCtl, Looks, Early, Decide, Fresh;
    var c := WritesCtl(g, no, Fresh(g), ls).1;
    OneMore(g, no, Fresh(g), ls, l);
    LooksOn(g, no, ls, l);
    EarlyWrite(g, no, c, l, |ls|);
    CorrKept(g, no, c, l);
    SwAfter(g, no, c, l, |ls|);
  }

  /** The run so far has been noted in full, and this is what is known of it. */
  ghost predicate Soon(g: Geo, no: nat, ls: seq<Addr>, swLbn: Option<nat>, swOff: int, corr: Corr) {
    && GeoOk(g) && WritesCtl(g, no, Fresh(g), ls).0 == Fine && Early(g, WritesCtl(g, no, Fresh(g), ls).1, |ls|)
    && Noted(Looks(g, no, ls)) == ls
    && var c := WritesCtl(g, no, Fresh(g), ls).1; c.swLbn == swLbn && c.swOff == swOff && c.corr == corr
  }

  /** And after one lpn more. */
  lemma SoonOn(g: Geo, no: nat, ls: seq<Addr>, swLbn: Option<nat>, swOff: int, corr: Corr, l: Addr)
    requires Soon(g, no, ls, swLbn, swOff, corr) && |ls| <= 12 && l.off < g.P
    requires swLbn == Some(l.blk) ==> swOff + 1 == l.off == g.P - 1
    ensures var (w, corr') := Decide(g, corr, swLbn, swOff, l);
            if w == SW_NO then Soon(g, no, ls + [l], swLbn, swOff, corr')
            else if l.off + 1 == g.P then Soon(g, no, ls + [l], None, -1, corr')
            else Soon(g, no, ls + [l], Some(l.blk), l.off, corr')
  {
    hide WritesCtl, Early, Looks;
    SoonRoom(g);
    SoonStep(g, no, ls, l);
    var xs, x := Looks(g, no, ls), Look(l, swLbn, swOff);
    assert (xs + [x])[..|xs|] == xs;
  }

  lemma SoonRoom(g: Geo)
    requires GeoOk(g)
    ensures 12 < (g.K - 1) * (g.P - 1)
  {
    MulOrder(1, g.K - 1, g.P - 1);
  }

  /**
   Five pages before the last but one of block 1, and that one, which is taken for the sixth of a sequence;
   five pages of block 0; the last page of block 1, and the page behind it.
   */
  function SoonRun(g: Geo): seq<Addr>
    requires 8 <= g.P
  {
    [Addr(1, g.P - 7), Addr(1, g.P - 6), Addr(1, g.P - 5), Addr(1, g.P - 4), Addr(1, g.P - 3), Addr(1, g.P - 2),
     Addr(0, 0), Addr(0, 1), Addr(0, 2), Addr(0, 3), Addr(0, 4), Addr(1, g.P - 1)]
  }

  lemma SoonFirst(g: Geo, no: nat)
    requires GeoOk(g)
    ensures Soon(g, no, SoonRun(g)[..6], Some(1), g.P - 2, Corr(Some(Addr(1, g.P - 2)), 5))
  {
    hide Soon, Early, Looks, WritesCtl;
    var ls := SoonRun(g);
    SoonFormat(g, no);
    SoonOn(g, no, [], None, -1, Corr(None, 0xABABABAB), ls[0]);
    assert [] + [ls[0]] == ls[..1];
    SoonOn(g, no, ls[..1], None, -1, Corr(Some(ls[0]), 1), ls[1]);
    assert ls[..1] + [ls[1]] == ls[..2];
    SoonOn(g, no, ls[..2], None, -1, Corr(Some(ls[1]), 2), ls[2]);
    assert ls[..2] + [ls[2]] == ls[..3];
    SoonOn(g, no, ls[..3], None, -1, Corr(Some(ls[2]), 3), ls[3]);
    assert ls[..3] + [ls[3]] == ls[..4];
    SoonOn(g, no, ls[..4], None, -1, Corr(Some(ls[3]), 4), ls[4]);
    assert ls[..4] + [ls[4]] == ls[..5];
    SoonOn(g, no, ls[..5], None, -1, Corr(Some(ls[4]), 5), ls[5]);
    assert ls[..5] + [ls[5]] == ls[..6];
  }

  lemma SoonFormat(g: Geo, no: nat)
    requires GeoOk(g)
    ensures Soon(g, no, [], None, -1, Corr(None, 0xABABABAB))
  {
    WritesNone(g, no, Fresh(g));
  }

  lemma SoonLast(g: Geo, no: nat)
    requires GeoOk(g)
    ensures Soon(g, no, SoonRun(g), None, -1, Corr(Some(Addr(1, g.P - 1)), 5))
  {
    hide Soon, Early, Looks, WritesCtl;
    var ls, o := SoonRun(g), g.P - 2;
    SoonFirst(g, no);
    SoonOn(g, no, ls[..6], Some(1), o, Corr(Some(ls[5]), 5), ls[6]);
    assert ls[..6] + [ls[6]] == ls[..7];
    SoonOn(g, no, ls[..7], Some(1), o, Corr(Some(ls[6]), 1), ls[7]);
    assert ls[..7] + [ls[7]] == ls[..8];
    SoonOn(g, no, ls[..8], Some(1), o, Corr(Some(ls[7]), 2), ls[8]);
    assert ls[..8] + [ls[8]] == ls[..9];
    SoonOn(g, no, ls[..9], Some(1), o, Corr(Some(ls[8]), 3), ls[9]);
    assert ls[..9] + [ls[9]] == ls[..10];
    SoonOn(g, no, ls[..10], Some(1), o, Corr(Some(ls[9]), 4), ls[10]);
    assert ls[..10] + [ls[10]] == ls[..11];
    SoonOn(g, no, ls[..11], Some(1), o, Corr(Some(ls[10]), 5), ls[11]);
    assert ls[..11] + [ls[11]] == ls;
  }

  /**
   The design is that more than COR_REF_THRESHOLD consecutive lpns make a sequence.  An append that does
   not follow the lpn noted before it leaves the counter alone: from format on, these writes come to where
   the page behind the last page of the SW log block is taken for part of a sequence, though only the two
   of them are consecutive.
   */
  lemma DetectsTooSoon(g: Geo, no: nat)
    requires GeoOk(g)
    ensures var c, l := WritesCtl(g, no, Fresh(g), SoonRun(g)).1, Addr(2, 0);
            && WritesCtl(g, no, Fresh(g), SoonRun(g)).0 == Fine
            && Decide(g, c.corr, c.swLbn, c.swOff, l).0 == SW_DETECT
            && Streak(g, Noted(Looks(g, no, SoonRun(g) + [l]))) == 2
  {
    hide WritesCtl, Early, Looks;
    var ls, l := SoonRun(g), Addr(2, 0);
    SoonLast(g, no);
    SoonOn(g, no, ls, None, -1, Corr(Some(Addr(1, g.P - 1)), 5), l);
    var ks := ls + [l];
    assert ks[|ks| - 2] == Addr(1, g.P - 1) && ks[..|ks| - 1] == ls && ls[|ls| - 2] == Addr(0, 4);
  }
}
