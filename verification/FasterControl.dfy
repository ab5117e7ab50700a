/**
 What decides where the FASTer FTL puts and moves pages (ftl_faster/ftl.c): the hash table, the
 second-chance bits and the pointers and counters of a bank, without its contents.  A page write
 takes this state to the next one, or fails.
 */
module FasterControl {
  import opened Common
  import opened FasterState
  import opened FasterSteps
  import opened FasterCapacity
  import opened FasterGc

  const RESERV_ISOL_BLK: nat := 2
  const COR_REF_THRESHOLD: nat := 4
  const SW_LOG_LBN: nat := 0

  /** How a step ends: as it should, at a failing ASSERT, or having programmed a page that was not erased. */
  datatype Outcome = Fine | AssertFails | Overrun

  datatype SwDecision = SW_APPEND | SW_DETECT | SW_NO

  /** corr_ref: the lpn last noted, None for INVALID, and the counter. */
  datatype Corr = Corr(ref: Option<Addr>, cnt: nat)

  /**
   write_before_pmerge, pmerge_trigger, pmerge_interval, base_pmerge_interval and
   g_inc_pmerge_interval_flag: they tune how often isolated pages are merged.
   */
  datatype Tuning = Tuning(writes: nat, trigger: nat, interval: nat, base: nat, inc: bool)

  datatype Ctl = Ctl(
    hm: map<Addr, Addr>, sc: set<Addr>,
    swOff: int, swLbn: Option<nat>, corr: Corr,
    rw: Addr, rwFree: nat, ic: Option<Addr>, iv: Option<Addr>, isolFree: nat,
    tune: Tuning)

  /** What format leaves. */
  function Fresh(g: Geo): Ctl
    requires GeoOk(g)
  {
    Ctl(map[], {}, -1, None, Corr(None, 0xABABABAB), Addr(0, g.P - 1), g.K - 1, None, None, g.ISOL,
        Tuning(0, 0, g.P / 4, g.P / 4, false))
  }

  // ----- is_ok_write_to_sw_logblk -----

  /** l is the lpn right after the remembered one. */
  predicate Follows(g: Geo, x: Option<Addr>, l: Addr) {
    x.Some? && Succ(g, x.value) == l
  }

  /**
   Where lpn l is to be written while the SW log block serves data block swLbn up to swOff, and what is
   noted of it.
   */
  function Decide(g: Geo, corr: Corr, swLbn: Option<nat>, swOff: int, l: Addr): (SwDecision, Corr) {
    if swLbn == Some(l.blk) then
      if swOff + 1 == l.off then (SW_APPEND, corr.(ref := Some(l))) else (SW_NO, corr)
    else if Follows(g, corr.ref, l) then
      if corr.cnt > COR_REF_THRESHOLD then (SW_DETECT, corr.(ref := Some(l))) else (SW_NO, Corr(Some(l), corr.cnt + 1))
    else (SW_NO, Corr(Some(l), 1))
  }

  // ----- merges -----

  /** A switch or partial merge, if the SW log block serves a data block. */
  ghost function SwMergedCtl(g: Geo, c: Ctl): Ctl {
    if c.swLbn.None? then c
    else c.(hm := Keep(c.hm, c.swLbn.value, c.swOff + 1, g.P), swOff := -1, swLbn := None)
  }

  /** The lpn whose current page is the one at log address x. */
  ghost function Owner(hm: map<Addr, Addr>, x: Addr): (r: Option<Addr>)
    ensures r.Some? ==> r.value in hm && hm[r.value] == x
    ensures r.None? ==> !LiveAt(hm, x)
  {
    if LiveAt(hm, x) then var l :| l in hm && hm[l] == x; Some(l) else None
  }

  /** The offset of the next live page of isolation block i from o on; the last data page if there is none. */
  ghost function NextLive(g: Geo, hm: map<Addr, Addr>, i: nat, o: nat): (r: nat)
    ensures o + 1 < g.P ==> o <= r && r + 1 < g.P
    decreases g.P - o
  {
    if g.P <= o + 2 || LiveAt(hm, Addr(g.LOG + i, o)) then o else NextLive(g, hm, i, o + 1)
  }

  /** The victim block has been passed to its last data page: it is free again, and the pointer skips the lpn list. */
  function VictimRecycled(g: Geo, c: Ctl): Ctl {
    c.(iv := Some(IsolSucc(g, c.iv)), isolFree := c.isolFree + 1)
  }

  /** The victim pointer rests on the last data page of a block that has not been recycled. */
  predicate Stuck(g: Geo, iv: Option<Addr>) {
    iv.Some? && iv.value.off + 2 == g.P
  }

  /** Data block L has been merged, and the victim block recycled if the pointer is at its end. */
  ghost function BlockMerged(g: Geo, c: Ctl, L: nat): Ctl {
    var d := c.(hm := Keep(c.hm, L, 0, g.P));
    if Stuck(g, c.iv) then VictimRecycled(g, d) else d
  }

  /** A full merge when the victim page is live for lpn k. */
  ghost function VictimMergedCtl(g: Geo, c: Ctl, k: Addr): Ctl {
    var d := if c.swLbn == Some(k.blk) then SwMergedCtl(g, c) else c;
    if k !in d.hm then d else BlockMerged(g, d, k.blk)
  }

  /** full_merge. */
  ghost function FullMergeCtl(g: Geo, c: Ctl): (Outcome, Ctl) {
    if Stuck(g, c.iv) then (AssertFails, c)
    else
      var v := IsolSucc(g, c.iv);
      var x := Addr(v.blk, NextLive(g, c.hm, v.blk, v.off));
      var k := Owner(c.hm, InIsol(g, x));
      var d := c.(iv := Some(x));
      (Fine, if k.Some? then VictimMergedCtl(g, d, k.value) else VictimRecycled(g, d))
  }

  /**
   The next live victim page is the last data page of its block, and its lpn belongs to the data block that
   the SW log block serves, behind what has been written there.
   */
  ghost predicate TurnsBack(g: Geo, c: Ctl)
    requires 2 <= g.P
  {
    var v := IsolSucc(g, c.iv);
    && NextLive(g, c.hm, v.blk, v.off) + 2 == g.P
    && exists k :: k in c.hm && c.hm[k] == InIsol(g, Addr(v.blk, g.P - 2)) && c.swLbn == Some(k.blk) && c.swOff < k.off
  }

  /** No two lpns share a page, and lpns are within their data blocks. */
  ghost predicate OneToOne(g: Geo, hm: map<Addr, Addr>) {
    && (forall k, l :: k in hm && l in hm && hm[k] == hm[l] ==> k == l)
    && forall l :: l in hm ==> l.off < g.P
  }

  lemma OwnerIs(g: Geo, hm: map<Addr, Addr>, x: Addr, k: Addr)
    requires OneToOne(g, hm) && k in hm && hm[k] == x
    ensures Owner(hm, x) == Some(k)
  {
    assert LiveAt(hm, x);
  }

  /**
   A full merge leaves the victim pointer stuck exactly when it turns back on the last data page of the
   victim block.
   */
  lemma StuckAfter(g: Geo, c: Ctl)
    requires GeoOk(g) && OneToOne(g, c.hm) && !Stuck(g, c.iv) && (c.iv.Some? ==> c.iv.value.off < g.P)
    ensures FullMergeCtl(g, c).0 == Fine
    ensures Stuck(g, FullMergeCtl(g, c).1.iv) <==> TurnsBack(g, c)
  {
    var v := IsolSucc(g, c.iv);
    var x := Addr(v.blk, NextLive(g, c.hm, v.blk, v.off));
    var k := Owner(c.hm, InIsol(g, x));
    forall l | l in c.hm && c.hm[l] == InIsol(g, x) ensures k == Some(l) { OwnerIs(g, c.hm, InIsol(g, x), l); }
    if k.None? { NoneLive(g, c.hm, v.blk, v.off); }
  }

  /** The search goes past the last data page only if no page is live. */
  lemma NoneLive(g: Geo, hm: map<Addr, Addr>, i: nat, o: nat)
    requires o + 1 < g.P && !LiveAt(hm, InIsol(g, Addr(i, NextLive(g, hm, i, o))))
    ensures NextLive(g, hm, i, o) + 2 == g.P
    decreases g.P - o
  {
    if o + 2 < g.P && !LiveAt(hm, Addr(g.LOG + i, o)) { NoneLive(g, hm, i, o + 1); }
  }

  // ----- garbage collection -----

  /** The block whose turn it is gets its second chance, and the next one is up. */
  ghost function Chance(g: Geo, c: Ctl): Ctl
    requires 2 <= g.K && 0 < g.P
  {
    var b := RwVictim(g, c.rw);
    c.(sc := c.sc + Row(b, g.P), rw := Addr(RwVictim(g, Addr(b, 0)) - 1, g.P - 1))
  }

  /**
   The state in which a block is collected at last: those before it in turn are all live and get their
   second chance.
   */
  ghost function Turn(g: Geo, c: Ctl): (r: Ctl)
    requires 2 <= g.K && 2 <= g.P
    ensures !AllWarm(g, r.hm, r.sc, RwVictim(g, r.rw))
    ensures r == c.(sc := r.sc, rw := r.rw)
    decreases |Unmarked(g, c.sc)|
  {
    if AllWarm(g, c.hm, c.sc, RwVictim(g, c.rw)) then
      MarkedOne(g, c.hm, c.sc, RwVictim(g, c.rw));
      Turn(g, Chance(g, c))
    else c
  }

  /** The isolation blocks that collecting the block whose turn it is needs. */
  ghost function NeededNow(g: Geo, c: Ctl): int
    requires 0 < g.P
  {
    Needed(g, IsolSucc(g, c.ic).off, Moves(g, c.hm, c.sc, RwVictim(g, c.rw)))
  }

  /**
   How moving pages to the isolation area ends when it needs need blocks.  With the victim pointer still at
   its initial value no ASSERT compares it with anything, and the oldest isolation block is programmed
   over.
   */
  function RoomOutcome(g: Geo, need: int, isolFree: nat, iv: Option<Addr>): Outcome {
    if need <= Room(g, isolFree, iv) then Fine else if iv.None? then Overrun else AssertFails
  }

  /** How collecting the block whose turn it is ends. */
  ghost function CollectOutcome(g: Geo, c: Ctl): Outcome
    requires 0 < g.P
  {
    RoomOutcome(g, NeededNow(g, c), c.isolFree, c.iv)
  }

  /** The number of live pages of the victim that stay in the log. */
  ghost function Kept(g: Geo, c: Ctl): nat
    requires 0 < g.P
  {
    var b := RwVictim(g, c.rw);
    MovesAre(g, c.hm, c.sc, b);
    SubsetSize(ColdIn(c.hm, Movers(g, c.hm, c.sc, b), b, g.P - 1), LiveIn(c.hm, b, g.P - 1));
    |LiveIn(c.hm, b, g.P - 1)| - Moves(g, c.hm, c.sc, b)
  }

  /** The second-chance bits after the collection of block b with f pages kept. */
  ghost function BitsAfter(g: Geo, hm: map<Addr, Addr>, sc: set<Addr>, b: nat, f: nat): set<Addr>
    requires 0 < g.P
  {
    var live := |LiveIn(hm, b, g.P - 1)|;
    if live == 0 then sc else ScAfter(sc, b, f, if live < g.P / 2 then g.P else g.P - 1)
  }

  /** The free isolation blocks after k pages have been moved, the first of them to offset c. */
  function FreeAfter(g: Geo, c: nat, isolFree: nat, k: nat): nat {
    if c + k < g.P || isolFree == 0 then isolFree else isolFree - 1
  }

  lemma NoneMoved(g: Geo, c: Ctl)
    requires 2 <= g.P && |LiveIn(c.hm, RwVictim(g, c.rw), g.P - 1)| < g.P / 2
    requires 1 <= c.isolFree && IsolSucc(g, c.ic).off < g.P
    ensures CollectOutcome(g, c) == Fine && Moves(g, c.hm, c.sc, RwVictim(g, c.rw)) == 0
    ensures FreeAfter(g, IsolSucc(g, c.ic).off, c.isolFree, 0) == c.isolFree
  {
  }

  /** When room runs out for page k of n, it runs out for all n. */
  lemma RoomLess(g: Geo, now: int, isolFree: nat, c: nat, k: nat, n: nat, isolFree0: nat, iv: Option<Addr>)
    requires k <= n && (Room(g, isolFree, iv) < now ==> Room(g, isolFree0, iv) < Needed(g, c, k))
    ensures RoomOutcome(g, now, isolFree, iv) != Fine ==>
              RoomOutcome(g, now, isolFree, iv) == RoomOutcome(g, Needed(g, c, n), isolFree0, iv)
    ensures RoomOutcome(g, now, isolFree, iv) == Fine ==> now <= Room(g, isolFree, iv)
  {
  }

  lemma AllMoved(g: Geo, c: nat, isolFree: nat, k: nat, c': nat, isolFree': nat, iv: Option<Addr>)
    requires MovedOn(g, c, isolFree, k, c', isolFree') && Needed(g, c, k) <= Room(g, isolFree, iv)
    ensures isolFree' == FreeAfter(g, c, isolFree, k) && RoomOutcome(g, Needed(g, c, k), isolFree, iv) == Fine
  {
  }

  /** The replacement of a victim is never filled up: something was dead, or cold. */
  lemma KeptRoom(g: Geo, c: Ctl, list: seq<Option<Addr>>)
    requires 4 <= g.P && LiveList(c.hm, RwVictim(g, c.rw), list, g.P - 1)
    requires var b := RwVictim(g, c.rw);
             |LiveIn(c.hm, b, g.P - 1)| < g.P - 1 || |ColdIn(c.hm, c.sc, b, g.P - 1)| > 0
    ensures Kept(g, c) + 1 < g.P
  {
    LiveBound(c.hm, c.sc, RwVictim(g, c.rw), list, g.P - 1);
  }

  /** The block has been collected, and its replacement is written on. */
  ghost function CollectedCtl(g: Geo, c: Ctl): Ctl
    requires 2 <= g.K && 0 < g.P
  {
    var b, n := RwVictim(g, c.rw), Moves(g, c.hm, c.sc, RwVictim(g, c.rw));
    c.(hm := CollectedMap(g, c.hm, Movers(g, c.hm, c.sc, b), c.ic, b), sc := BitsAfter(g, c.hm, c.sc, b, Kept(g, c)),
       rw := Pred(g, Addr(b, Kept(g, c))), rwFree := 1, ic := IcAfter(g, c.ic, n),
       isolFree := FreeAfter(g, IsolSucc(g, c.ic).off, c.isolFree, n))
  }

  /** The loop that collects until an RW log block is open again. */
  ghost function CollectCtl(g: Geo, c: Ctl): (Outcome, Ctl)
    requires 2 <= g.K && 2 <= g.P
  {
    var d := Turn(g, c);
    (CollectOutcome(g, d), CollectedCtl(g, d))
  }

  /** A collection opens a block; a second chance does not. */
  lemma OpenAgain(g: Geo, c: Ctl)
    requires 2 <= g.K && 2 <= g.P
    ensures CollectedCtl(g, c).rwFree == 1 && Chance(g, c).rwFree == c.rwFree
  {
  }

  // ----- where the next page goes -----

  /** The next RW write needs a collection: the current block's data pages are written, and no other block is open. */
  predicate RwFull(g: Geo, c: Ctl) {
    c.rw.off + 2 == g.P && c.rwFree <= 1
  }

  /** assign_cur_write_rwlog_lpn. */
  ghost function AssignCtl(g: Geo, c: Ctl): (r: (Outcome, Ctl))
    requires GeoOk(g)
    ensures r.1 == c.(hm := r.1.hm, sc := r.1.sc, rw := r.1.rw, rwFree := r.1.rwFree, ic := r.1.ic,
            isolFree := r.1.isolFree)
  {
    if RwFull(g, c) then
      var (r, d) := CollectCtl(g, c.(rwFree := 0));
      (r, d.(rw := Succ(g, d.rw)))
    else if c.rw.off + 2 == g.P then (Fine, c.(rw := Addr(RwVictim(g, c.rw), 0), rwFree := c.rwFree - 1))
    else (Fine, c.(rw := Succ(g, c.rw)))
  }

  /** The first n pages of data block L are in the SW log block. */
  function SwCopied(hm: map<Addr, Addr>, L: nat, n: nat): map<Addr, Addr> {
    hm + map o: nat | 0 <= o < n :: Addr(L, o) := Addr(SW_LOG_LBN, o)
  }

  lemma SwCopiedNext(hm: map<Addr, Addr>, L: nat, n: nat)
    ensures SwCopied(hm, L, 0) == hm && SwCopied(hm, L, n + 1) == SwCopied(hm, L, n)[Addr(L, n) := Addr(SW_LOG_LBN, n)]
  {
  }

  /** The pages of l's data block below l have come to the SW log block, and it is l's turn. */
  function SwStarted(g: Geo, c: Ctl, l: Addr): Ctl {
    c.(hm := SwCopied(c.hm, l.blk, l.off), swOff := l.off, swLbn := Some(l.blk))
  }

  /** prepare_to_new_write: the write pointers have moved on to where lpn l goes. */
  ghost function PrepareCtl(g: Geo, c: Ctl, l: Addr): (Outcome, Ctl)
    requires GeoOk(g)
  {
    var (d, corr) := Decide(g, c.corr, c.swLbn, c.swOff, l);
    var c' := c.(corr := corr);
    match d
    case SW_NO => AssignCtl(g, c')
    case SW_APPEND => (Fine, c'.(swOff := c.swOff + 1))
    case SW_DETECT => (Fine, SwStarted(g, SwMergedCtl(g, c'), l))
  }

  // ----- a page write -----

  /** Lpn l goes to the RW log. */
  predicate ToRw(g: Geo, c: Ctl, l: Addr) {
    Decide(g, c.corr, c.swLbn, c.swOff, l).0 == SW_NO
  }

  /** Writing lpn l makes a collection. */
  predicate Collects(g: Geo, c: Ctl, l: Addr) {
    ToRw(g, c, l) && RwFull(g, c)
  }

  /** The tuning has no say in that. */
  lemma SameKind(g: Geo, c: Ctl, t: Tuning, l: Addr)
    ensures ToRw(g, c.(tune := t), l) == ToRw(g, c, l) && Collects(g, c.(tune := t), l) == Collects(g, c, l)
  {
  }

  /** Writing lpn l fills the SW log block. */
  predicate FillsSw(g: Geo, c: Ctl, l: Addr) {
    !ToRw(g, c, l) && l.off + 1 == g.P
  }

  /** The trigger of bank no has come to its interval. */
  predicate Due(no: nat, t: Tuning) {
    t.trigger + 1 >= (t.interval + no) * 2
  }

  /** The progressive merge behind a write that made no other merge and no collection. */
  ghost function ProgressCtl(g: Geo, no: nat, c: Ctl, rw: bool): (Outcome, Ctl) {
    if c.isolFree <= RESERV_ISOL_BLK then
      var (r, d) := FullMergeCtl(g, c);
      (r, d.(tune := d.tune.(inc := true)))
    else if g.ISOL - 1 > c.isolFree && rw then
      if Due(no, c.tune) then
        var (r, d) := FullMergeCtl(g, c);
        (r, d.(tune := d.tune.(trigger := 0)))
      else (Fine, c.(tune := c.tune.(trigger := c.tune.trigger + 1)))
    else (Fine, c)
  }

  /** ADJ_PMERGE_PERIOD. */
  function Period(g: Geo): nat { g.LOG * g.P / 8 }

  /** The self-tuning at the end of a write. */
  function Tuned(g: Geo, t: Tuning, isolFree: nat): Tuning {
    if Period(g) <= t.writes && isolFree < g.ISOL then
      var base := if t.base < 2 then g.P / 4 else t.base;
      if isolFree > g.ISOL - 2 then t.(writes := 0, base := base, interval := t.interval + 1)
      else if t.inc then
        var less := if base > 1 then base - 1 else base;
        t.(writes := 0, base := less, interval := less, inc := false)
      else t.(writes := 0, base := base)
    else t
  }

  /** write_to_log_block, behind the programming of the page. */
  ghost function AfterCtl(g: Geo, no: nat, c: Ctl, rw: bool, gc: bool): (Outcome, Ctl) {
    var (r, d) := if c.swOff + 1 == g.P then (Fine, SwMergedCtl(g, c))
                  else if gc then (Fine, c)
                  else ProgressCtl(g, no, c, rw);
    (r, d.(tune := Tuned(g, d.tune, d.isolFree)))
  }

  /** write_to_log_block of bank no. */
  ghost function WriteCtl(g: Geo, no: nat, c: Ctl, l: Addr): (Outcome, Ctl)
    requires GeoOk(g)
  {
    var (r, d) := PrepareCtl(g, c.(tune := c.tune.(writes := c.tune.writes + 1)), l);
    if r != Fine then (r, d)
    else
      var x := if ToRw(g, c, l) then d.rw else Addr(SW_LOG_LBN, l.off);
      AfterCtl(g, no, d.(hm := d.hm[l := x]), ToRw(g, c, l), Collects(g, c, l))
  }
}
