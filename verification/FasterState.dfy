/**
 The state of one FASTer bank (ftl_faster/ftl.c) and its invariant.

 The invariant is stated on pictures of the bank in which every mapping table has
 been followed, so that data block L, log block b and isolation block i appear with
 their contents and not with their physical block numbers.
 */
module FasterState {
  import opened Common
  import opened Nand

  /** Sizes of a bank; ftl_faster/ftl.h. */
  datatype Geo = Geo(
    P: nat,     // PAGES_PER_BLK
    S: nat,     // SECTORS_PER_PAGE
    D: nat,     // DATA_BLK_PER_BANK
    K: nat,     // log blocks that are not lost to bad blocks, the SW log block included
    LOG: nat,   // LOG_BLK_PER_BANK
    ISOL: nat)  // ISOL_BLK_PER_BANK

  /** Bitmaps of a block are copied in whole bytes, and lists in whole sectors: 128 or 256 pages in include/nand.h. */
  predicate GeoOk(g: Geo) {
    && 0 < g.P && g.P % 128 == 0 && 1 <= g.S && 1 <= g.D
    && 2 <= g.K <= g.LOG
    && 8 <= g.ISOL
  }

  /**
   Between operations a bank is Idle.  While garbage collection empties log block b,
   its first f pages are already those of the replacement block, and its pages from o on
   are still to be looked at.
   */
  datatype Phase = Idle | Collecting(b: nat, f: nat, o: nat)

  datatype Pic = Pic(
    data: seq<Block>, log: seq<Block>, isol: seq<Block>,
    hm: map<Addr, Addr>,               // the hash table; its keys are also the VC bitmap
    swOff: int, swLbn: Option<nat>,    // SW log block
    rw: Addr, rwFree: nat, rwList: seq<Option<Addr>>,
    ic: Option<Addr>, iv: Option<Addr>, isolFree: nat,
    isList: seq<Option<Addr>>, vtList: seq<Option<Addr>>,
    phase: Phase)

  // ----- reading -----

  /** The page a log address names: a log block below LOG, an isolation block from LOG on. */
  function LogPage(g: Geo, a: Pic, x: Addr): Page {
    if x.blk < g.LOG then PageAt(a.log, x.blk, x.off) else PageAt(a.isol, x.blk - g.LOG, x.off)
  }

  /** get_vpn: the page holding lpn l. */
  function LivePage(g: Geo, a: Pic, l: Addr): Page {
    if l in a.hm then LogPage(g, a, a.hm[l]) else PageAt(a.data, l.blk, l.off)
  }

  /** What the host reads at lpn l. */
  function ViewAt(g: Geo, a: Pic, l: Addr): PageData {
    Content(g.S, LivePage(g, a, l))
  }

  ghost predicate SameView(g: Geo, a: Pic, a': Pic) {
    forall l :: ViewAt(g, a', l) == ViewAt(g, a, l)
  }

  // ----- pointers -----

  function Succ(g: Geo, x: Addr): Addr {
    if x.off + 1 < g.P then Addr(x.blk, x.off + 1) else Addr(x.blk + 1, 0)
  }

  /** The successor of an isolation address; None stands for (UINT32)-1. */
  function IsolSucc(g: Geo, x: Option<Addr>): Addr {
    if x.None? then Addr(0, 0)
    else if x.value.off + 1 < g.P then Addr(x.value.blk, x.value.off + 1)
    else if x.value.blk + 1 < g.ISOL then Addr(x.value.blk + 1, 0)
    else Addr(0, 0)
  }

  /** The next victim position, and the next position to write, of the isolation area. */
  function Vt(g: Geo, a: Pic): Addr { IsolSucc(g, a.iv) }
  function Cur(g: Geo, a: Pic): Addr { IsolSucc(g, a.ic) }

  /** How far isolation block i is from block v, going round. */
  function Dist(g: Geo, v: nat, i: nat): int {
    if i >= v then i - v else i + g.ISOL - v
  }

  function FullIsol(g: Geo, a: Pic): int { g.ISOL - a.isolFree }

  // ----- the invariant -----

  ghost predicate AllLen(bs: seq<Block>, n: nat, p: nat) {
    |bs| == n && forall i :: 0 <= i < n ==> |bs[i]| == p
  }

  ghost predicate Shape(g: Geo, a: Pic) {
    && GeoOk(g)
    && AllLen(a.data, g.D, g.P) && AllLen(a.log, g.K, g.P) && AllLen(a.isol, g.ISOL, g.P)
    && |a.rwList| == |a.isList| == |a.vtList| == g.P
  }

  ghost predicate SwCovered(a: Pic, o: int) {
    a.swLbn.Some? && 0 <= o && Addr(a.swLbn.value, o) in a.hm
  }

  /** The SW log block serves data block L up to offset swOff, and all those lpns are in the log. */
  ghost predicate SwOk(g: Geo, a: Pic)
    requires Shape(g, a)
  {
    && (a.swLbn.None? <==> a.swOff == -1)
    && (a.swLbn.Some? ==>
          && a.swLbn.value < g.D && 0 <= a.swOff < g.P
          && forall o {:trigger SwCovered(a, o)} :: 0 <= o <= a.swOff ==> SwCovered(a, o))
    && BlankFrom(a.log[0], a.swOff + 1)
  }

  /** RW log block b is neither full nor the one being filled by garbage collection. */
  predicate RwOpen(g: Geo, a: Pic, b: nat) {
    Succ(g, a.rw).blk <= b < Succ(g, a.rw).blk + a.rwFree
  }

  ghost predicate RwPtr(g: Geo, a: Pic) {
    && a.rw.off < g.P && a.rw.blk < g.K
    && (a.rwFree > 0 ==> 1 <= Succ(g, a.rw).blk && Succ(g, a.rw).blk + a.rwFree <= g.K)
    && (a.phase.Collecting? ==> a.rwFree == 0 && 1 <= a.phase.b < g.K && a.phase.f <= a.phase.o < g.P)
  }

  ghost predicate RwBlock(g: Geo, a: Pic, b: int)
  {
    && 0 <= b < |a.log|
    && if RwOpen(g, a, b) then BlankFrom(a.log[b], if b == Succ(g, a.rw).blk then Succ(g, a.rw).off else 0)
       else (a.phase.Collecting? && b == a.phase.b) || Closed(a.log[b])
  }

  ghost predicate IsPtr(g: Geo, a: Pic)
    requires Shape(g, a)
  {
    && 1 <= a.isolFree <= g.ISOL
    && (a.ic.Some? ==> a.ic.value.blk < g.ISOL && a.ic.value.off < g.P)
    && (a.iv.Some? ==> a.iv.value.blk < g.ISOL && a.iv.value.off < g.P)
    && Dist(g, Vt(g, a).blk, Cur(g, a).blk) == FullIsol(g, a)
    && (Vt(g, a).off > 0 ==> FullIsol(g, a) > 0 && forall o :: 0 <= o < g.P ==>
      a.vtList[o] == Listed(a.isol[Vt(g, a).blk], o))
  }

  ghost predicate IsBlock(g: Geo, a: Pic, i: int)
  {
    && 0 <= i < |a.isol|
    && var d := Dist(g, Vt(g, a).blk, i);
    if d < FullIsol(g, a) then Closed(a.isol[i])
    else BlankFrom(a.isol[i], if d == FullIsol(g, a) then Cur(g, a).off else 0)
  }

  /** Log address x of the RW log may hold lpn l: some list, in memory or in flash, says so. */
  ghost predicate RwLoc(g: Geo, a: Pic, x: Addr, l: Addr)
  {
    && 1 <= x.blk < |a.log| && x.off + 1 < g.P <= |a.rwList|
    && if RwOpen(g, a, x.blk) then
      && x.blk == Succ(g, a.rw).blk && x.off < Succ(g, a.rw).off
      && a.rwList[x.off] == Some(l)
    else if a.phase.Collecting? && x.blk == a.phase.b then
      && (x.off < a.phase.f || a.phase.o <= x.off)
      && a.rwList[x.off] == Some(l)
    else Listed(a.log[x.blk], x.off) == Some(l)
  }

  /** The same for address x of isolation block i. */
  ghost predicate IsLoc(g: Geo, a: Pic, i: int, o: nat, l: Addr)
  {
    && 0 <= i < |a.isol| && o + 1 < g.P <= |a.isList|
    && var d := Dist(g, Vt(g, a).blk, i);
    && d <= FullIsol(g, a)
    && if d < FullIsol(g, a) then Listed(a.isol[i], o) == Some(l)
       else o < Cur(g, a).off && a.isList[o] == Some(l)
  }

  /** The hash entry of lpn l names a written page that some lpn list ascribes to l. */
  ghost predicate LocOk(g: Geo, a: Pic, l: Addr)
  {
    && l in a.hm && l.blk < g.D && l.off < g.P
    && LogPage(g, a, a.hm[l]).Written?
    && var x := a.hm[l];
    if x.blk == 0 then a.swLbn == Some(l.blk) && x.off == l.off && l.off <= a.swOff
    else if x.blk < g.LOG then RwLoc(g, a, x, l)
    else IsLoc(g, a, x.blk - g.LOG, x.off, l)
  }

  ghost predicate Core(g: Geo, a: Pic) {
    && Shape(g, a)
    && SwOk(g, a) && RwPtr(g, a) && IsPtr(g, a)
    && (forall b {:trigger RwBlock(g, a, b)} :: 1 <= b < g.K ==> RwBlock(g, a, b))
    && (forall i {:trigger IsBlock(g, a, i)} :: 0 <= i < g.ISOL ==> IsBlock(g, a, i))
    && (forall l {:trigger LocOk(g, a, l)} :: l in a.hm ==> LocOk(g, a, l))
  }

  /** No entry points into the victim isolation block behind the victim pointer. */
  ghost predicate NotBehind(g: Geo, a: Pic, l: Addr)
  {
    l in a.hm && a.hm[l].blk == g.LOG + Vt(g, a).blk ==> Vt(g, a).off <= a.hm[l].off
  }

  ghost predicate Behind(g: Geo, a: Pic) {
    forall l {:trigger NotBehind(g, a, l)} :: NotBehind(g, a, l)
  }

  ghost predicate Inv(g: Geo, a: Pic) {
    Core(g, a) && Behind(g, a)
  }

  /** The addresses that name a log or an isolation page. */
  predicate InLog(g: Geo, x: Addr) {
    x.off < g.P && (x.blk < g.K || g.LOG <= x.blk < g.LOG + g.ISOL)
  }

  /** Between host writes: there is room in the log and the SW log block is not full. */
  ghost predicate AtRest(g: Geo, a: Pic) {
    Inv(g, a) && a.phase.Idle? && 1 <= a.rwFree && a.swOff + 1 < g.P && IcInside(g, a)
  }

  /** The isolation write pointer never rests on the page of the lpn list. */
  predicate IcInside(g: Geo, a: Pic) {
    a.ic.Some? ==> a.ic.value.off + 1 < g.P
  }
}
