/**
 The FASTer FTL over all its banks (ftl_faster/ftl.c, ftl_read and ftl_write): it behaves
 like one flat array of sectors.
 */
module FasterFtl {
  import opened Common
  import opened Nand
  import opened StaticHashTable
  import opened FasterState
  import opened FasterSteps
  import opened FasterControl
  import opened FasterRuns
  import opened FasterWrite
  import opened FasterBank
  import opened BlockMaps
  import opened FlatDisk
  import opened Striping

  // ----- a bank against its share of the flat array -----

  /** Sector s of page l of bank i reads as the flat array says. */
  ghost predicate SectorHeld(g: Geo, a: Pic, NB: nat, i: nat, disk: seq<Sector>, l: Addr, s: nat) {
    && LbaOf(NB, g.P, g.S, i, l, s) < |disk| && s < |ViewAt(g, a, l)|
    && ViewAt(g, a, l)[s] == disk[LbaOf(NB, g.P, g.S, i, l, s)]
  }

  ghost predicate BankHolds(g: Geo, a: Pic, NB: nat, i: nat, disk: seq<Sector>) {
    forall l: Addr, s: nat {:trigger SectorHeld(g, a, NB, i, disk, l, s)} ::
      l.blk < g.D && l.off < g.P && s < g.S ==> SectorHeld(g, a, NB, i, disk, l, s)
  }

  /** A page write keeps bank i, written or not, in step with the array. */
  lemma PageHeld(g: Geo, a: Pic, b: Pic, NB: nat, i: nat, disk: seq<Sector>, lpn: nat, off: nat, data: PageData)
    requires 0 < NB && i < NB && 0 < g.P && off + |data| <= g.S && SectorOf(g.S, lpn, off) + |data| <= |disk|
    ensures BankHolds(g, a, NB, i, disk) &&
            (if i == BankOf(NB, lpn) then Spliced(g, a, b, AddrOf(NB, g.P, lpn), off, data) else b == a) ==>
              BankHolds(g, b, NB, i, Overwrite(disk, SectorOf(g.S, lpn, off), data))
  {
    if BankHolds(g, a, NB, i, disk) &&
      (if i == BankOf(NB, lpn) then Spliced(g, a, b, AddrOf(NB, g.P, lpn), off, data) else b == a) {
      var p := SectorOf(g.S, lpn, off);
      forall l: Addr, s: nat | l.blk < g.D && l.off < g.P && s < g.S
        ensures SectorHeld(g, b, NB, i, Overwrite(disk, p, data), l, s)
      {
        SameSector(NB, g.P, g.S, i, l, s, lpn);
        assert SectorHeld(g, a, NB, i, disk, l, s);
      }
    }
  }

  lemma BlankHeld(g: Geo, a: Pic, NB: nat, i: nat, disk: seq<Sector>)
    requires i < NB && (forall l :: ViewAt(g, a, l) == BlankData(g.S)) && disk == BlankData(Sectors(NB, g.D, g.P, g.S))
    ensures BankHolds(g, a, NB, i, disk)
  {
    forall l: Addr, s: nat | l.blk < g.D && l.off < g.P && s < g.S ensures SectorHeld(g, a, NB, i, disk, l, s) {
      LbaBound(NB, g.D, g.P, g.S, i, l, s);
    }
  }

  /** Sectors of the page lpn, and of no other, lie between its first and its last. */
  lemma SameSector(NB: nat, P: nat, S: nat, i: nat, l: Addr, s: nat, lpn: nat)
    requires i < NB && l.off < P && s < S
    ensures var q := LbaOf(NB, P, S, i, l, s);
            if i == BankOf(NB, lpn) && l == AddrOf(NB, P, lpn) then q == lpn * S + s
            else q < lpn * S || lpn * S + S <= q
  {
    LpnRoundTrip(NB, P, lpn);
    AddrRoundTrip(NB, P, i, l);
    MulOrder(LpnOf(NB, P, i, l), lpn, S);
    MulOrder(lpn, LpnOf(NB, P, i, l), S);
  }

  /** The objects that make up a bank. */
  ghost function Foot(b: Bank): set<object> {
    {b, b.tbl, b.tbl.nodes, b.tbl.heads}
  }

  /** The blocks that are not log blocks. */
  function Others(g: Geo): nat { g.D + FREE_BLK_PER_BANK + g.ISOL }

  /** The sizes of a bank with these usable blocks behind its metadata area: all that is left goes to the log. */
  function OwnGeo(g: Geo, good: seq<nat>): Geo {
    g.(K := if |good| < Others(g) then 0 else |good| - Others(g))
  }

  ghost predicate GoodBlocks(g: Geo, V: nat, good: seq<nat>) {
    && GeoOk(OwnGeo(g, good))
    && (forall i :: 0 <= i < |good| ==> 0 < good[i] < V)
    && Ascending(good)
  }

  lemma GoodParts(g: Geo, V: nat, good: seq<nat>)
    requires GoodBlocks(g, V, good)
    ensures var h := OwnGeo(g, good);
            && GeoOk(h) && h == g.(K := h.K) && Alike(g, h) && |good| == h.D + FREE_BLK_PER_BANK + h.ISOL + h.K
    ensures (forall i :: 0 <= i < |good| ==> 0 < good[i] < V) && Ascending(good)
  {
  }

  lemma GoodSizes(g: Geo, V: nat, good: seq<nat>)
    requires GoodBlocks(g, V, good)
    ensures 4 <= g.P && 1 <= g.S && Alike(g, OwnGeo(g, good)) && |good| == Others(g) + OwnGeo(g, good).K
  {
  }

  /** format, bank after bank. */
  method FormatBanks(g: Geo, V: nat, good: seq<seq<nat>>, hash: HashFn, buckets: nat)
    returns (bs: seq<Bank>, ghost hs: seq<Geo>, ghost cs: seq<Ctl>)
    requires V < NO_BLOCK && 0 < buckets
    requires forall i :: 0 <= i < |good| ==> GoodBlocks(g, V, good[i])
    ensures |bs| == |hs| == |cs| == |good|
    ensures forall k :: 0 <= k < |good| ==> hs[k] == OwnGeo(g, good[k]) && Alike(g, hs[k])
    ensures forall k :: 0 <= k < |good| ==> GeoOk(hs[k]) && cs[k] == Fresh(hs[k])
    ensures forall k :: 0 <= k < |good| ==>
            bs[k].g == hs[k] && bs[k].no == k && bs[k].Valid() && bs[k].Control() == cs[k]
    ensures forall k :: 0 <= k < |good| ==> fresh(Foot(bs[k]))
    ensures forall k, l :: 0 <= k < |good| ==> bs[k].View(l) == BlankData(g.S)
    ensures forall k, l :: 0 <= k < l < |good| ==> Foot(bs[k]) !! Foot(bs[l])
  {
    hide Bank.Valid, Ascending, Alike, GoodBlocks, OwnGeo;
    bs, hs, cs := [], [], [];
    for i := 0 to |good|
      invariant |bs| == |hs| == |cs| == i
      invariant forall k :: 0 <= k < i ==> hs[k] == OwnGeo(g, good[k]) && Alike(g, hs[k])
      invariant forall k :: 0 <= k < i ==> GeoOk(hs[k]) && cs[k] == Fresh(hs[k])
      invariant forall k :: 0 <= k < i ==>
        bs[k].g == hs[k] && bs[k].no == k && bs[k].Valid() && bs[k].Control() == cs[k]
      invariant forall k :: 0 <= k < i ==> fresh(Foot(bs[k]))
      invariant forall k, l :: 0 <= k < i ==> bs[k].View(l) == BlankData(g.S)
      invariant forall k, l :: 0 <= k < l < i ==> Foot(bs[k]) !! Foot(bs[l])
    {
      var h := OwnGeo(g, good[i]);
      GoodParts(g, V, good[i]);
      var b := new Bank(h, i, V, good[i], hash, buckets);
      bs, hs, cs := bs + [b], hs + [h], cs + [Fresh(h)];
    }
  }

  /**
   A formatted bank on its own, one page after the other being written: it ends as the run of its control
   state does.
   */
  method FormatAndWrite(g: Geo, no: nat, V: nat, good: seq<nat>, hash: HashFn, buckets: nat, ls: seq<Addr>)
    returns (r: Outcome, b: Bank)
    requires GeoOk(g) && V < NO_BLOCK && |good| == g.D + FREE_BLK_PER_BANK + g.ISOL + g.K && 0 < buckets
    requires (forall i :: 0 <= i < |good| ==> 0 < good[i] < V) && Ascending(good)
    requires forall i :: 0 <= i < |ls| ==> ls[i].blk < g.D && ls[i].off < g.P
    ensures r == WritesCtl(g, no, Fresh(g), ls).0
    ensures r == Fine ==> b.Valid() && b.g == g && b.Control() == WritesCtl(g, no, Fresh(g), ls).1
  {
    hide Bank.Valid, Ascending, WriteCtl, WritesCtl, Spliced;
    b := new Bank(g, no, V, good, hash, buckets);
    r := Fine;
    assert WritesCtl(g, no, Fresh(g), ls[..0]) == (Fine, Fresh(g)) by { WritesNone(g, no, Fresh(g)); }
    for i := 0 to |ls|
      invariant r == Fine && b.Valid() && b.g == g && b.no == no && fresh(Foot(b))
      invariant WritesCtl(g, no, Fresh(g), ls[..i]) == (Fine, b.Control())
    {
      WritesOn(g, no, Fresh(g), ls, i);
      r := b.WriteToLogBlock(ls[i], 0, [Blank]);
      if r != Fine {
        WritesFailed(g, no, Fresh(g), ls, i + 1);
        return;
      }
    }
    assert ls[..|ls|] == ls;
  }

  class Ftl {
    const g: Geo // the sizes, but for the number of log blocks
    const NB: nat
    const banks: seq<Bank>
    ghost const gs: seq<Geo> // the sizes of each bank
    ghost var disk: seq<Sector> // the flat array
    ghost var ctls: seq<Ctl> // the control states of the banks

    ghost function Repr(): set<object> {
      set i, o: object | 0 <= i < |banks| && o in Foot(banks[i]) :: o
    }

    /** The banks share nothing. */
    ghost predicate Apart() {
      && |banks| == |gs| == NB && AllAlike(g, gs)
      && (forall i :: 0 <= i < NB ==> banks[i].g == gs[i] && banks[i].no == i && this !in Foot(banks[i]))
      && forall i, j :: 0 <= i < j < NB ==> Foot(banks[i]) !! Foot(banks[j])
    }

    ghost predicate BankOk(i: nat)
      requires i < |banks|
      reads this, Foot(banks[i])
    {
      && banks[i].Valid() && BankHolds(banks[i].g, banks[i].Picture(), NB, i, disk)
      && i < |ctls| && ctls[i] == banks[i].Control()
    }

    ghost predicate Valid()
      reads this, Repr()
    {
      && Apart() && |disk| == Sectors(NB, g.D, g.P, g.S) && |ctls| == NB
      && forall i :: 0 <= i < |banks| ==> BankOk(i)
    }

    lemma Sizes()
      requires Valid()
      ensures 1 <= g.S && AllAlike(g, gs) && |ctls| == |gs| == NB
    {
    }

    /** format of every bank; good[i] lists the usable blocks of bank i behind its metadata area. */
    constructor (g: Geo, V: nat, good: seq<seq<nat>>, hash: HashFn, buckets: nat)
      requires V < NO_BLOCK && 0 < buckets && good != []
      requires forall i :: 0 <= i < |good| ==> GoodBlocks(g, V, good[i])
      ensures Valid() && this.g == g && NB == |good|
      ensures forall i :: 0 <= i < |good| ==> gs[i] == OwnGeo(g, good[i]) && ctls[i] == Fresh(gs[i])
      ensures fresh(Repr()) && forall q :: 0 <= q < |disk| ==> disk[q] == Blank
    {
      hide Bank.Valid, BankHolds, Sectors, GoodBlocks, OwnGeo;
      GoodSizes(g, V, good[0]);
      var bs;
      ghost var hs, cs;
      bs, hs, cs := FormatBanks(g, V, good, hash, buckets);
      this.g, NB, banks, gs := g, |good|, bs, hs;
      disk, ctls := BlankData(Sectors(|good|, g.D, g.P, g.S)), cs;
      new;
      forall i | 0 <= i < |banks| ensures BankOk(i) {
        assert forall l :: ViewAt(gs[i], banks[i].Picture(), l) == banks[i].View(l);
        BlankHeld(gs[i], banks[i].Picture(), NB, i, disk);
      }
    }

    /** One round of the loop of ftl_write: sectors off.. of page lpn are written. */
    method WritePage(lpn: nat, off: nat, data: PageData, ghost lba: nat) returns (r: Outcome)
      requires Valid() && 0 < |data| && off + |data| <= g.S && lba == SectorOf(g.S, lpn, off) && lba + |data| <= |disk|
      modifies this, Repr()
      ensures var k := BankOf(NB, lpn);
              && r == WriteCtl(gs[k], k, old(ctls)[k], AddrOf(NB, g.P, lpn)).0
              && (r == Fine ==> ctls == old(ctls)[k := WriteCtl(gs[k], k, old(ctls)[k], AddrOf(NB, g.P, lpn)).1])
      ensures r == Fine ==> Valid() && disk == Overwrite(old(disk), lba, data)
    {
      hide Bank.Valid, BankHolds, Overwrite, Spliced, WriteCtl;
      LbaInside(NB, g.D, g.P, g.S, lba);
      DivMod(lpn, g.S, off);
      LpnRoundTrip(NB, g.P, lpn);
      var k := BankOf(NB, lpn);
      assert BankOk(k);
      label Before:
      r := banks[k].WriteToLogBlock(AddrOf(NB, g.P, lpn), off, data);
      disk := Overwrite(disk, lba, data);
      if r == Fine {
        ctls := ctls[k := banks[k].Control()];
        forall i | 0 <= i < |banks| ensures BankOk(i) {
          assert old@Before(BankOk(i));
          assert i != k ==> Foot(banks[i]) !! Foot(banks[k]);
          PageHeld(gs[i], old@Before(banks[i].Picture()), banks[i].Picture(), NB, i, old(disk), lpn, off, data);
        }
      }
    }

    /** ftl_write.  Whether it succeeds is decided by the control states of the banks before. */
    method FtlWrite(lba: nat, data: seq<Sector>) returns (r: Outcome)
      requires Valid() && lba + |data| <= |disk|
      modifies this, Repr()
      ensures r == PagesCtl(g, gs, old(ctls), PageIn(g.S, lba), PageCount(g.S, lba, |data|)).0
      ensures r == Fine ==> ctls == PagesCtl(g, gs, old(ctls), PageIn(g.S, lba), PageCount(g.S, lba, |data|)).1
      ensures r == Fine ==> Valid() && disk == Overwrite(old(disk), lba, data)
    {
      hide BankOk, Apart, AllAlike, Overwrite, WriteCtl, PagesCtl, PageCount, Sectors, SectorOf, PageIn, OffsetIn;
      Sizes();
      SectorParts(g.S, lba);
      PagesNone(g, gs, ctls, PageIn(g.S, lba));
      var lpn: nat, sectOffset: nat, remain: nat := PageIn(g.S, lba), OffsetIn(g.S, lba), |data|;
      ghost var lpn0, cs, count := lpn, ctls, PageCount(g.S, lba, |data|);
      r := Fine;
      while remain != 0
        invariant r == Fine && Valid() && remain <= |data| && lpn0 <= lpn
        invariant remain != 0 ==> SectorOf(g.S, lpn, sectOffset) == lba + (|data| - remain) && sectOffset < g.S
        invariant remain == 0 ==> lpn == lpn0 + count
        invariant PagesCtl(g, gs, cs, lpn0, lpn - lpn0) == (Fine, ctls)
        invariant disk == Overwrite(old(disk), lba, data[..|data| - remain])
        decreases remain
      {
        var n := if sectOffset + remain < g.S then remain else g.S - sectOffset;
        var done := |data| - remain;
        PageBefore(g.S, lba, |data|, lpn, sectOffset, done);
        r := WritePage(lpn, sectOffset, data[done..done + n], lba + done);
        PagesOn(g, gs, cs, lpn0, lpn - lpn0, count, r);
        if r != Fine { return; }
        OverwriteOn(old(disk), lba, data, done, done + n);
        SectorStep(g.S, lpn, sectOffset);
        SectorStep(g.S, lpn + 1, 0);
        if remain == n { LastPage(g.S, lba, |data|, lpn, sectOffset, done, n); }
        sectOffset, remain, lpn := 0, remain - n, lpn + 1;
      }
      assert data[..|data|] == data;
    }

    /** One round of the loop of ftl_read. */
    method ReadPage(lpn: nat, off: nat, n: nat, ghost lba: nat) returns (data: PageData)
      requires Valid() && 0 < n && off + n <= g.S && lba == SectorOf(g.S, lpn, off) && lba + n <= |disk|
      ensures data == disk[lba..lba + n]
    {
      hide Bank.Valid;
      LbaInside(NB, g.D, g.P, g.S, lba);
      DivMod(lpn, g.S, off);
      LpnRoundTrip(NB, g.P, lpn);
      var k, l := BankOf(NB, lpn), AddrOf(NB, g.P, lpn);
      assert BankOk(k);
      data := banks[k].ReadSectors(l, off, n);
      forall s: nat | off <= s < off + n ensures banks[k].View(l)[s] == disk[lpn * g.S + s] {
        assert SectorHeld(gs[k], banks[k].Picture(), NB, k, disk, l, s);
      }
    }

    /** ftl_read. */
    method FtlRead(lba: nat, n: nat) returns (data: seq<Sector>)
      requires Valid() && lba + n <= |disk|
      ensures data == disk[lba..lba + n]
    {
      hide BankOk, AllAlike, Sectors, SectorOf, PageIn, OffsetIn;
      Sizes();
      SectorParts(g.S, lba);
      var lpn: nat, sectOffset: nat, remain: nat := PageIn(g.S, lba), OffsetIn(g.S, lba), n;
      data := [];
      while remain != 0
        invariant Valid() && remain <= n && data == disk[lba..lba + (n - remain)]
        invariant remain != 0 ==> SectorOf(g.S, lpn, sectOffset) == lba + (n - remain) && sectOffset < g.S
        decreases remain
      {
        var k := if sectOffset + remain < g.S then remain else g.S - sectOffset;
        var page := ReadPage(lpn, sectOffset, k, lba + (n - remain));
        data := data + page;
        SectorStep(g.S, lpn, sectOffset);
        SectorStep(g.S, lpn + 1, 0);
        sectOffset, remain, lpn := 0, remain - k, lpn + 1;
      }
    }

    /**
     A run of host commands: every read returns what the flat array would return, and the flat array is what
     is left.  The run comes to its end exactly when the run of the control states does, and fails as that
     does.
     */
    method Run(cmds: seq<Cmd>) returns (r: Outcome, outs: seq<seq<Sector>>)
      requires Valid() && forall i :: 0 <= i < |cmds| ==> InRange(cmds[i], |disk|)
      modifies this, Repr()
      ensures r == RunCtl(g, gs, old(ctls), cmds).0
      ensures r == Fine ==>
              Valid() && (disk, outs) == RunFlat(old(disk), cmds) && ctls == RunCtl(g, gs, old(ctls), cmds).1
    {
      hide Valid, Apart, AllAlike, Overwrite, PagesCtl, PageCount, PageIn, RunCtl, RunFlat;
      Sizes();
      r, outs := Fine, [];
      ghost var d, cs := disk, ctls;
      RunNone(g, gs, cs);
      RunFlatNone(d);
      for i := 0 to |cmds|
        invariant r == Fine && Valid() && |disk| == |d|
        invariant RunFlat(d, cmds[..i]) == (disk, outs)
        invariant RunCtl(g, gs, cs, cmds[..i]) == (Fine, ctls)
      {
        RunOn(g, gs, cs, cmds, i);
        RunFlatOn(d, cmds, i);
        match cmds[i]
        case Write(lba, data) =>
          r := FtlWrite(lba, data);
          if r != Fine {
            RunFailed(g, gs, cs, cmds, i + 1);
            return;
          }
        case Read(lba, n) =>
          var data := FtlRead(lba, n);
          outs := outs + [data];
      }
      assert cmds[..|cmds|] == cmds;
    }
  }
}
