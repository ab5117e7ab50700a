/** The greedy FTL over all its banks (ftl_greedy/ftl.c, ftl_read and ftl_write): a flat array of sectors. */
module GreedyFtl {
  import opened Common
  import Nand
  import opened GreedyState
  import opened GreedySteps
  import opened GreedyBank
  import opened FlatDisk
  import opened Striping

  // ----- a bank against its share of the flat array -----

  /** Sector s of the bank's lpn l reads as the flat array says. */
  ghost predicate SectorHeld(d: Dim, a: Pic, NB: nat, disk: seq<Sector>, l: nat, s: nat) {
    var q := SectorOf(d.S, LpnAt(NB, d.no, l), s);
    q < |disk| && s < |ViewAt(d, a, l)| && ViewAt(d, a, l)[s] == disk[q]
  }

  /** Every sector of the bank does. */
  ghost predicate Holds(d: Dim, a: Pic, NB: nat, disk: seq<Sector>) {
    forall l: nat, s: nat {:trigger SectorHeld(d, a, NB, disk, l, s)} ::
      l < d.N && s < d.S ==> SectorHeld(d, a, NB, disk, l, s)
  }

  /** Sectors of page lpn, and of no other, lie between its first and its last. */
  lemma SameSector(S: nat, l: nat, s: nat, lpn: nat, off: nat)
    requires s < S
    ensures var q, p := SectorOf(S, l, s), SectorOf(S, lpn, off);
            if l == lpn then q - p == s - off else q + off < p || p + (S - off) <= q
  {
    MulOrder(l, lpn, S);
    MulOrder(lpn, l, S);
  }

  /** A page write keeps a bank, written or not, in step with the array. */
  lemma PageHeld(d: Dim, a: Pic, b: Pic, NB: nat, disk: seq<Sector>, lpn: nat, off: nat, data: PageData, lba: nat)
    requires d.no < NB && off + |data| <= d.S && lba == SectorOf(d.S, lpn, off) && lba + |data| <= |disk|
    requires Holds(d, a, NB, disk)
    requires if d.no == BankOf(NB, lpn) then Spliced(d, a, b, LocalOf(NB, lpn), off, data) else SameView(d, a, b)
    ensures Holds(d, b, NB, Overwrite(disk, lba, data))
  {
    hide SectorOf, ViewAt, LpnAt, BankOf, LocalOf;
    forall l: nat, s: nat | l < d.N && s < d.S ensures SectorHeld(d, b, NB, Overwrite(disk, lba, data), l, s) {
      SameSector(d.S, LpnAt(NB, d.no, l), s, lpn, off);
      LocalRoundTrip(NB, d.no, l);
      LpnParts(NB, lpn);
      assert SectorHeld(d, a, NB, disk, l, s);
    }
  }

  lemma BlankHeld(d: Dim, a: Pic, NB: nat, disk: seq<Sector>)
    requires d.no < NB && AllBlank(d, a) && disk == Nand.BlankData(d.N * NB * d.S)
    ensures Holds(d, a, NB, disk)
  {
    forall l: nat, s: nat | l < d.N && s < d.S ensures SectorHeld(d, a, NB, disk, l, s) {
      Below(l, d.N, NB, d.no);
      Below(LpnAt(NB, d.no, l), d.N * NB, d.S, s);
    }
  }

  /** In bank 0 lpn 0 is one of the bank's own. */
  lemma NoClash(d: Dim, flash: seq<Block>, zero: Option<Addr>)
    ensures d.no == 0 ==> forall vt :: !Clash(d, flash, vt, zero)
  {
  }

  ghost function Foot(b: Bank): set<object> { {b, b.lpnList} }

  /** The usable blocks of a bank, those behind its metadata area, leave each data block two pages more than lpns. */
  predicate GoodBlocks(P: nat, S: nat, V: nat, N: nat, good: seq<nat>) {
    && 4 <= P < VC_MAX && 1 <= S && 1 <= N
    && 2 <= |good| && N < (|good| - 1) * (P - 2) && (forall i :: 0 <= i < |good| ==> 0 < good[i] < V)
    && forall i, j :: 0 <= i < j < |good| ==> good[i] < good[j]
  }

  /** format, bank after bank. */
  method FormatBanks(P: nat, S: nat, V: nat, N: nat, good: seq<seq<nat>>) returns (bs: seq<Bank>)
    requires forall i :: 0 <= i < |good| ==> GoodBlocks(P, S, V, N, good[i])
    ensures |bs| == |good| && forall k :: 0 <= k < |good| ==> fresh(Foot(bs[k])) && bs[k].Valid()
    ensures forall k :: 0 <= k < |good| ==> bs[k].d == Dim(P, S, V, N, Elems(good[k]), k)
    ensures forall k :: 0 <= k < |good| ==> AllBlank(bs[k].d, bs[k].Picture(bs[k].curWrite.off + 1))
    ensures forall k, j :: 0 <= k < j < |good| ==> Foot(bs[k]) !! Foot(bs[j])
  {
    hide Bank.Valid, AllBlank, Elems;
    bs := [];
    for i := 0 to |good|
      invariant |bs| == i && forall k :: 0 <= k < i ==> fresh(Foot(bs[k])) && bs[k].Valid()
      invariant forall k :: 0 <= k < i ==> bs[k].d == Dim(P, S, V, N, Elems(good[k]), k)
      invariant forall k :: 0 <= k < i ==> AllBlank(bs[k].d, bs[k].Picture(bs[k].curWrite.off + 1))
      invariant forall k, j :: 0 <= k < j < i ==> Foot(bs[k]) !! Foot(bs[j])
    {
      assert GoodBlocks(P, S, V, N, good[i]);
      var b := new Bank(P, S, V, N, good[i], i);
      bs := bs + [b];
    }
  }

  class Ftl {
    const NB: nat
    const N: nat // lpns of a bank
    const S: nat
    const banks: seq<Bank>
    ghost var disk: seq<Sector> // the flat array

    ghost function Repr(): set<object> {
      set i, o: object | 0 <= i < |banks| && o in Foot(banks[i]) :: o
    }

    /** The banks share nothing. */
    ghost predicate Apart() {
      && 0 < |banks| == NB && 1 <= S && 1 <= N
      && (forall i {:trigger banks[i]} :: 0 <= i < NB ==>
            banks[i].d.no == i && banks[i].d.N == N && banks[i].d.S == S && this !in Foot(banks[i]))
      && forall i, j :: 0 <= i < j < NB ==> Foot(banks[i]) !! Foot(banks[j])
    }

    ghost predicate BankOk(i: nat)
      requires i < |banks|
      reads this, Foot(banks[i])
    {
      var b := banks[i];
      b.Valid() && Holds(b.d, b.Picture(b.curWrite.off + 1), NB, disk)
    }

    ghost predicate Valid()
      reads this, Repr()
    {
      Apart() && |disk| == N * NB * S && forall i :: 0 <= i < |banks| ==> BankOk(i)
    }

    /** Where the page map has lpn 0. */
    function Zero(): Option<Addr>
      reads set i | 0 <= i < |banks| :: banks[i]
    {
      if banks != [] && banks[0].pageMap != [] then banks[0].pageMap[0] else None
    }

    /**
     Bank k is collecting block vt, whose page 0 has never been written and is listed as lpn 0; and that
     lpn's page is the page 0 of the block with the same number in bank 0.
     */
    ghost predicate Clashes(k: nat, vt: nat)
      reads set i | 0 <= i < |banks| :: banks[i]
    {
      0 < k < |banks| && LeastAt(banks[k].vcount, vt) && Clash(banks[k].d, banks[k].flash, vt, Zero())
    }

    lemma Sizes()
      requires Valid()
      ensures 1 <= S && 1 <= N && 0 < NB
    {
    }

    constructor (P: nat, S: nat, V: nat, N: nat, good: seq<seq<nat>>)
      requires good != [] && 1 <= S && 1 <= N && forall i :: 0 <= i < |good| ==> GoodBlocks(P, S, V, N, good[i])
      ensures Valid() && fresh(Repr()) && NB == |good| && this.N == N && this.S == S
      ensures forall q :: 0 <= q < |disk| ==> disk[q] == Nand.Blank
    {
      hide Bank.Valid, Holds, AllBlank, GoodBlocks;
      var bs := FormatBanks(P, S, V, N, good);
      NB, this.N, this.S, banks := |good|, N, S, bs;
      disk := Nand.BlankData(N * |good| * S);
      new;
      forall i | 0 <= i < |banks| ensures BankOk(i) {
        BlankHeld(banks[i].d, banks[i].Picture(banks[i].curWrite.off + 1), NB, disk);
      }
    }

    /** One round of the loop of ftl_write. */
    method WritePage(lpn: nat, off: nat, data: PageData, ghost lba: nat) returns (ok: bool, ghost vt: nat)
      requires Valid() && 0 < |data| && off + |data| <= S && lba == SectorOf(S, lpn, off) && lba + |data| <= |disk|
      modifies this, Repr()
      ensures BankOf(NB, lpn) < |banks|
      ensures var k := BankOf(NB, lpn);
              if old(banks[k].Collects()) then LeastAt(old(banks[k].vcount), vt) &&
                (ok <==> !old(Clashes(k, vt))) else ok
      ensures !ok ==> Clashes(BankOf(NB, lpn), vt) && disk == old(disk)
      ensures ok ==> Valid() && disk == Overwrite(old(disk), lba, data)
    {
      hide Bank.Valid, Holds, Overwrite, Spliced, Clash, LeastAt;
      LpnInside(NB, N, S, lpn, lba);
      LpnParts(NB, lpn);
      var k, l := BankOf(NB, lpn), LocalOf(NB, lpn);
      assert BankOk(k) && BankOk(0);
      NoClash(banks[k].d, banks[k].flash, Zero());
      label Before:
      ok, vt := banks[k].WritePage(l, off, data, Zero());
      if !ok { return; }
      disk := Overwrite(disk, lba, data);
      forall i | 0 <= i < |banks| ensures BankOk(i) {
        assert old@Before(BankOk(i));
        assert i != k ==> Foot(banks[i]) !! Foot(banks[k]);
        PageHeld(banks[i].d, old@Before(banks[i].Picture(banks[i].curWrite.off + 1)),
                 banks[i].Picture(banks[i].curWrite.off + 1), NB, old(disk), lpn, off, data, lba);
      }
    }

    /**
     ftl_write.  It fails only where a bank collects a block that clashes with lpn 0, and then the sectors before
     that bank's page have been written.
     */
    method FtlWrite(lba: nat, data: seq<Sector>) returns (ok: bool, ghost k: nat, ghost vt: nat, ghost done: nat)
      requires Valid() && lba + |data| <= |disk|
      modifies this, Repr()
      ensures done <= |data| && (ok <==> done == |data|) && disk == Overwrite(old(disk), lba, data[..done])
      ensures ok ==> Valid() && disk == Overwrite(old(disk), lba, data)
      ensures !ok ==> Clashes(k, vt) && 1 <= S && k == BankOf(NB, PageIn(S, lba + done))
    {
      hide BankOk, Apart, Overwrite, SectorOf, Clashes, BankOf;
      Sizes();
      SectorParts(S, lba);
      var lpn: nat, sectOffset: nat, remain: nat := PageIn(S, lba), OffsetIn(S, lba), |data|;
      ok, k, vt, done := true, 0, 0, 0;
      while remain != 0
        invariant ok && Valid() && remain <= |data| && |disk| == |old(disk)| && done == |data| - remain
        invariant remain != 0 ==> SectorOf(S, lpn, sectOffset) == lba + (|data| - remain) && sectOffset < S
        invariant disk == Overwrite(old(disk), lba, data[..|data| - remain])
        decreases remain
      {
        var n := if sectOffset + remain < S then remain else S - sectOffset;
        var from := |data| - remain;
        k := BankOf(NB, lpn);
        SectorMeans(S, lpn, sectOffset);
        ok, vt := WritePage(lpn, sectOffset, data[from..from + n], lba + from);
        if !ok { return; }
        OverwriteOn(old(disk), lba, data, from, from + n);
        SectorStep(S, lpn, sectOffset);
        SectorStep(S, lpn + 1, 0);
        sectOffset, remain, lpn, done := 0, remain - n, lpn + 1, from + n;
      }
      assert data[..|data|] == data;
    }

    /** One round of the loop of ftl_read. */
    method ReadPage(lpn: nat, off: nat, n: nat, ghost lba: nat) returns (data: PageData)
      requires Valid() && 0 < n && off + n <= S && lba == SectorOf(S, lpn, off) && lba + n <= |disk|
      ensures data == disk[lba..lba + n]
    {
      hide Bank.Valid, Holds;
      LpnInside(NB, N, S, lpn, lba);
      LpnParts(NB, lpn);
      var k, l := BankOf(NB, lpn), LocalOf(NB, lpn);
      assert BankOk(k);
      data := banks[k].ReadSectors(l, off, n);
      HeldAt(k, l);
      forall i | 0 <= i < n ensures data[i] == disk[lba + i] {
        assert SectorOf(S, lpn, off + i) == lba + i;
      }
    }

    lemma HeldAt(k: nat, l: nat)
      requires Valid() && k < |banks| && l < N
      ensures |banks[k].View(l)| == S
      ensures forall s: nat :: s < S ==> var q := SectorOf(S, LpnAt(NB, k, l), s);
                q < |disk| && banks[k].View(l)[s] == disk[q]
    {
      hide SectorOf, ViewAt, LpnAt;
      assert BankOk(k);
      var b := banks[k];
      var a := b.Picture(b.curWrite.off + 1);
      ReadShape(b.d, a, l);
      assert b.View(l) == ViewAt(b.d, a.(w := 0), l);
      forall s: nat | s < S ensures var q := SectorOf(S, LpnAt(NB, k, l), s); q < |disk| && b.View(l)[s] == disk[q] {
        assert SectorHeld(b.d, a, NB, disk, l, s);
      }
    }

    /** ftl_read. */
    method FtlRead(lba: nat, n: nat) returns (data: seq<Sector>)
      requires Valid() && lba + n <= |disk|
      ensures data == disk[lba..lba + n]
    {
      hide BankOk, SectorOf;
      Sizes();
      SectorParts(S, lba);
      var lpn: nat, sectOffset: nat, remain: nat := PageIn(S, lba), OffsetIn(S, lba), n;
      data := [];
      while remain != 0
        invariant Valid() && remain <= n && data == disk[lba..lba + (n - remain)]
        invariant remain != 0 ==> SectorOf(S, lpn, sectOffset) == lba + (n - remain) && sectOffset < S
        decreases remain
      {
        var k := if sectOffset + remain < S then remain else S - sectOffset;
        ghost var p := lba + (n - remain);
        var page := ReadPage(lpn, sectOffset, k, p);
        assert disk[lba..p] + disk[p..p + k] == disk[lba..p + k];
        data := data + page;
        SectorStep(S, lpn, sectOffset);
        SectorStep(S, lpn + 1, 0);
        sectOffset, remain, lpn := 0, remain - k, lpn + 1;
      }
    }

    /**
     A run of host commands: every read returns what the flat array would, and no ASSERT fires, up to a
     clash in the n-th command.  With one bank there is none.
     */
    method Run(cmds: seq<Cmd>) returns (ok: bool, outs: seq<seq<Sector>>, ghost k: nat, ghost vt: nat, ghost n: nat)
      requires Valid() && forall i :: 0 <= i < |cmds| ==> InRange(cmds[i], |disk|)
      modifies this, Repr()
      ensures ok ==> Valid() && (disk, outs) == RunFlat(old(disk), cmds)
      ensures !ok ==> Clashes(k, vt) && n < |cmds| && cmds[n].Write? && outs == RunFlat(old(disk), cmds[..n]).1
      ensures NB == 1 ==> ok
    {
      hide BankOk, Apart, Overwrite, RunFlat;
      ok, outs, k, vt, n := true, [], 0, 0, 0;
      ghost var d := disk;
      RunFlatNone(d);
      for i := 0 to |cmds|
        invariant ok && Valid() && |disk| == |d|
        invariant RunFlat(d, cmds[..i]) == (disk, outs)
      {
        RunFlatOn(d, cmds, i);
        match cmds[i]
        case Write(lba, data) =>
          BankCount();
          ghost var done;
          n := i;
          ok, k, vt, done := FtlWrite(lba, data);
          if !ok { return; }
        case Read(lba, size) =>
          var data := FtlRead(lba, size);
          outs := outs + [data];
      }
      assert cmds[..|cmds|] == cmds;
    }

    lemma BankCount()
      requires Valid()
      ensures |banks| == NB
    {
    }
  }
}
