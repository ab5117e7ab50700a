/**
 The sector store of the tutorial FTL that in-device computing uses (ftl_tutorial/ftl.c,
 issd_read_sectors and issd_write_sectors): pages go to the banks in turn and are never
 garbage collected.
 */
module SectorStore {
  import opened Common
  import opened Nand
  import opened BankTurns
  import opened Striping

  /** A physical page: its bank and its row within the bank. */
  datatype Row = Row(bank: nat, row: nat)

  /** What the logical pages hold; None is a page never written. */
  type Disk = seq<Option<PageData>>

  /** The sector at lba, if its page has been written. */
  function Get(d: Disk, S: nat, lba: nat): Option<Sector>
    requires 0 < S
  {
    var l, k := Quot(lba, S), Rem(lba, S);
    if l < |d| && d[l].Some? && k < |d[l].value| then Some(d[l].value[k]) else None
  }

  /** Sectors from lba on hold data; every other sector that was readable reads as before. */
  ghost predicate WrittenAt(d: Disk, d': Disk, S: nat, lba: nat, data: seq<Sector>) {
    && 0 < S && |d'| == |d|
    && (forall q: nat :: lba <= q < lba + |data| ==> Get(d', S, q) == Some(data[q - lba]))
    && (forall q: nat :: !(lba <= q < lba + |data|) && Get(d, S, q).Some? ==> Get(d', S, q) == Get(d, S, q))
  }

  lemma WrittenMore(a: Disk, b: Disk, c: Disk, S: nat, lba: nat, data: seq<Sector>, n: nat, m: nat)
    requires n <= m <= |data|
    requires WrittenAt(a, b, S, lba, data[..n]) && WrittenAt(b, c, S, lba + n, data[n..m])
    ensures WrittenAt(a, c, S, lba, data[..m])
  {
    forall q: nat | lba <= q < lba + m ensures Get(c, S, q) == Some(data[..m][q - lba]) {
      if q < lba + n { assert Get(b, S, q) == Some(data[..n][q - lba]); }
    }
  }

  /** Replacing one page replaces its sectors. */
  lemma PageWritten(d: Disk, S: nat, lpn: nat, off: nat, data: seq<Sector>, page: PageData, lba: nat)
    requires 0 < S && lpn < |d| && |page| == S && off + |data| <= S && lba == lpn * S + off
    requires forall k :: 0 <= k < |data| ==> page[off + k] == data[k]
    requires d[lpn].Some? ==> |d[lpn].value| == S && forall k :: 0 <= k < S && !(off <= k < off + |data|) ==>
             page[k] == d[lpn].value[k]
    ensures WrittenAt(d, d[lpn := Some(page)], S, lba, data)
  {
    var d' := d[lpn := Some(page)];
    hide Quot, Rem;
    forall q: nat {:trigger Get(d', S, q)} ensures lba <= q < lba + |data| ==> Get(d', S, q) == Some(data[q - lba])
      ensures !(lba <= q < lba + |data|) && Get(d, S, q).Some? ==> Get(d', S, q) == Get(d, S, q)
    {
      InPage(S, q, lpn, off, |data|);
      if lba <= q < lba + |data| {
        assert page[off + (q - lba)] == data[q - lba];
      }
    }
  }

  lemma InPage(S: nat, q: nat, lpn: nat, off: nat, n: nat)
    requires 0 < S && off + n <= S
    ensures Quot(q, S) == lpn && off <= Rem(q, S) < off + n <==> lpn * S + off <= q < lpn * S + off + n
    ensures Quot(q, S) == lpn ==> Rem(q, S) == q - lpn * S
  {
    Split(q, S);
    MulOrder(Quot(q, S), lpn, S);
    MulOrder(lpn, Quot(q, S), S);
  }

  lemma SpliceHas(buf: PageData, off: nat, data: seq<Sector>)
    requires off + |data| <= |buf|
    ensures forall k :: 0 <= k < |data| ==> Splice(buf, off, data)[off + k] == data[k]
  {
  }

  /** The holes left and right of the new sectors, filled one after the other. */
  lemma HolesFilled(buf: PageData, held: PageData, off: nat, end: nat)
    requires |buf| == |held| && off <= end <= |buf|
    ensures var b := if off != 0 then held[..off] + buf[off..] else buf;
            var c := if end != |buf| then b[..end] + held[end..] else b;
            |c| == |buf| && forall k :: 0 <= k < |c| ==> c[k] == if off <= k < end then buf[k] else held[k]
  {
    var b := if off != 0 then held[..off] + buf[off..] else buf;
    assert |b| == |buf| && forall k :: 0 <= k < |b| ==> b[k] == if k < off then held[k] else buf[k];
  }

  // ----- the pages left -----

  /** The pages that each bank has left, from its target row on. */
  function Remaining(bad: seq<set<nat>>, PV: nat, V: nat, rows: seq<nat>): (r: seq<nat>)
    requires 0 < PV && |bad| == |rows|
    ensures |r| == |rows| && forall b {:trigger r[b]} :: 0 <= b < |r| ==> r[b] == Usable(bad[b], PV, rows[b], V * PV)
  {
    if rows == [] then []
    else
      var n := |rows| - 1;
      Remaining(bad[..n], PV, V, rows[..n]) + [Usable(bad[n], PV, rows[n], V * PV)]
  }

  /** One bank has a page less. */
  lemma RemainingLess(bad: seq<set<nat>>, PV: nat, V: nat, rows: seq<nat>, b: nat, row: nat)
    requires 0 < PV && |bad| == |rows| && b < |rows|
    requires Usable(bad[b], PV, rows[b], V * PV) == 1 + Usable(bad[b], PV, row, V * PV)
    ensures var left := Remaining(bad, PV, V, rows);
            0 < left[b] && Remaining(bad, PV, V, rows[b := row]) == left[b := left[b] - 1]
  {
    hide Usable;
  }

  /** Within vblock v the quotient is v. */
  lemma WithinVblk(i: nat, lo: nat, hi: nat, PV: nat)
    requires 0 < PV && lo * PV <= i < hi * PV
    ensures lo <= Quot(i, PV) < hi
  {
    Split(i, PV);
    MulOrder(hi, Quot(i, PV), PV);
    MulOrder(Quot(i, PV), lo, PV);
  }

  lemma SkippedBad(bad: set<nat>, PV: nat, V: nat, row: nat, vblk: nat, i: nat)
    requires 0 < PV && forall v :: Quot(row, PV) <= v < V && v < vblk ==> v in bad
    requires row <= i < vblk * PV && vblk <= V
    ensures Quot(i, PV) in bad
  {
    hide Quot, Rem;
    Split(row, PV);
    WithinVblk(i, Quot(row, PV), vblk, PV);
  }

  /** What skipping bad vblocks, from the start of one of them only, comes to. */
  lemma Skipped(bad: set<nat>, PV: nat, V: nat, row: nat, vblk: nat)
    requires 0 < PV && Quot(row, PV) <= vblk && forall v :: Quot(row, PV) <= v < V && v < vblk ==> v in bad
    requires Rem(row, PV) != 0 ==> vblk == Quot(row, PV)
    ensures V <= vblk ==> Usable(bad, PV, row, V * PV) == 0
    ensures vblk < V && vblk !in bad ==>
              Usable(bad, PV, row, V * PV) == 1 + Usable(bad, PV, vblk * PV + Rem(row, PV) + 1, V * PV)
  {
    hide Quot, Rem;
    Split(row, PV);
    MulOrder(Quot(row, PV), vblk, PV);
    MulOrder(V, vblk, PV);
    MulOrder(vblk, V, PV);
    if vblk < V {
      var next := vblk * PV + Rem(row, PV);
      assert (vblk + 1) * PV == vblk * PV + PV;
      forall i: nat {:trigger Quot(i, PV)} | row <= i < next ensures Quot(i, PV) in bad {
        SkippedBad(bad, PV, V, row, vblk, i);
      }
      UsableSkip(bad, PV, row, next, V * PV);
      WithinVblk(next, vblk, vblk + 1, PV);
    } else if row < V * PV {
      forall i: nat {:trigger Quot(i, PV)} | row <= i < V * PV ensures Quot(i, PV) in bad {
        SkippedBad(bad, PV, V, row, V, i);
      }
      UsableSkip(bad, PV, row, V * PV, V * PV);
    }
  }

  /** A bank has no page left if and only if its next page begins a vblock and only bad ones are left. */
  lemma UsedUp(bad: set<nat>, PV: nat, V: nat, row: nat)
    requires 0 < PV && (Rem(row, PV) != 0 ==> Quot(row, PV) !in bad)
    ensures Usable(bad, PV, row, V * PV) == 0 <==>
              (Quot(row, PV) < V ==> Rem(row, PV) == 0) && forall v :: Quot(row, PV) <= v < V ==> v in bad
  {
    hide Quot, Rem, Usable;
    Split(row, PV);
    var q := Quot(row, PV);
    if V <= q {
      Skipped(bad, PV, V, row, q);
    } else if Rem(row, PV) != 0 {
      Skipped(bad, PV, V, row, q);
    } else if forall v :: q <= v < V ==> v in bad {
      Skipped(bad, PV, V, row, V);
    } else {
      var v :| q <= v < V && v !in bad;
      MulOrder(q, v, PV);
      MulOrder(v, V, PV);
      assert (v + 1) * PV == v * PV + PV;
      WithinVblk(v * PV, v, v + 1, PV);
      UsableSome(bad, PV, row, v * PV, V * PV);
    }
  }

  class Store {
    const NB: nat             // NUM_BANKS
    const S: nat              // SECTORS_PER_PAGE
    const PV: nat             // PAGES_PER_VBLK
    const V: nat              // VBLKS_PER_BANK
    const bad: seq<set<nat>>  // bad vblocks of each bank
    const computing: array<Sector> // the buffer at ISSD_COMPUTING_ADDR

    var pageMap: seq<Option<Row>>
    var targetRow: seq<nat>
    var targetBank: nat
    var rows: seq<seq<Page>>  // [bank][row]
    var wrBuf: PageData       // ISSD_WR_BUF_ADDR
    ghost var disk: Disk

    ghost predicate PageOk(l: nat)
      reads this
    {
      && l < |pageMap| && l < |disk|
      && if pageMap[l].None? then disk[l].None?
         else
           var x := pageMap[l].value;
           && x.bank < |rows| && x.bank < |targetRow| && x.row < |rows[x.bank]| && x.row < targetRow[x.bank]
           && rows[x.bank][x.row].Written? && disk[l] == Some(rows[x.bank][x.row].sects) && |disk[l].value| == S
    }

    /** The rows from the target row on are erased. */
    ghost predicate BankOk(b: nat)
      reads this
    {
      && b < |rows| && b < |targetRow| && |rows[b]| == V * PV && BlankFrom(rows[b], targetRow[b])
      && b < |bad| && 0 < PV && (Rem(targetRow[b], PV) != 0 ==> Quot(targetRow[b], PV) !in bad[b])
    }

    /** Bank b has no page left: its next page is the first of a vblock, and that and all later vblocks are bad. */
    ghost predicate BankFull(b: nat)
      reads `targetRow
    {
      && b < |targetRow| && b < |bad| && 0 < PV
      && (Quot(targetRow[b], PV) < V ==> Rem(targetRow[b], PV) == 0)
      && forall v :: Quot(targetRow[b], PV) <= v < V ==> v in bad[b]
    }

    /** The pages that each bank has left. */
    ghost function Left(): seq<nat>
      reads `targetRow
    {
      if 0 < PV && |bad| == |targetRow| then Remaining(bad, PV, V, targetRow) else []
    }

    /** A bank is full when it has no page left. */
    lemma FullMeans(bank: nat)
      requires Valid() && bank < NB
      ensures |Left()| == NB && (BankFull(bank) <==> Left()[bank] == 0)
    {
      assert BankOk(bank);
      UsedUp(bad[bank], PV, V, targetRow[bank]);
    }

    ghost predicate Valid()
      reads this
    {
      exists d :: d == disk && Sound(d)
    }

    ghost predicate Sound(d: Disk)
      reads this
    {
      && 0 < NB && 0 < S && 0 < PV && |bad| == |targetRow| == |rows| == NB && targetBank < NB && |wrBuf| == S
      && |pageMap| == |d| == |disk|
      && (forall l: nat {:trigger PageOk(l)} :: l < |d| ==> PageOk(l))
      && (forall b: nat {:trigger BankOk(b)} :: b < NB ==> BankOk(b))
    }

    /** ftl_open: nothing is mapped, and every bank is written from its second vblock on. */
    constructor (NB: nat, S: nat, PV: nat, V: nat, bad: seq<set<nat>>, pages: nat, cntPages: nat)
      requires 0 < NB && 0 < S && 0 < PV && 1 <= V && |bad| == NB
      ensures Valid() && this.S == S && |disk| == pages && computing.Length == cntPages * S && fresh(computing)
      ensures forall l :: 0 <= l < pages ==> disk[l].None?
      ensures |Left()| == NB && targetBank == 0
      ensures forall b {:trigger Left()[b]} :: 0 <= b < NB ==> Left()[b] == Usable(bad[b], PV, PV, V * PV)
    {
      this.NB, this.S, this.PV, this.V, this.bad := NB, S, PV, V, bad;
      computing := new Sector[cntPages * S](_ => Blank);
      pageMap := seq(pages, _ => None);
      disk := seq(pages, _ => None);
      targetRow := seq(NB, _ => PV);
      targetBank := 0;
      rows := ErasedBlocks(NB, V * PV);
      wrBuf := BlankData(S);
      new;
      assert Sound(disk);
    }

    /** The scan of get_free_page over bad vblocks. */
    method SkipBadBlocks(bank: nat, from: nat) returns (vblk: nat)
      requires bank < |bad|
      ensures from <= vblk && (vblk < V ==> vblk !in bad[bank])
      ensures forall v :: from <= v < V && v < vblk ==> v in bad[bank]
    {
      vblk := from;
      while vblk in bad[bank] && vblk < V
        invariant from <= vblk && forall v :: from <= v < vblk ==> v in bad[bank]
      {
        vblk := vblk + 1;
      }
    }

    /** get_free_page; without a free page left the firmware stops, and ok is false. */
    method GetFreePage(bank: nat) returns (ok: bool, row: nat)
      requires Valid() && bank < NB
      modifies `targetRow
      ensures ok <==> !old(BankFull(bank))
      ensures ok ==> old(targetRow[bank]) <= row < V * PV == |rows[bank]|
      ensures ok ==> targetRow == old(targetRow)[bank := row + 1]
      // only bad vblocks are passed over, and only from the start of a vblock
      ensures ok ==> Rem(row, PV) == Rem(old(targetRow[bank]), PV)
      ensures ok && Rem(row, PV) != 0 ==> row == old(targetRow[bank])
      ensures ok ==> forall v :: Quot(old(targetRow[bank]), PV) <= v < Quot(row, PV) ==> v in bad[bank]
      ensures |Left()| == NB && (ok <==> 0 < old(Left())[bank])
      ensures !ok ==> targetRow == old(targetRow)
      ensures ok ==> Left() == old(Left())[bank := old(Left())[bank] - 1]
      ensures ok ==> Rem(row + 1, PV) != 0 ==> Quot(row + 1, PV) !in bad[bank]
      ensures ok ==> BlankFrom(rows[bank], row) && (Rem(row, PV) == 0 ==> Quot(row, PV) !in bad[bank])
    {
      hide Quot, Rem, BlankFrom, Usable;
      FullMeans(bank);
      assert BankOk(bank);
      row := targetRow[bank];
      Split(row, PV);
      var vblk, page := Quot(row, PV), Rem(row, PV);
      if page == 0 {
        vblk := SkipBadBlocks(bank, vblk);
      }
      if vblk >= V {
        assert BankFull(bank);
        return false, row;
      }
      RowOrder(row, vblk, page, PV, V);
      Skipped(bad[bank], PV, V, row, vblk);
      RemainingLess(bad, PV, V, targetRow, bank, vblk * PV + page + 1);
      NextRow(vblk * PV + page, PV);
      BlankLater(rows[bank], row, vblk * PV + page);
      row := vblk * PV + page;
      targetRow := targetRow[bank := row + 1];
      ok := true;
    }

    /**
     The page to program: the new sectors, and around them the old ones; a page never written takes what the
     buffer held.
     */
    method FillBuffer(l: nat, off: nat, data: seq<Sector>)
      requires PageOk(l) && |wrBuf| == S && off + |data| <= S
      modifies `wrBuf
      ensures |wrBuf| == S && forall k :: 0 <= k < |data| ==> wrBuf[off + k] == data[k]
      ensures disk[l].Some? ==> forall k :: 0 <= k < S && !(off <= k < off + |data|) ==> wrBuf[k] == disk[l].value[k]
    {
      hide Splice;
      SpliceHas(wrBuf, off, data);
      ghost var spliced := Splice(wrBuf, off, data);
      wrBuf := Splice(wrBuf, off, data);
      var end := off + |data|;
      if pageMap[l].Some? {
        var x := pageMap[l].value;
        var held := rows[x.bank][x.row].sects;
        HolesFilled(wrBuf, held, off, end);
        if off != 0 { wrBuf := held[..off] + wrBuf[off..]; }
        if end != S { wrBuf := wrBuf[..end] + held[end..]; }
        assert forall k :: 0 <= k < S ==> wrBuf[k] == if off <= k < end then spliced[k] else held[k];
      }
    }

    method NandPageProgram(bank: nat, row: nat, page: Page)
      requires bank < |rows| && row < |rows[bank]| && BlankFrom(rows[bank], row)
      modifies `rows
      ensures rows == old(rows)[bank := old(rows)[bank][row := page]]
    {
      rows := rows[bank := rows[bank][row := page]];
    }

    /**
     One round of issd_write_sectors: sectors off.. of page l are written, with the rest of the page, to a
     fresh page.
     */
    method WritePage(l: nat, off: nat, data: seq<Sector>, ghost lba: nat) returns (ok: bool)
      requires Valid() && l < |disk| && off + |data| <= S && lba == l * S + off
      modifies `pageMap, `targetRow, `targetBank, `rows, `wrBuf, `disk
      ensures Valid() && |Left()| == NB && (ok <==> 0 < old(Left())[old(targetBank)])
      ensures targetBank == BankOf(NB, old(targetBank) + 1)
      ensures ok ==> WrittenAt(old(disk), disk, S, lba, data)
      ensures ok ==> Left() == old(Left())[old(targetBank) := old(Left())[old(targetBank)] - 1]
      ensures !ok ==> disk == old(disk) && Left() == old(Left())
    {
      hide BlankFrom, WrittenAt, BankFull, Left;
      assert PageOk(l);
      var bank := targetBank;
      targetBank := (targetBank + 1) % NB;
      Untouched(old(disk));
      var row;
      ok, row := GetFreePage(bank);
      if !ok {
        Untouched(old(disk));
        return;
      }
      FillBuffer(l, off, data);
      BlankAfter(rows[bank], row, Written(wrBuf));
      NandPageProgram(bank, row, Written(wrBuf));
      PageWritten(disk, S, l, off, data, wrBuf, lba);
      pageMap := pageMap[l := Some(Row(bank, row))];
      disk := disk[l := Some(wrBuf)];
      forall k: nat | k < |disk| ensures PageOk(k) { assert k != l ==> old(PageOk(k)); }
      forall b: nat | b < NB ensures BankOk(b) { assert old(BankOk(b)); }
      assert Sound(disk);
    }

    /** The state is sound still when nothing but the turn of the banks is new. */
    twostate lemma Untouched(d: Disk)
      requires old(Sound(d)) && pageMap == old(pageMap) && targetRow == old(targetRow) && targetBank < NB
      requires rows == old(rows) && wrBuf == old(wrBuf) && disk == old(disk) == d
      ensures Valid()
    {
      forall l: nat | l < |d| ensures PageOk(l) { assert old(PageOk(l)); }
      forall b: nat | b < NB ensures BankOk(b) { assert old(BankOk(b)); }
      assert Sound(d);
    }

    lemma Sizes()
      requires Valid()
      ensures 0 < S && |Left()| == NB && targetBank < NB && forall l: nat :: l < |disk| ==> PageOk(l)
    {
    }

    /**
     issd_write_sectors, from position p of the computing buffer: it succeeds if and only if the banks have
     the pages for it, in turn.  If not, it stops at the bank that has none; done sectors have been written
     then, in so many pages.
     */
    method IssdWriteSectors(p: nat, lba: nat, n: nat) returns (ok: bool, ghost done: nat, ghost pages: nat)
      requires Valid() && p + n <= computing.Length && lba + n <= |disk| * S
      modifies `pageMap, `targetRow, `targetBank, `rows, `wrBuf, `disk
      ensures Valid() && done <= n && WrittenAt(old(disk), disk, S, lba, computing[p..p + done])
      ensures (ok <==> done == n) && pages <= done && (ok ==> pages == PageCount(S, lba, n))
      ensures ok <==> Takes(old(Left()), old(targetBank), PageCount(S, lba, n))
      ensures Spent(old(Left()), old(targetBank), Left(), targetBank, pages, !ok)
    {
      hide WrittenAt, Quot, Rem, PageOk, BankOk, Sound, BankFull, Left, Takes, Wrote, BankOf, PageCount;
      Sizes();
      SamePlace(S, lba);
      ghost var left, t := Left(), targetBank;
      WroteNone(left, t);
      pages := 0;
      Split(lba, S);
      var data := computing[p..p + n];
      var l: nat, off: nat, remain: nat := Quot(lba, S), Rem(lba, S), n;
      ok, done := true, 0;
      WrittenNone(disk, S, lba);
      while remain != 0
        modifies `pageMap, `targetRow, `targetBank, `rows, `wrBuf, `disk
        invariant ok && Valid() && remain <= n && |disk| == |old(disk)|
        invariant remain != 0 ==> l * S + off == lba + (n - remain) && off < S
        invariant WrittenAt(old(disk), disk, S, lba, data[..n - remain])
        invariant Wrote(left, t, Left(), targetBank, pages) && pages <= n - remain
        invariant l == Quot(lba, S) + pages && (remain == 0 ==> pages == PageCount(S, lba, n))
        decreases remain
      {
        Sizes();
        PageBefore(S, lba, n, l, off, n - remain);
        ghost var left', t' := Left(), targetBank;
        WroteBank(left, t, left', t', pages);
        var k: nat := if off + remain >= S then S - off else remain;
        var from: nat := n - remain;
        ghost var d := disk;
        MulOrder(|disk|, l, S);
        ok := WritePage(l, off, data[from..from + k], lba + from);
        if !ok {
          assert data[..from] == computing[p..p + from];
          TakesWrote(left, t, left', t', pages, PageCount(S, lba, n));
          return false, from, pages;
        }
        WroteOne(left', t');
        WroteMore(left, t, left', t', pages, Left(), targetBank, 1);
        if k == remain { LastPage(S, lba, n, l, off, from, k); }
        pages := pages + 1;
        WrittenSize(d, disk, S, lba + from, data[from..from + k]);
        WrittenMore(old(disk), d, disk, S, lba, data, from, from + k);
        assert (l + 1) * S == l * S + S;
        off, remain, l := 0, remain - k, l + 1;
      }
      assert data[..n] == data;
      done := n;
      TakesWrote(left, t, Left(), targetBank, pages, pages);
      WroteBank(left, t, Left(), targetBank, pages);
    }

    /** issd_read_sectors, into the computing buffer; it fails exactly when one of the pages has never been written. */
    method IssdReadSectors(lba: nat, n: nat) returns (ok: bool)
      requires Valid() && Rem(lba, S) + n <= computing.Length && lba + n <= |disk| * S
      modifies computing
      ensures ok <==> forall q: nat :: lba <= q < lba + n ==> Get(disk, S, q).Some?
      ensures ok ==> forall q: nat :: lba <= q < lba + n ==> Get(disk, S, q) == Some(computing[Rem(lba, S) + (q - lba)])
    {
      hide Quot, Rem, BankOk;
      Split(lba, S);
      var l: nat, off: nat, remain: nat := Quot(lba, S), Rem(lba, S), n;
      var buf: nat := 0;
      ok := true;
      while remain != 0
        invariant ok && remain <= n
        invariant remain != 0 ==>
          l * S + off == lba + (n - remain) && off < S && buf + off == Rem(lba, S) + (n - remain)
        invariant forall q: nat :: lba <= q < lba + (n - remain) ==>
          Get(disk, S, q) == Some(computing[Rem(lba, S) + (q - lba)])
        decreases remain
      {
        var k: nat := if off + remain < S then remain else S - off;
        MulOrder(|disk|, l, S);
        assert PageOk(l);
        ghost var q0 := lba + (n - remain);
        PageSectors(disk, S, l, off, k, q0);
        if pageMap[l].None? {
          assert Get(disk, S, q0).None?;
          return false;
        }
        var x := pageMap[l].value;
        var held := rows[x.bank][x.row].sects;
        forall i | 0 <= i < k {
          computing[buf + off + i] := held[off + i];
        }
        assert (l + 1) * S == l * S + S;
        buf, off, remain, l := buf + S, 0, remain - k, l + 1;
      }
    }
  }

  lemma SamePlace(S: nat, lba: nat)
    requires 0 < S
    ensures PageIn(S, lba) == Quot(lba, S) && PageCount(S, lba, 0) == 0
    ensures forall l: nat, o: nat :: SectorOf(S, l, o) == l * S + o
  {
  }

  lemma WrittenNone(d: Disk, S: nat, lba: nat)
    requires 0 < S
    ensures WrittenAt(d, d, S, lba, [])
  {
  }

  lemma WrittenSize(d: Disk, d': Disk, S: nat, lba: nat, data: seq<Sector>)
    requires WrittenAt(d, d', S, lba, data)
    ensures |d'| == |d|
  {
  }

  /** The sectors of one page. */
  lemma PageSectors(d: Disk, S: nat, l: nat, off: nat, k: nat, q0: nat)
    requires 0 < S && l < |d| && off + k <= S && q0 == l * S + off && (d[l].Some? ==> |d[l].value| == S)
    ensures forall q: nat :: q0 <= q < q0 + k ==>
            Get(d, S, q) == if d[l].Some? then Some(d[l].value[off + (q - q0)]) else None
  {
    hide Quot, Rem;
    forall q: nat | q0 <= q < q0 + k
      ensures Get(d, S, q) == if d[l].Some? then Some(d[l].value[off + (q - q0)]) else None {
      InPage(S, q, l, off, k);
    }
  }

  /** A row that is not the first of its vblock lies in the vblock of the row before. */
  lemma NextRow(row: nat, PV: nat)
    requires 0 < PV
    ensures Rem(row + 1, PV) != 0 ==> Quot(row + 1, PV) == Quot(row, PV)
  {
    Split(row + 1, PV);
    Split(row, PV);
    MulOrder(Quot(row, PV), Quot(row + 1, PV), PV);
    MulOrder(Quot(row + 1, PV), Quot(row, PV), PV);
  }

  lemma BlankAfter(b: Block, o: nat, p: Page)
    requires o < |b| && BlankFrom(b, o)
    ensures BlankFrom(b[o := p], o + 1)
  {
  }

  lemma BlankLater(b: Block, o: int, p: int)
    ensures BlankFrom(b, o) && o <= p ==> BlankFrom(b, p)
  {
  }

  lemma RowOrder(row: nat, vblk: nat, page: nat, PV: nat, V: nat)
    requires 0 < PV && page == Rem(row, PV) && Quot(row, PV) <= vblk < V
    ensures row <= vblk * PV + page < V * PV
    ensures Quot(vblk * PV + page, PV) == vblk && Rem(vblk * PV + page, PV) == page
  {
    Split(row, PV);
    MulOrder(Quot(row, PV), vblk, PV);
    MulOrder(vblk, V, PV);
    Striping.DivMod(vblk, PV, page);
  }
}
