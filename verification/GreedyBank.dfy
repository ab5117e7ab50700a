/**
 The greedy page-mapped FTL on one bank (ftl_greedy/ftl.c).  The ASSERTs of the source are
 asserts here: they hold on every run.
 */
module GreedyBank {
  import opened Common
  import Nand
  import opened GreedyState
  import opened GreedySteps

  class Bank {
    const d: Dim
    const lpnList: array<Lpn>    // lpn_list_of_cur_vblock

    var flash: seq<Block>
    var pageMap: seq<Option<Addr>> // None stands for NULL
    var vcount: seq<nat>
    var curWrite: Addr           // cur_write_vpn
    var gcVblock: nat
    var freeBlkCnt: nat
    ghost var wrapped: bool

    /** The bank with w pages of its current block passed. */
    ghost function Picture(w: nat): Pic
      reads this, lpnList
    {
      Pic(flash, pageMap, vcount, lpnList[..], curWrite.blk, w, Some(gcVblock), wrapped)
    }

    /** The logical pages are fewer than P - 2 to a data block. */
    predicate Capacity()
    {
      d.N < (|d.blocks| - 1) * (d.P - 2)
    }

    /** The current block is not full, and the count of free blocks is right. */
    ghost predicate Ready(a: Pic)
      reads `freeBlkCnt
    {
      Targeted(d, a) && freeBlkCnt == 1 + |Open(d, a)|
    }

    ghost predicate Valid()
      reads this, lpnList
    {
      var a := Picture(curWrite.off + 1);
      && Inv(d, a) && a.blk < |a.flash| && !Closed(a.flash[a.blk]) && freeBlkCnt == 1 + |Open(d, a)|
      && FullPages(d, a) && Capacity() && 0 !in d.blocks
    }

    /** What the host reads at lpn l. */
    ghost function View(l: nat): PageData
      reads this, lpnList
    {
      ViewAt(d, Picture(0), l)
    }

    /**
     format: good lists the usable blocks behind the metadata area in ascending order.  The first
     is kept for garbage collection, and the second is written first, from its second page on.
     */
    constructor (P: nat, S: nat, V: nat, N: nat, good: seq<nat>, no: nat)
      requires 4 <= P < VC_MAX && 1 <= S && 1 <= N
      requires 2 <= |good| && N < (|good| - 1) * (P - 2) && forall i :: 0 <= i < |good| ==> 0 < good[i] < V
      requires forall i, j :: 0 <= i < j < |good| ==> good[i] < good[j]
      ensures Valid() && d == Dim(P, S, V, N, Elems(good), no)
      ensures AllBlank(d, Picture(curWrite.off + 1))
      ensures flash == ErasedBlocks(V, P) && pageMap == NoPages(N) && vcount == FirstCounts(V, good[1..])
      ensures gcVblock == good[0] && curWrite == Addr(good[1], 0) && freeBlkCnt == |good|
      ensures fresh(lpnList)
    {
      hide ErasedBlock, ErasedBlocks, Open;
      d := Dim(P, S, V, N, Elems(good), no);
      lpnList := new Lpn[P](_ => ZERO);
      flash := ErasedBlocks(V, P);
      pageMap := NoPages(N);
      vcount := FirstCounts(V, good[1..]);
      gcVblock, curWrite := good[0], Addr(good[1], 0);
      freeBlkCnt := |good|;
      wrapped := false;
      new;
      FormatOk(d, Picture(1), good);
    }

    /** What the tables hold can be written as words. */
    lemma Bounds()
      requires Valid()
      ensures 4 <= d.P && |pageMap| == d.N && |vcount| == d.V && lpnList.Length == d.P && Named(d, lpnList[..])
      ensures forall l :: 0 <= l < d.N && pageMap[l].Some? ==> pageMap[l].value.off < d.P && 0 < pageMap[l].value.blk
      ensures curWrite.off < d.P && 0 < curWrite.blk < d.V
    {
      var a := Picture(curWrite.off + 1);
      forall l: nat | l < d.N && pageMap[l].Some? ensures pageMap[l].value.off < d.P && 0 < pageMap[l].value.blk {
        assert LocOk(d, a, l);
      }
    }

    /** load_metadata, as far as it concerns this bank. */
    method Restore(pageMap: seq<Option<Addr>>, vcount: seq<nat>, x: Addr, gc: nat, free: nat, list: seq<Lpn>)
      requires |list| == lpnList.Length
      modifies `pageMap, `vcount, `curWrite, `gcVblock, `freeBlkCnt, lpnList
      ensures this.pageMap == pageMap && this.vcount == vcount && curWrite == x && gcVblock == gc && freeBlkCnt == free
      ensures lpnList[..] == list
    {
      this.pageMap, this.vcount, curWrite, gcVblock, freeBlkCnt := pageMap, vcount, x, gc, free;
      forall i | 0 <= i < lpnList.Length {
        lpnList[i] := list[i];
      }
    }

    /** The power is off: nothing is known of the tables. */
    method Lose()
      modifies `pageMap, `vcount, `curWrite, `gcVblock, `freeBlkCnt, lpnList
    {
      pageMap, vcount, curWrite, gcVblock, freeBlkCnt := *, *, *, *, *;
      for i := 0 to lpnList.Length {
        lpnList[i] := *;
      }
    }

    // ----- NAND operations; programming must respect the order of pages -----

    method NandPageProgram(x: Addr, p: Page)
      requires x.blk < |flash| && x.off < |flash[x.blk]| && BlankFrom(flash[x.blk], x.off)
      modifies `flash
      ensures flash == Put(old(flash), x, p)
    {
      flash := Put(flash, x, p);
    }

    method NandBlockErase(b: nat)
      requires b < |flash|
      modifies `flash
      ensures flash == old(flash)[b := ErasedBlock(d.P)]
    {
      flash := flash[b := ErasedBlock(d.P)];
    }

    // ----- garbage collection -----

    /** get_vt_vblock: the hardware search returns some block with the least count. */
    method GetVtVblock() returns (vt: nat)
      requires vcount != []
      ensures LeastAt(vcount, vt)
    {
      MinExists(vcount);
      vt :| vt < |vcount| && LeastAt(vcount, vt);
    }

    /** read_lpn_list: the list in the last page of block vt comes into memory. */
    method LoadList(vt: nat)
      requires vt < |flash| && |flash[vt]| == lpnList.Length && Closed(flash[vt])
      modifies lpnList
      ensures lpnList[..] == flash[vt][|flash[vt]| - 1].lpns
    {
      var list := flash[vt][|flash[vt]| - 1].lpns;
      forall i | 0 <= i < lpnList.Length {
        lpnList[i] := list[i];
      }
    }

    /** Garbage collection under way: the spare block gcVblock is being filled, f pages so far. */
    ghost function Moving(f: nat): Pic
      reads this, lpnList
    {
      Pic(flash, pageMap, vcount, lpnList[..], gcVblock, f, None, true)
    }

    /** One round of the loop of garbage_collection: page o of victim vt, listed as lpn l, is live. */
    method MovePage(vt: nat, l: nat, o: nat, f: nat)
      requires GcAt(d, Moving(f), vt, l, o)
      modifies `flash, `pageMap, lpnList
      ensures Struct(d, Moving(f + 1)) && Counts(d, Moving(f + 1), {vt, gcVblock}) &&
              SameView(d, old(Moving(f)), Moving(f + 1))
      ensures gcVblock < |flash| && !Closed(flash[gcVblock])
      ensures l < |old(pageMap)| && pageMap == old(pageMap)[l := Some(Addr(gcVblock, f))]
      ensures f < lpnList.Length && lpnList[..] == old(lpnList[..])[f := Lpn(d.no, l)]
      ensures vt < |flash| == |old(flash)| && flash[vt] == old(flash[vt])
    {
      hide Struct, Counts, SameView;
      ghost var a := Moving(f);
      GcShape(d, a, vt, l, o);
      var p := Written(Content(d.S, flash[vt][o]));
      GcMovedOk(d, a, vt, l, o, p);
      NandPageProgram(Addr(gcVblock, f), p);
      pageMap := pageMap[l := Some(Addr(gcVblock, f))];
      lpnList[f] := Lpn(d.no, l);
      assert Moving(f + 1) == GcMoved(d, a, l, p);
    }

    /**
     The loop of garbage_collection: the live pages of vt move to the spare block, and the list is
     compacted in place.  zero is where the page map has lpn 0; if that is, by its number, the page 0
     of vt that has never been written, one page too many is moved, and the ASSERT behind the loop
     fails.
     */
    method MoveLivePages(vt: nat, zero: Option<Addr>, ghost vcount0: nat) returns (ok: bool, f: nat)
      requires Struct(d, Moving(0)) && Counts(d, Moving(0), {vt, gcVblock})
      requires gcVblock < |flash| && !Closed(flash[gcVblock])
      requires vt in d.blocks && vt != gcVblock && vt < |flash| && Closed(flash[vt])
      requires flash[vt][|flash[vt]| - 1].lpns == lpnList[..]
      requires |LiveIn(pageMap, vt)| == vcount0 && LiveIn(pageMap, gcVblock) == {}
      modifies `flash, `pageMap, lpnList
      ensures ok <==> !Clash(d, old(flash), vt, zero)
      ensures !ok ==> flash == old(flash) && pageMap == old(pageMap)
      ensures ok ==> Struct(d, Moving(f)) && Counts(d, Moving(f), {vt, gcVblock})
      ensures ok ==> SameView(d, old(Moving(0)), Moving(f))
      ensures ok ==> f == vcount0 && LiveIn(pageMap, vt) == {} && |LiveIn(pageMap, gcVblock)| == f
      ensures ok ==> gcVblock < |flash| && !Closed(flash[gcVblock])
    {
      ghost var a, list := Moving(0), lpnList[..];
      hide Struct, Counts, SameView, Passed, LiveIn, Clash, PageListed;
      ok, f := true, 0;
      MovingShape(d, a);
      NonePassed(pageMap, vt);
      SameViewRefl(d, a);
      for o := 0 to d.P - 1
        modifies `flash, `pageMap, lpnList
        invariant ok && (0 < o ==> !Clash(d, old(flash), vt, zero))
        invariant o == 0 ==> flash == old(flash) && pageMap == old(pageMap)
        invariant Struct(d, Moving(f)) && Counts(d, Moving(f), {vt, gcVblock}) && SameView(d, a, Moving(f))
        invariant f <= o && Passed(pageMap, vt, o)
        invariant |LiveIn(pageMap, vt)| + f == vcount0 && |LiveIn(pageMap, gcVblock)| == f
        invariant gcVblock < |flash| && !Closed(flash[gcVblock]) && vt < |flash| && flash[vt] == old(flash[vt])
        invariant lpnList.Length == |list| && lpnList[o..] == list[o..]
      {
        ghost var b := Moving(f);
        GcListed(d, b, vt, o);
        var src := lpnList[o];
        assert src == lpnList[o..][0] == list[o..][0];
        var own := src.bank == d.no;
        EntryMeans(d, old(flash), vt, src, o, zero);
        var vpn := if own then pageMap[src.l] else zero;
        if vpn == Some(Addr(vt, o)) {
          if !own { return false, f; }
          GcMovedCounts(pageMap, vt, src.l, Addr(gcVblock, f));
          PassedOn(pageMap, vt, src.l, o, Addr(gcVblock, f), d, b);
          MovePage(vt, src.l, o, f);
          f := f + 1;
        } else {
          NonePassedAt(pageMap, vt, o);
        }
        SameViewTrans(d, a, b, Moving(f));
      }
      AllPassed(d, Moving(f), vt);
    }

    /**
     garbage_collection: the live pages of the block with the fewest of them move to the spare
     block, which becomes current, and the victim is erased and becomes the spare block.  It fails
     exactly when the victim's page 0 clashes with lpn 0.
     */
    method GarbageCollection(zero: Option<Addr>) returns (ok: bool, ghost vt: nat)
      requires Inv(d, Picture(curWrite.off + 1)) && Open(d, Picture(curWrite.off + 1)) == {} && Capacity()
      requires freeBlkCnt == 1
      modifies `flash, `pageMap, `vcount, `curWrite, `gcVblock, `freeBlkCnt, `wrapped, lpnList
      ensures LeastAt(old(vcount), vt) && (ok <==> !Clash(d, old(flash), vt, zero))
      ensures !ok ==> flash == old(flash) && pageMap == old(pageMap) && vcount == old(vcount)
      ensures ok ==> Ready(Picture(curWrite.off)) && SameView(d, old(Picture(curWrite.off + 1)), Picture(curWrite.off))
      ensures ok ==> wrapped && gcVblock == vt != old(gcVblock) && curWrite == Addr(old(gcVblock), old(vcount)[vt])
    {
      hide Struct, Counts, SameView, LiveIn, Open, Clash;
      ghost var a := Picture(curWrite.off + 1);
      InvShape(d, a);
      var victim := GetVtVblock();
      vt := victim;
      VictimOk(d, a, vt);
      var valid := vcount[victim];
      assert vt != gcVblock && valid < d.P - 1 && vcount[gcVblock] == VC_MAX;
      LoadList(victim);
      wrapped := true;
      GcBegunOk(d, a, vt, lpnList[..]);
      ghost var b := Moving(0);
      var f;
      ok, f := MoveLivePages(victim, zero, valid);
      if !ok { return; }
      ghost var c := Moving(f);
      SameViewTrans(d, a, b, c);
      assert f + 2 < d.P && f == valid;
      GcEndedOk(d, c, vt);
      NandBlockErase(victim);
      vcount := vcount[victim := VC_MAX];
      vcount := vcount[gcVblock := valid];
      curWrite := Addr(gcVblock, f);
      gcVblock := victim;
      freeBlkCnt := freeBlkCnt + 1;
      assert Picture(curWrite.off) == GcEnded(d, c, vt);
      SameViewTrans(d, a, c, Picture(curWrite.off));
    }

    // ----- where the next page goes -----

    /** The lpn list goes to the last page of the current block, and the list in memory is cleared. */
    method CloseBlock()
      requires Inv(d, Picture(curWrite.off + 1)) && curWrite.off + 2 == d.P
      requires curWrite.blk < |flash| && !Closed(flash[curWrite.blk]) &&
               freeBlkCnt == 1 + |Open(d, Picture(curWrite.off + 1))|
      modifies `flash, `freeBlkCnt, lpnList
      ensures Inv(d, Picture(curWrite.off + 1))
      ensures SameView(d, old(Picture(curWrite.off + 1)), Picture(curWrite.off + 1))
      ensures curWrite.blk < |flash| && Closed(flash[curWrite.blk])
      ensures freeBlkCnt == 1 + |Open(d, Picture(curWrite.off + 1))| && freeBlkCnt + 1 == old(freeBlkCnt)
      ensures SameBut(old(flash), flash, curWrite.blk, d.P - 1)
    {
      hide Inv, SameView, Open;
      ghost var a := Picture(curWrite.off + 1);
      InvShape(d, a);
      ListClosedOk(d, a);
      NandPageProgram(Addr(curWrite.blk, d.P - 1), LpnList(lpnList[..]));
      forall i | 0 <= i < lpnList.Length {
        lpnList[i] := ZERO;
      }
      freeBlkCnt := freeBlkCnt - 1;
      assert lpnList[..] == Zeros(d.P);
      assert Picture(curWrite.off + 1) == ListClosed(d, a);
    }

    /** The scan of assign_new_write_vpn; it never runs past the last block. */
    method NextVblock() returns (b: nat)
      requires Inv(d, Picture(curWrite.off + 1)) && curWrite.blk < |flash| && Closed(flash[curWrite.blk])
      requires Open(d, Picture(curWrite.off + 1)) != {}
      ensures NextOpen(d, Picture(curWrite.off + 1), b)
    {
      hide Inv, Open;
      ghost var a := Picture(curWrite.off + 1);
      InvShape(d, a);
      NextExists(d, a);
      ghost var next :| next in Open(d, a) && a.blk < next;
      OpenCounted(d, a, next);
      b := curWrite.blk + 1;
      VcMaxMeans(d, a, b);
      while vcount[b] == VC_MAX
        invariant curWrite.blk < b <= next
        invariant forall c :: c in d.blocks && a.blk < c < b ==> a.gc == Some(c)
        invariant vcount[b] == VC_MAX <==> !(b in d.blocks && a.gc != Some(b))
        decreases next - b
      {
        b := b + 1;
        assert b != d.V;
        VcMaxMeans(d, a, b);
      }
    }

    /** The next write collects garbage: the current block's data pages are written, and all other blocks are full. */
    predicate Collects()
      reads `curWrite, `freeBlkCnt
    {
      curWrite.off + 2 == d.P && freeBlkCnt == 2
    }

    /** The current block is closed, and another one is opened, by a collection if need be. */
    method OpenNext(zero: Option<Addr>) returns (ok: bool, ghost vt: nat)
      requires Valid() && curWrite.off + 2 == d.P
      modifies this, lpnList
      ensures ok ==> Ready(Picture(curWrite.off)) && SameView(d, old(Picture(curWrite.off + 1)), Picture(curWrite.off))
      ensures if old(Collects()) then LeastAt(old(vcount), vt) && (ok <==> !Clash(d, old(flash), vt, zero)) else ok
      ensures !ok ==> Clash(d, flash, vt, zero) && pageMap == old(pageMap) && LeastAt(vcount, vt)
      ensures !old(Collects()) ==> pageMap == old(pageMap) && vcount == old(vcount) && gcVblock == old(gcVblock)
      ensures !old(Collects()) ==> freeBlkCnt + 1 == old(freeBlkCnt) && curWrite.off == 0
      ensures !old(Collects()) ==>
                Following(old(curWrite.blk), curWrite.blk) && SameBut(old(flash), flash, old(curWrite.blk), d.P - 1)
    {
      hide Inv, SameView, Open, FullPages, Clash, SameBut, LeastAt;
      ghost var a := Picture(curWrite.off + 1);
      InvShape(d, a);
      CloseBlock();
      ghost var b := Picture(curWrite.off + 1);
      ok, vt := true, 0;
      if freeBlkCnt == 1 {
        NoOpen(d, b);
        ClashSame(d, old(flash), flash, curWrite.blk, zero);
        ok, vt := GarbageCollection(zero);
        if ok { SameViewTrans(d, a, b, Picture(curWrite.off)); }
      } else {
        var vblock := NextVblock();
        NextBlockOk(d, b, vblock);
        SameViewTrans(d, a, b, NextBlock(b, vblock));
        curWrite := Addr(vblock, 0);
        assert Picture(0) == NextBlock(b, vblock);
      }
    }

    /** assign_new_write_vpn: the page to write next.  It fails exactly when the collection does that it makes. */
    method AssignNewWriteVpn(zero: Option<Addr>) returns (ok: bool, x: Addr, ghost vt: nat)
      requires Valid()
      modifies this, lpnList
      ensures ok ==> Ready(Picture(curWrite.off)) && SameView(d, old(Picture(curWrite.off + 1)), Picture(curWrite.off))
      ensures ok ==> x == curWrite
      ensures if old(Collects()) then LeastAt(old(vcount), vt) && (ok <==> !Clash(d, old(flash), vt, zero)) else ok
      ensures !ok ==> Clash(d, flash, vt, zero) && pageMap == old(pageMap) && LeastAt(vcount, vt)
      ensures !old(Collects()) ==> pageMap == old(pageMap) && vcount == old(vcount) && gcVblock == old(gcVblock)
      ensures !old(Collects()) && old(curWrite.off) + 2 != d.P ==>
              curWrite == old(curWrite).(off := old(curWrite.off) + 1)
      ensures !old(Collects()) && old(curWrite.off) + 2 != d.P ==> flash == old(flash) && freeBlkCnt == old(freeBlkCnt)
      ensures !old(Collects()) && old(curWrite.off) + 2 == d.P ==>
              freeBlkCnt + 1 == old(freeBlkCnt) && curWrite.off == 0
      ensures !old(Collects()) && old(curWrite.off) + 2 == d.P ==>
                Following(old(curWrite.blk), curWrite.blk) && SameBut(old(flash), flash, old(curWrite.blk), d.P - 1)
    {
      hide Inv, SameView, Open, FullPages, Clash, SameBut, LeastAt;
      ghost var a := Picture(curWrite.off + 1);
      InvShape(d, a);
      if curWrite.off == d.P - 2 {
        ok, vt := OpenNext(zero);
      } else {
        SameViewRefl(d, a);
        curWrite := curWrite.(off := curWrite.off + 1);
        ok, vt := true, 0;
      }
      x := curWrite;
    }

    /** The first data block behind block c that is not the spare one. */
    ghost predicate Following(c: nat, b: nat)
      reads `gcVblock
    {
      c < b && b in d.blocks && b != gcVblock && forall e :: e in d.blocks && c < e < b ==> e == gcVblock
    }

    // ----- host writes and reads -----

    /**
     The sectors programmed: the host's, and around them what the old page holds; if there is
     none, the host's sectors alone, the others staying erased.
     */
    method HostPage(l: nat, off: nat, data: PageData) returns (page: PageData)
      requires l < |pageMap| && 0 < |data| && off + |data| <= d.S == |View(l)|
      requires pageMap[l].Some? ==>
               pageMap[l].value.blk < |flash| && pageMap[l].value.off < |flash[pageMap[l].value.blk]|
      ensures page == Nand.Splice(View(l), off, data)
    {
      page := data;
      if pageMap[l].Some? {
        if |data| != d.S {
          var oldVpn := pageMap[l].value;
          var held := Content(d.S, flash[oldVpn.blk][oldVpn.off]);
          if off != 0 { page := held[..off] + page; }
          if off + |data| < d.S { page := page + held[off + |data|..]; }
        }
      } else {
        page := Nand.BlankData(off) + data + Nand.BlankData(d.S - off - |data|);
      }
    }

    /** The page is programmed at x, the old one is no longer valid, and the tables learn of it. */
    method ProgramHostPage(l: nat, x: Addr, page: PageData)
      requires Targeted(d, Picture(x.off)) && x == curWrite && l < d.N && FullPages(d, Picture(x.off)) && |page| == d.S
      modifies `flash, `pageMap, `vcount, lpnList
      ensures x.blk < |old(flash)| && x.off < |old(flash[x.blk])| && l < |old(pageMap)| && x.off < lpnList.Length &&
              x.blk < |old(vcount)|
      ensures old(pageMap)[l].Some? ==>
              old(pageMap)[l].value.blk < |old(vcount)| && 0 < old(vcount)[old(pageMap)[l].value.blk]
      ensures Picture(x.off + 1) == HostWritten(d, old(Picture(x.off)), l, Written(page))
    {
      hide Targeted, FullPages;
      WriteChecks(d, Picture(x.off), l);
      if pageMap[l].Some? {
        var oldVpn := pageMap[l].value;
        assert oldVpn != x && 0 < vcount[oldVpn.blk] < d.P;
        vcount := vcount[oldVpn.blk := vcount[oldVpn.blk] - 1];
      }
      assert vcount[x.blk] < d.P - 1;
      NandPageProgram(x, Written(page));
      lpnList[x.off] := Lpn(d.no, l);
      pageMap := pageMap[l := Some(x)];
      vcount := vcount[x.blk := vcount[x.blk] + 1];
    }

    /** write_page, once the page x to write is known; a is the bank before. */
    method WriteAt(l: nat, x: Addr, off: nat, data: PageData, ghost a: Pic)
      requires Ready(Picture(x.off)) && x == curWrite && SameView(d, a, Picture(x.off)) && FullPages(d, Picture(x.off))
      requires FullPages(d, a) && Capacity() && 0 !in d.blocks && l < d.N && 0 < |data| && off + |data| <= d.S
      modifies `flash, `pageMap, `vcount, lpnList
      ensures Valid() && Spliced(d, a, Picture(curWrite.off + 1), l, off, data)
      ensures l < |old(pageMap)| && pageMap == old(pageMap)[l := Some(x)]
      ensures curWrite.blk < |old(vcount)| && vcount == Counted(old(vcount), old(pageMap)[l], x.blk)
      ensures PageOnly(old(flash), flash, x)
    {
      hide Inv, SameView, Open, FullPages, Spliced, Targeted, HostWritten;
      ghost var b := Picture(x.off);
      TargetShape(d, b, l);
      WriteChecks(d, b, l);
      var page := HostPage(l, off, data);
      WriteOk(d, b, l, Written(page));
      ProgramHostPage(l, x, page);
      ghost var c := Picture(x.off + 1);
      SplicedNow(d, b, c, l, off, data);
      SplicedAfter(d, a, b, c, l, off, data);
      StillOpen(d, b, l, Written(page));
      WrittenTables(d, b, l, Written(page));
    }

    /**
     write_page: sectors off.. of lpn l are overwritten with data; everything else reads as before.  It fails
     exactly when it makes a collection that does.
     */
    method WritePage(l: nat, off: nat, data: PageData, zero: Option<Addr>) returns (ok: bool, ghost vt: nat)
      requires Valid() && l < d.N && 0 < |data| && off + |data| <= d.S
      modifies this, lpnList
      ensures if old(Collects()) then LeastAt(old(vcount), vt) && (ok <==> !Clash(d, old(flash), vt, zero)) else ok
      ensures !ok ==> Clash(d, flash, vt, zero) && pageMap == old(pageMap) && LeastAt(vcount, vt)
      ensures ok ==> Valid() && Spliced(d, old(Picture(curWrite.off + 1)), Picture(curWrite.off + 1), l, off, data)
      ensures !old(Collects()) ==> gcVblock == old(gcVblock) && l < |old(pageMap)| && curWrite.blk < |old(vcount)|
      ensures !old(Collects()) ==> pageMap == old(pageMap)[l := Some(curWrite)]
      ensures !old(Collects()) ==> vcount == Counted(old(vcount), old(pageMap)[l], curWrite.blk)
      ensures !old(Collects()) ==> FirstKept(old(flash), flash, curWrite)
      ensures !old(Collects()) && old(curWrite.off) + 2 != d.P ==>
                curWrite == old(curWrite).(off := old(curWrite.off) + 1) && freeBlkCnt == old(freeBlkCnt)
      ensures !old(Collects()) && old(curWrite.off) + 2 == d.P ==>
                freeBlkCnt + 1 == old(freeBlkCnt) && curWrite.off == 0 && Following(old(curWrite.blk), curWrite.blk)
    {
      hide Inv, SameView, Open, FullPages, Spliced, Targeted, HostWritten, Clash, SameBut, FirstKept;
      ghost var a := Picture(curWrite.off + 1);
      InvShape(d, a);
      var x;
      ok, x, vt := AssignNewWriteVpn(zero);
      if !ok { return; }
      ghost var flash1 := flash;
      SameFull(d, a, Picture(x.off));
      WriteAt(l, x, off, data, a);
      KeptFirst(d, a.flash, flash1, flash, a.blk, x);
    }

    /**
     One round of the loop of ftl_read: n sectors of lpn l, from sector off on; an lpn never written reads as
     erased.
     */
    method ReadSectors(l: nat, off: nat, n: nat) returns (data: PageData)
      requires Valid() && l < d.N && off + n <= d.S
      ensures |View(l)| == d.S && data == View(l)[off..off + n]
    {
      ReadShape(d, Picture(curWrite.off + 1), l);
      if pageMap[l].Some? {
        data := Content(d.S, flash[pageMap[l].value.blk][pageMap[l].value.off])[off..off + n];
      } else {
        data := Nand.BlankData(d.S)[off..off + n];
      }
    }
  }

  // ----- a clash -----

  /**
   Blocks behind the meta blocks of the metadata area, in ascending order; enough pages for N lpns, and N
   for the blocks.
   */
  predicate Usable(P: nat, V: nat, N: nat, meta: nat, good: seq<nat>) {
    && 3 <= meta && 3 <= |good| && |good| - 1 <= N < (|good| - 1) * (P - 2)
    && (forall i :: 0 <= i < |good| ==> meta <= good[i] < V)
    && forall i, j :: 0 <= i < j < |good| ==> good[i] < good[j]
  }

  /** The write pointer is at page o of block good[i]. */
  ghost predicate At(b: Bank, good: seq<nat>, i: nat, o: nat)
    reads b
  {
    && 1 <= i < |good| && b.curWrite == Addr(good[i], o) && b.freeBlkCnt + i == |good| + 1 && b.gcVblock == good[0]
    && b.d.blocks == Elems(good) && o + 2 <= b.d.P
  }

  /** The block that follows is the next good one. */
  lemma NextGood(good: seq<nat>, i: nat, c: nat)
    requires forall k, j :: 0 <= k < j < |good| ==> good[k] < good[j]
    requires 1 <= i && i + 1 < |good| && good[i] < c && c in good && forall e :: e in good && good[i] < e < c ==>
             e == good[0]
    ensures c == good[i + 1]
  {
    var k :| 0 <= k < |good| && good[k] == c;
    assert good[i + 1] in good && good[0] < good[i] < good[i + 1];
  }

  /** One page of lpn l is written, and no collection is made. */
  method OnePage(b: Bank, l: nat, good: seq<nat>, i: nat, o: nat, zero: Option<Addr>)
    requires b.Valid() && At(b, good, i, o) && l < b.d.N && (o + 2 == b.d.P ==> i + 1 < |good|)
    requires forall k, j :: 0 <= k < j < |good| ==> good[k] < good[j]
    modifies b, b.lpnList
    ensures b.Valid() && if o + 2 == b.d.P then At(b, good, i + 1, 0) else At(b, good, i, o + 1)
    ensures l < |old(b.pageMap)| && b.pageMap == old(b.pageMap)[l := Some(b.curWrite)]
    ensures b.vcount == Counted(old(b.vcount), old(b.pageMap)[l], b.curWrite.blk) && b.curWrite.blk < |b.vcount|
    ensures FirstKept(old(b.flash), b.flash, b.curWrite)
  {
    hide Bank.Valid, Spliced, FirstKept, Counted, Elems;
    b.Bounds();
    SomeSector(b);
    ghost var vt;
    var ok;
    ok, vt := b.WritePage(l, 0, [Nand.Blank], zero);
    b.Bounds();
    if o + 2 == b.d.P {
      NextGood(good, i, b.curWrite.blk);
    }
  }

  lemma SomeSector(b: Bank)
    requires b.Valid()
    ensures 1 <= b.d.S
  {
  }
  method FormatBank(P: nat, S: nat, V: nat, N: nat, meta: nat, good: seq<nat>, no: nat) returns (b: Bank)
    requires 4 <= P < VC_MAX && 1 <= S && Usable(P, V, N, meta, good)
    ensures b.Valid() && fresh(b) && fresh(b.lpnList) && b.d == Dim(P, S, V, N, Elems(good), no) && At(b, good, 1, 0)
    ensures b.pageMap == NoPages(N) && b.vcount == FirstCounts(V, good[1..])
    ensures |b.flash| == V && b.flash[good[1]] != [] && b.flash[good[1]][0] == Erased
  {
    hide Bank.Valid, AllBlank, NoPages, FirstCounts;
    b := new Bank(P, S, V, N, good, no);
  }

  /** Lpn 0 of the first bank comes to page 0 of the j-th of its good blocks. */
  method FirstBank(P: nat, S: nat, V: nat, N: nat, meta: nat, good: seq<nat>, j: nat) returns (b: Bank)
    requires 4 <= P < VC_MAX && 1 <= S && Usable(P, V, N, meta, good) && 2 <= j < |good|
    ensures b.Valid() && b.pageMap != [] && b.pageMap[0] == Some(Addr(good[j], 0))
  {
    hide Bank.Valid, FirstKept, Counted, Elems, NoPages, FirstCounts;
    b := FormatBank(P, S, V, N, meta, good, 0);
    var i, o := 1, 0;
    while i + 1 < j || o + 2 < P
      invariant b.Valid() && fresh(b) && fresh(b.lpnList) && b.d == Dim(P, S, V, N, Elems(good), 0)
      invariant 1 <= i < j && o + 2 <= P && At(b, good, i, o)
      decreases j - i, P - o
    {
      OnePage(b, 1, good, i, o, None);
      i, o := if o + 2 == P then i + 1 else i, if o + 2 == P then 0 else o + 1;
    }
    OnePage(b, 0, good, i, o, None);
  }

  lemma CountedIs(vc: seq<nat>, x: Option<Addr>, b: nat)
    ensures |Counted(vc, x, b)| == |vc|
    ensures forall v :: 0 <= v < |vc| && v != b && !(x.Some? && x.value.blk == v) ==> Counted(vc, x, b)[v] == vc[v]
    ensures b < |vc| && !(x.Some? && x.value.blk == b && 0 < vc[b]) ==> Counted(vc, x, b)[b] == vc[b] + 1
    ensures b < |vc| && x.Some? && x.value.blk == b && 0 < vc[b] ==> Counted(vc, x, b)[b] == vc[b]
    ensures x.Some? && x.value.blk != b && x.value.blk < |vc| && 0 < vc[x.value.blk] ==>
              Counted(vc, x, b)[x.value.blk] == vc[x.value.blk] - 1
  {
  }

  /**
   Page 0 of the first of its blocks has never been written, and it has n live pages; those behind block i
   have none.
   */
  predicate Begun(vc: seq<nat>, flash: seq<Block>, V: nat, good: seq<nat>, i: nat, n: nat)
    requires 2 <= |good| && i < |good|
  {
    && |vc| == V && good[1] < V && vc[good[1]] == n
    && (forall v :: 0 <= v < V && v != good[1] && v !in good[i + 1..] ==> 0 < vc[v])
    && good[1] < |flash| && flash[good[1]] != [] && flash[good[1]][0] == Erased
  }

  /** The lpns from i on have not been written, and lpn i - 1 is in block good[i], if anywhere. */
  predicate Unwritten(pageMap: seq<Option<Addr>>, N: nat, good: seq<nat>, i: nat)
    requires 1 <= i < |good|
  {
    && |pageMap| == N && i <= N && (forall l :: i <= l < N ==> pageMap[l].None?)
    && (pageMap[i - 1].Some? ==> pageMap[i - 1].value.blk == good[i])
  }

  /** One page more in block i. */
  lemma StayIn(vc: seq<nat>, flash: seq<Block>, flash': seq<Block>, V: nat, good: seq<nat>, i: nat, n: nat,
      x: Option<Addr>, y: Addr)
    requires 2 <= |good| && 2 <= i < |good| && Begun(vc, flash, V, good, i, n) && (x.Some? ==> x.value.blk == good[i])
    requires y.blk == good[i] < V && good[1] < good[i] && FirstKept(flash, flash', y)
    ensures Begun(Counted(vc, x, good[i]), flash', V, good, i, n)
  {
    CountedIs(vc, x, good[i]);
  }

  /** The first page of the block behind. */
  lemma GoOn(vc: seq<nat>, flash: seq<Block>, flash': seq<Block>, V: nat, good: seq<nat>, i: nat, n: nat,
      x: Option<Addr>, y: Addr)
    requires 2 <= |good| && 1 <= i && i + 1 < |good| && Begun(vc, flash, V, good, i, n)
    requires if x.None? then n == 0 else x.value.blk == good[1] && n == 1
    requires y.blk == good[i + 1] < V && good[1] < good[i + 1] && FirstKept(flash, flash', y)
    ensures Begun(Counted(vc, x, good[i + 1]), flash', V, good, i + 1, 0)
  {
    CountedIs(vc, x, good[i + 1]);
    assert good[i + 1..] == [good[i + 1]] + good[i + 2..];
  }

  /** The first of its blocks is filled with lpn 0, whose next page is the first of the block behind. */
  method SecondBegun(P: nat, S: nat, V: nat, N: nat, meta: nat, good: seq<nat>, zero: Option<Addr>) returns (b: Bank)
    requires 4 <= P < VC_MAX && 1 <= S && Usable(P, V, N, meta, good)
    ensures b.Valid() && fresh(b) && fresh(b.lpnList) && b.d == Dim(P, S, V, N, Elems(good), 1) && At(b, good, 2, 0)
    ensures Begun(b.vcount, b.flash, V, good, 2, 0) && Unwritten(b.pageMap, N, good, 2)
  {
    hide Bank.Valid, FirstKept, Counted, Elems, Begun;
    b := FormatBank(P, S, V, N, meta, good, 1);
    BegunFirst(b.vcount, b.flash, V, good);
    var o := 0;
    while o + 2 < P
      invariant b.Valid() && fresh(b) && fresh(b.lpnList) && b.d == Dim(P, S, V, N, Elems(good), 1)
      invariant o + 2 <= P && At(b, good, 1, o) && Unwritten(b.pageMap, N, good, 1)
      invariant Begun(b.vcount, b.flash, V, good, 1, if o == 0 then 0 else 1)
      invariant b.pageMap[0].None? <==> o == 0
    {
      FirstPage(b.vcount, b.flash, V, good, b.pageMap[0], o);
      OnePage(b, 0, good, 1, o, zero);
      o := o + 1;
    }
    ghost var vc, fl, x := b.vcount, b.flash, b.pageMap[0];
    OnePage(b, 0, good, 1, o, zero);
    GoOn(vc, fl, b.flash, V, good, 1, 1, x, b.curWrite);
  }

  lemma BegunFirst(vc: seq<nat>, flash: seq<Block>, V: nat, good: seq<nat>)
    requires 2 <= |good| && vc == FirstCounts(V, good[1..]) && good[1] < V == |flash|
    requires flash[good[1]] != [] && flash[good[1]][0] == Erased
    ensures Begun(vc, flash, V, good, 1, 0)
  {
    assert good[1..] == [good[1]] + good[2..];
  }

  /** One page more of lpn 0 in the first block, behind page o. */
  lemma FirstPage(vc: seq<nat>, flash: seq<Block>, V: nat, good: seq<nat>, x: Option<Addr>, o: nat)
    requires 2 <= |good| && Begun(vc, flash, V, good, 1, if o == 0 then 0 else 1)
    requires if o == 0 then x.None? else x.Some? && x.value.blk == good[1]
    ensures forall flash' :: FirstKept(flash, flash', Addr(good[1], o + 1)) ==>
              Begun(Counted(vc, x, good[1]), flash', V, good, 1, 1)
  {
    CountedIs(vc, x, good[1]);
  }

  /** The blocks behind are filled, each with an lpn of its own. */
  method SecondFull(P: nat, S: nat, V: nat, N: nat, meta: nat, good: seq<nat>, zero: Option<Addr>) returns (b: Bank)
    requires 4 <= P < VC_MAX && 1 <= S && Usable(P, V, N, meta, good)
    ensures b.Valid() && fresh(b) && fresh(b.lpnList) && b.d == Dim(P, S, V, N, Elems(good), 1)
    ensures b.Collects() && Begun(b.vcount, b.flash, V, good, |good| - 1, 0)
  {
    hide Bank.Valid, FirstKept, Counted, Elems, Begun;
    b := SecondBegun(P, S, V, N, meta, good, zero);
    var i, o := 2, 0;
    while i + 1 < |good| || o + 2 < P
      invariant b.Valid() && fresh(b) && fresh(b.lpnList) && b.d == Dim(P, S, V, N, Elems(good), 1)
      invariant 2 <= i < |good| && o + 2 <= P && At(b, good, i, o)
      invariant Begun(b.vcount, b.flash, V, good, i, 0) && Unwritten(b.pageMap, N, good, i)
      decreases |good| - i, P - o
    {
      ghost var vc, fl, pm := b.vcount, b.flash, b.pageMap;
      if o + 2 == P {
        OnePage(b, i, good, i, o, zero);
        GoOn(vc, fl, b.flash, V, good, i, 0, pm[i], b.curWrite);
        i, o := i + 1, 0;
      } else {
        OnePage(b, i - 1, good, i, o, zero);
        StayIn(vc, fl, b.flash, V, good, i, 0, pm[i - 1], b.curWrite);
        o := o + 1;
      }
    }
  }

  /**
   A clash comes about whenever the block that the second bank writes first is a good block of the first
   bank too, other than its first two: lpn 0 goes to page 0 of it there; the second bank writes as many
   pages as it has, none of them staying in that block, and then collects it.
   */
  method ClashReached(P: nat, S: nat, V: nat, N: nat, meta: nat, good0: seq<nat>, good1: seq<nat>, j: nat)
    returns (ok: bool)
    requires 4 <= P < VC_MAX && 1 <= S && Usable(P, V, N, meta, good0) && Usable(P, V, N, meta, good1)
    requires 2 <= j < |good0| && good0[j] == good1[1]
    ensures !ok
  {
    hide Bank.Valid, Spliced, Elems;
    var b0 := FirstBank(P, S, V, N, meta, good0, j);
    var b1 := SecondFull(P, S, V, N, meta, good1, b0.pageMap[0]);
    ghost var vt, vc := 0, b1.vcount;
    assert good1[|good1|..] == [];
    ok, vt := b1.WritePage(0, 0, [Nand.Blank], b0.pageMap[0]);
    assert vc[vt] <= vc[good1[1]] && vt == good1[1];
  }
}
