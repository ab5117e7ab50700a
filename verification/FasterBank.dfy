/**
 One bank of the FASTer FTL (ftl_faster/ftl.c).  Field and method names follow the
 source; a method that can run into a failing ASSERT returns ok == false there and
 promises nothing more.

 An operation is made of up to three layers.  A method changes tables and flash, and its contract goes field by field.
 The same is then seen from above, as a step from one picture of the bank to the next.  The operation itself calls the
 lemma about that step, which says that the invariant is kept and what the host reads from then on.
 */
module FasterBank {
  import opened Common
  import opened Nand
  import opened StaticHashTable
  import opened FasterState
  import opened FasterSteps
  import opened FasterGc
  import opened FasterControl
  import opened FasterWrite
  import opened FasterCapacity
  import opened BlockMaps

  const FREE_BLK_PER_BANK: nat := 2

  /** misc_metadata of ftl.h; -1 and None stand for (UINT32)-1 and INVALID. */
  datatype MiscMeta = MiscMeta(
    swOff: int,                      // cur_write_swlog_offset
    swLbn: Option<nat>,              // swlog_data_lbn
    corr: Corr,                      // corr_ref
    rw: Addr,                        // cur_write_rwlog_lpn
    rwFree: nat,                     // rwlog_free_blk_cnt
    ic: Option<Addr>,                // cur_write_isol_lpn
    iv: Option<Addr>,                // cur_vt_isol_lpn
    isolFree: nat,                   // isol_free_blk_cnt
    rwList: seq<Option<Addr>>,       // lpn_list_of_rwlog_blk
    isList: seq<Option<Addr>>,       // lpn_list_of_cur_isol_blk
    vtList: seq<Option<Addr>>,       // lpn_list_of_vt_isol_blk
    tune: Tuning)

  class Bank {
    const g: Geo
    const no: nat // the bank's number
    const tbl: HashTable

    var flash: seq<Block>
    // mapping tables and the free block ring
    var dataBmt: seq<nat>
    var logBmt: seq<nat>
    var isolBmt: seq<nat>
    var freeBmt: seq<nat>
    var freeHead: nat
    var freeTail: nat
    var freeCnt: nat
    // bitmaps
    var vc: set<Addr>
    var sc: set<Addr>
    var misc: MiscMeta
    var gcFlag: bool

    ghost const blocks: set<nat> // the physical blocks of the tables and the ring
    ghost var freeList: seq<nat> // the ring's blocks, the next one to be handed out first
    // the contents of the blocks that each table names
    ghost var dataPic: seq<Block>
    ghost var logPic: seq<Block>
    ghost var isolPic: seq<Block>

    // ----- abstraction and invariant -----

    ghost function TheMaps(): Maps
      reads `flash, `dataBmt, `logBmt, `isolBmt, `freeList, `dataPic, `logPic, `isolPic
    {
      Maps(flash, dataBmt, logBmt, isolBmt, freeList, dataPic, logPic, isolPic)
    }

    ghost function Picture(): Pic
      reads `dataPic, `logPic, `isolPic, `misc, tbl
    {
      Pic(dataPic, logPic, isolPic, tbl.m, misc.swOff, misc.swLbn,
          misc.rw, misc.rwFree, misc.rwList, misc.ic, misc.iv, misc.isolFree, misc.isList, misc.vtList, Idle)
    }

    /** What decides where pages go. */
    ghost function Control(): Ctl
      reads `sc, `misc, tbl
    {
      Ctl(tbl.m, sc, misc.swOff, misc.swLbn, misc.corr, misc.rw, misc.rwFree, misc.ic, misc.iv, misc.isolFree,
        misc.tune)
    }

    /** The mapping tables and the ring are in order. */
    ghost predicate MapsOk()
      reads `flash, `dataBmt, `logBmt, `isolBmt, `freeBmt, `freeHead, `freeTail, `freeCnt, `freeList, `dataPic,
        `logPic, `isolPic
    {
      && RingOk()
      && WellMapped(g, TheMaps(), blocks)
    }

    /** The hash table is in order, and the VC bitmap marks exactly its keys. */
    ghost predicate HashOk()
      reads `vc, tbl, tbl.nodes, tbl.heads
    {
      && tbl.Valid() && tbl.nodes.Length == Capacity(g)
      && vc == tbl.m.Keys
    }

    /** What holds between any two steps, also in the middle of a merge. */
    ghost predicate Base()
      reads this, tbl, tbl.nodes, tbl.heads
    {
      GeoOk(g) && MapsOk() && HashOk()
    }

    /** The invariant of the current picture, with or without the victim pointer's part. */
    ghost predicate CoreNow()
      reads `dataPic, `logPic, `isolPic, `misc, tbl
    {
      exists a :: a == Picture() && Core(g, a)
    }

    ghost predicate InvNow()
      reads `dataPic, `logPic, `isolPic, `misc, tbl
    {
      exists a :: a == Picture() && Inv(g, a)
    }

    /** What holds between host writes. */
    ghost predicate Valid()
      reads this, tbl, tbl.nodes, tbl.heads
    {
      Base() && freeCnt == FREE_BLK_PER_BANK && AtRest(g, Picture()) && FullPages(g, Picture()) && 0 !in blocks
    }

    /** What the host reads at lpn l. */
    ghost function View(l: Addr): PageData
      reads `dataPic, `logPic, `isolPic, `misc, tbl
    {
      ViewAt(g, Picture(), l)
    }

    /**
     format: good lists the usable blocks behind the metadata area in ascending order.
     They become data, free, isolation and log blocks, in that order; log entries that
     bad blocks leave unserved are marked NO_BLOCK.
     */
    constructor (g: Geo, no: nat, V: nat, good: seq<nat>, hash: HashFn, buckets: nat)
      requires GeoOk(g) && V < NO_BLOCK
      requires |good| == g.D + FREE_BLK_PER_BANK + g.ISOL + g.K
      requires forall i :: 0 <= i < |good| ==> 0 < good[i] < V
      requires Ascending(good)
      requires 0 < buckets
      ensures this.g == g && this.no == no && Valid() && Control() == Fresh(g)
      ensures forall l :: View(l) == BlankData(g.S)
      ensures blocks == set v | v in good
      ensures fresh(tbl) && fresh(tbl.nodes) && fresh(tbl.heads)
    {
      hide Ok, ErasedBlock, ErasedBlocks;
      this.g, this.no := g, no;
      tbl := new HashTable(hash, buckets, Capacity(g), Node(Addr(0, 0), Addr(0, 0), NIL));
      flash := ErasedBlocks(V, g.P);
      dataBmt := good[..g.D];
      freeBmt := good[g.D..g.D + 2];
      isolBmt := good[g.D + 2..g.D + 2 + g.ISOL];
      logBmt := good[g.D + 2 + g.ISOL..] + seq(g.LOG - g.K, _ => NO_BLOCK);
      freeHead, freeTail, freeCnt := 0, 0, FREE_BLK_PER_BANK;
      freeList := good[g.D..g.D + 2];
      vc, sc := {}, {};
      misc := MiscMeta(-1, None, Corr(None, 0xABABABAB), Addr(0, g.P - 1), g.K - 1, None, None, g.ISOL,
                       seq(g.P, _ => None), seq(g.P, _ => None), seq(g.P, _ => None),
                         Tuning(0, 0, g.P / 4, g.P / 4, false));
      gcFlag := false;
      blocks := set v | v in good;
      dataPic := ErasedBlocks(g.D, g.P);
      logPic := ErasedBlocks(g.K, g.P);
      isolPic := ErasedBlocks(g.ISOL, g.P);
      new;
      Formatted(V, good);
    }

    /** The fields that format sets make a valid, blank bank. */
    lemma Formatted(V: nat, good: seq<nat>)
      requires GeoOk(g) && V < NO_BLOCK && Ascending(good)
      requires |good| == g.D + FREE_BLK_PER_BANK + g.ISOL + g.K
      requires forall i :: 0 <= i < |good| ==> 0 < good[i] < V
      requires TheMaps() == FormatMaps(g, V, good) && blocks == set v | v in good
      requires RingOk()  && freeCnt == FREE_BLK_PER_BANK
      requires HashOk() && tbl.m == map[]
      requires misc.swOff == -1 && misc.swLbn.None? && misc.rw == Addr(0, g.P - 1) && misc.rwFree == g.K - 1
      requires misc.ic.None? && misc.iv.None? && misc.isolFree == g.ISOL
      requires |misc.rwList| == |misc.isList| == |misc.vtList| == g.P
      ensures Valid()
      ensures forall l :: View(l) == BlankData(g.S)
    {
      FormatOwned(g, V, good);
      FormatAtRest(g, FormatPicture(g, misc.rwList, misc.isList, misc.vtList));
      assert Picture() == FormatPicture(g, misc.rwList, misc.isList, misc.vtList);
      BlankFull(g, Picture());
    }

    // ----- NAND operations; programming must respect the order of pages -----

    method NandPageProgram(v: nat, o: nat, p: Page)
      requires v < |flash| && o < |flash[v]| && BlankFrom(flash[v], o)
      modifies `flash
      ensures flash == old(flash)[v := old(flash)[v][o := p]]
    {
      flash := flash[v := flash[v][o := p]];
    }

    method NandPageCopyback(srcV: nat, srcO: nat, v: nat, o: nat)
      requires srcV < |flash| && srcO < |flash[srcV]|
      requires v < |flash| && o < |flash[v]| && BlankFrom(flash[v], o)
      modifies `flash
      ensures flash == old(flash)[v := old(flash)[v][o := Written(Content(g.S, old(flash)[srcV][srcO]))]]
    {
      NandPageProgram(v, o, Written(Content(g.S, flash[srcV][srcO])));
    }

    method NandBlockErase(v: nat)
      requires v < |flash|
      modifies `flash
      ensures flash == old(flash)[v := ErasedBlock(g.P)]
    {
      flash := flash[v := ErasedBlock(g.P)];
    }

    // ----- the free block ring -----

    ghost predicate RingOk()
      reads `freeBmt, `freeHead, `freeTail, `freeCnt, `freeList
    {
      && |freeBmt| == 2 && freeHead < 2 && freeTail < 2 && freeCnt == |freeList| <= 2
      && freeHead == (freeTail + freeCnt) % 2
      && (0 < freeCnt ==> freeList[0] == freeBmt[freeTail])
      && (1 < freeCnt ==> freeList[1] == freeBmt[1 - freeTail])
    }

    /** get_free_vbn; the ring is never empty here. */
    method GetFreeVbn() returns (v: nat)
      requires RingOk() && freeCnt > 0
      modifies `freeTail, `freeCnt, `freeList
      ensures RingOk() && freeCnt == old(freeCnt) - 1
      ensures v == old(freeList[0]) && freeList == old(freeList[1..])
    {
      v := freeBmt[freeTail];
      freeList := freeList[1..];
      freeTail := (freeTail + 1) % FREE_BLK_PER_BANK;
      freeCnt := freeCnt - 1;
    }

    /** ret_free_vbn; the ring is never full here. */
    method RetFreeVbn(v: nat)
      requires RingOk() && freeCnt < FREE_BLK_PER_BANK
      modifies `freeBmt, `freeHead, `freeCnt, `freeList
      ensures RingOk() && freeCnt == old(freeCnt) + 1
      ensures freeList == old(freeList) + [v]
    {
      freeList := freeList + [v];
      freeBmt := freeBmt[freeHead := v];
      freeHead := (freeHead + 1) % FREE_BLK_PER_BANK;
      freeCnt := freeCnt + 1;
    }

    /** get_free_vbn, seen from above: an erased block that is in no table. */
    method TakeFreeBlock() returns (v: nat)
      requires MapsOk() && freeCnt > 0
      modifies `freeTail, `freeCnt, `freeList
      ensures RingOk() && freeCnt == old(freeCnt) - 1
      ensures Loose(g, TheMaps(), blocks, v) && Filling(g, TheMaps(), blocks, v)
      ensures v < |flash| && flash[v] == ErasedBlock(g.P)
    {
      hide WellMapped, Loose, Filling, ErasedBlock;
      TakeLoose(g, TheMaps(), blocks);
      v := GetFreeVbn();
    }

    // ----- reading -----

    /** get_log_vbn or get_isol_vbn, by the block part of a log address. */
    method LogSource(x: Addr) returns (v: nat)
      requires WellMapped(g, TheMaps(), blocks) && InLog(g, x)
      ensures v < |flash| && |flash[v]| == g.P
      ensures flash[v][x.off] == LogPage(g, Picture(), x)
      ensures v in blocks
    {
      if x.blk < g.LOG {
        FollowLog(g, TheMaps(), blocks, x.blk);
        v := logBmt[x.blk];
      } else {
        FollowIsol(g, TheMaps(), blocks, x.blk - g.LOG);
        v := isolBmt[x.blk - g.LOG];
      }
    }

    /** get_vpn: the physical page holding the up-to-date data of lpn l. */
    method GetVpn(l: Addr) returns (v: nat, o: nat)
      requires Base() && l.blk < g.D && l.off < g.P && (l in tbl.m ==> InLog(g, tbl.m[l]))
      ensures v < |flash| && o < |flash[v]| && v in blocks
      ensures flash[v][o] == LivePage(g, Picture(), l)
    {
      if l in vc {
        var x := tbl.Get(l);
        v := LogSource(x.value);
        o := x.value.off;
      } else {
        FollowData(g, TheMaps(), blocks, l.blk);
        v, o := dataBmt[l.blk], l.off;
      }
    }

    // ----- merges -----

    /**
     Copies lpn l's page to page o of block v, which is being filled: from log address x, or
     from the data block if l is not in the log.  The ghost a and m picture the bank as it
     was before the filling of v began.
     */
    method CopyLivePage(l: Addr, x: Option<Addr>, v: nat, o: nat, ghost a: Pic, ghost m: Maps, ghost nb: Block)
      requires Filling(g, m, blocks, v) && m == TheMaps().(fl := m.fl)
      requires a.data == m.dataPic && a.log == m.logPic && a.isol == m.isolPic
      requires l.blk < g.D && l.off < g.P && o < g.P
      requires x == if l in a.hm then Some(a.hm[l]) else None
      requires x.Some? ==> InLog(g, x.value) && (x.value.blk == 0 ==> Loose(g, m, blocks, v))
      requires v < |m.fl| && flash == m.fl[v := nb] && |nb| == g.P && BlankFrom(nb, o)
      modifies `flash
      ensures flash == m.fl[v := nb[o := Written(ViewAt(g, a, l))]]
    {
      FillingElsewhere(g, m, blocks, v);
      var src, srcOff := 0, 0;
      if x.Some? {
        if x.value.blk < g.LOG {
          FollowLog(g, m, blocks, x.value.blk);
          src := logBmt[x.value.blk];
        } else {
          FollowIsol(g, m, blocks, x.value.blk - g.LOG);
          src := isolBmt[x.value.blk - g.LOG];
        }
        srcOff := x.value.off;
      } else {
        FollowData(g, m, blocks, l.blk);
        src, srcOff := dataBmt[l.blk], l.off;
      }
      NandPageCopyback(src, srcOff, v, o);
    }

    /** The end of a switch or partial merge: the SW log block becomes data block L. */
    method SetSwBlockAsData(L: nat)
      requires RingOk() && freeCnt == FREE_BLK_PER_BANK
      requires L < |dataBmt| && L < |dataPic| && 0 < |logBmt| && 0 < |logPic| && dataBmt[L] < |flash|
      modifies `flash, `dataBmt, `logBmt, `freeBmt, `freeHead, `freeTail, `freeCnt, `freeList, `misc, `dataPic, `logPic
      ensures RingOk() && freeCnt == FREE_BLK_PER_BANK && misc == old(misc).(swOff := -1, swLbn := None)
      ensures TheMaps() == old(SwInstalled(g, TheMaps(), L))
      ensures dataPic == old(dataPic[L := logPic[0]]) && logPic == old(logPic[0 := ErasedBlock(g.P)])
    {
      hide ErasedBlock;
      var oldDataVbn := dataBmt[L];
      dataBmt := dataBmt[L := logBmt[SW_LOG_LBN]];
      misc := misc.(swOff := -1, swLbn := None);
      var v := GetFreeVbn();
      logBmt := logBmt[SW_LOG_LBN := v];
      NandBlockErase(oldDataVbn);
      RetFreeVbn(oldDataVbn);
      dataPic, logPic := dataPic[L := logPic[0]], logPic[0 := ErasedBlock(g.P)];
    }

    /** The same, seen from above. */
    method InstallSwBlock(L: nat)
      requires MapsOk() && 0 < g.K && L < g.D && freeCnt == FREE_BLK_PER_BANK && L < |dataPic| && 0 < |logPic|
      modifies `flash, `dataBmt, `logBmt, `freeBmt, `freeHead, `freeTail, `freeCnt, `freeList, `misc, `dataPic, `logPic
      ensures MapsOk() && freeCnt == FREE_BLK_PER_BANK
      ensures Picture() == SwGone(g, old(Picture()), L) && misc == old(misc).(swOff := -1, swLbn := None)
    {
      hide ErasedBlock, WellMapped;
      SwInstall(g, TheMaps(), blocks, L);
      SetSwBlockAsData(L);
    }

    /** The pages of data block L that sit in the SW log block leave the log. */
    method DropSwEntries(L: nat)
      requires HashOk() && forall o :: 0 <= o < g.P ==> Addr(L, o) in tbl.m
      modifies `vc, tbl, tbl.nodes, tbl.heads
      ensures HashOk() && tbl.m == Keep(old(tbl.m), L, g.P, g.P)
    {
      hide Ok, Keep;
      ghost var hm := tbl.m;
      KeepStart(hm, L, g.P);
      for o := 0 to g.P
        invariant HashOk() && tbl.m == Keep(hm, L, g.P, o)
      {
        KeepNext(hm, L, g.P, o);
        var x := tbl.Get(Addr(L, o));
        if x.value.blk == SW_LOG_LBN {
          tbl.Remove(Addr(L, o));
          vc := vc - {Addr(L, o)};
        }
      }
    }

    /** switch_merge: the SW log block is full and becomes the data block. */
    method SwitchMerge()
      requires Base() && freeCnt == FREE_BLK_PER_BANK && InvNow() && misc.swOff == g.P - 1
      modifies `flash, `dataBmt, `logBmt, `freeBmt, `freeHead, `freeTail, `freeCnt, `freeList, `misc, `dataPic, `logPic
      modifies `vc, tbl, tbl.nodes, tbl.heads
      ensures Base() && freeCnt == FREE_BLK_PER_BANK && misc == old(misc).(swOff := -1, swLbn := None)
      ensures Inv(g, Picture()) && SameView(g, old(Picture()), Picture())
      ensures Control() == SwMergedCtl(g, old(Control()))
    {
      hide Inv, SameView, ErasedBlock, Ok, Keep, WellMapped;
      ghost var a := Picture();
      SwFull(g, a);
      var L := misc.swLbn.value;
      DropSwEntries(L);
      InstallSwBlock(L);
    }

    /**
     The loop of partial_merge: from offset s on the pages of data block L are copied into
     the SW log block, and what then sits in it leaves the log.
     */
    method CopyIntoSwBlock(L: nat, s: nat, ghost a: Pic) returns (ghost nb: Block)
      requires HashOk() && WellMapped(g, TheMaps(), blocks) && a == Picture()
      requires 0 < g.K && L < g.D && |a.log[0]| == g.P && BlankFrom(a.log[0], s)
      requires forall l :: l in a.hm ==> InLog(g, a.hm[l]) && (a.hm[l].blk == 0 ==> l.off < s)
      modifies `flash, `vc, tbl, tbl.nodes, tbl.heads
      ensures HashOk() && tbl.m == Keep(a.hm, L, s, g.P)
      ensures MergedBlock(g, a, L, s, nb)
      ensures logBmt[0] < |old(flash)| && flash == old(flash)[logBmt[0] := nb]
    {
      hide Keep, ViewAt, WellMapped, Filling, Loose, Ok, Owned, RingOk;
      ghost var m := TheMaps();
      SwFilling(g, m, blocks);
      FollowLog(g, m, blocks, 0);
      var logVbn := logBmt[SW_LOG_LBN];
      nb := a.log[0];
      KeepStart(a.hm, L, s);
      for o := 0 to g.P
        modifies `flash, `vc, tbl, tbl.nodes, tbl.heads
        invariant HashOk() && tbl.m == Keep(a.hm, L, s, o)
        invariant flash == m.fl[logVbn := nb] && |nb| == g.P
        invariant forall q :: 0 <= q < s && q < g.P ==> nb[q] == PageAt(a.log, 0, q)
        invariant forall q {:trigger nb[q]} :: s <= q < o ==> nb[q] == Written(ViewAt(g, a, Addr(L, q)))
        invariant BlankFrom(nb, if o < s then s else o)
      {
        var l := Addr(L, o);
        KeepNext(a.hm, L, s, o);
        if l in vc {
          var x := tbl.Get(l);
          if o < s {
            if x.value.blk == SW_LOG_LBN {
              tbl.Remove(l);
              vc := vc - {l};
            }
          } else {
            tbl.Remove(l);
            vc := vc - {l};
            CopyLivePage(l, x, logVbn, o, a, m, nb);
            nb := nb[o := Written(ViewAt(g, a, l))];
          }
        } else if s <= o {
          CopyLivePage(l, None, logVbn, o, a, m, nb);
          nb := nb[o := Written(ViewAt(g, a, l))];
        }
      }
    }

    /** The same, seen from above. */
    method FillSwBlock(L: nat, s: nat, ghost a: Pic) returns (ghost nb: Block)
      requires HashOk() && WellMapped(g, TheMaps(), blocks) && a == Picture()
      requires 0 < g.K && L < g.D && |a.log[0]| == g.P && BlankFrom(a.log[0], s)
      requires forall l :: l in a.hm ==> InLog(g, a.hm[l]) && (a.hm[l].blk == 0 ==> l.off < s)
      modifies `flash, `logPic, `vc, tbl, tbl.nodes, tbl.heads
      ensures HashOk() && MergedBlock(g, a, L, s, nb)
      ensures WellMapped(g, TheMaps(), blocks)
      ensures Picture() == a.(log := a.log[0 := nb], hm := Keep(a.hm, L, s, g.P))
    {
      hide Ok, Keep, WellMapped;
      nb := CopyIntoSwBlock(L, s, a);
      RewriteLogBlock(g, old(TheMaps()), blocks, 0, nb);
      logPic := logPic[0 := nb];
      assert TheMaps() == LogRewritten(old(TheMaps()), 0, nb);
    }

    /** partial_merge: the SW log block is completed and becomes the data block. */
    method PartialMerge()
      requires Base() && freeCnt == FREE_BLK_PER_BANK && CoreNow()
      requires misc.swLbn.Some? && 0 <= misc.swOff && misc.swOff + 1 < g.P
      modifies `flash, `dataBmt, `logBmt, `freeBmt, `freeHead, `freeTail, `freeCnt, `freeList, `misc, `dataPic, `logPic
      modifies `vc, tbl, tbl.nodes, tbl.heads
      ensures Base() && freeCnt == FREE_BLK_PER_BANK && misc == old(misc).(swOff := -1, swLbn := None)
      ensures Core(g, Picture()) && SameView(g, old(Picture()), Picture())
      ensures Behind(g, old(Picture())) ==> Behind(g, Picture())
      ensures Control() == SwMergedCtl(g, old(Control()))
    {
      hide Core, SameView, Behind, ErasedBlock, Keep, Ok, WellMapped;
      ghost var a := Picture();
      EntriesInLog(g, a);
      var s: nat, L := misc.swOff + 1, misc.swLbn.value;
      ghost var nb := FillSwBlock(L, s, a);
      PartialMerged(g, a, L, nb);
      InstallSwBlock(L);
    }

    // ----- full merge -----

    /** The loop of full_merge over the pages of data block L, into the free block v. */
    method CopyIntoFreeBlock(L: nat, v: nat, ghost a: Pic, ghost m: Maps) returns (ghost nb: Block)
      requires HashOk() && Loose(g, m, blocks, v) && Filling(g, m, blocks, v) && m == TheMaps() && L < g.D
      requires a.data == m.dataPic && a.log == m.logPic && a.isol == m.isolPic && a.hm == tbl.m
      requires v < |flash| && flash[v] == ErasedBlock(g.P)
      requires forall l :: l in a.hm ==> InLog(g, a.hm[l])
      modifies `flash, `vc, tbl, tbl.nodes, tbl.heads
      ensures HashOk() && tbl.m == Keep(a.hm, L, 0, g.P)
      ensures MergedBlock(g, a, L, 0, nb)
      ensures v < |m.fl| && flash == m.fl[v := nb]
    {
      hide Keep, ViewAt, Ok, WellMapped, Loose, Filling;
      nb := flash[v];
      KeepStart(a.hm, L, 0);
      for o := 0 to g.P
        modifies `flash, `vc, tbl, tbl.nodes, tbl.heads
        invariant HashOk() && tbl.m == Keep(a.hm, L, 0, o)
        invariant flash == m.fl[v := nb] && |nb| == g.P
        invariant forall q {:trigger nb[q]} :: 0 <= q < o ==> nb[q] == Written(ViewAt(g, a, Addr(L, q)))
        invariant BlankFrom(nb, o)
      {
        var l := Addr(L, o);
        KeepNext(a.hm, L, 0, o);
        if l in vc {
          var x := tbl.Get(l);
          tbl.Remove(l);
          vc := vc - {l};
          CopyLivePage(l, x, v, o, a, m, nb);
        } else {
          CopyLivePage(l, None, v, o, a, m, nb);
        }
        nb := nb[o := Written(ViewAt(g, a, l))];
      }
    }

    /** Data block L is replaced by block v, which holds nb. */
    method SetDataBlock(L: nat, v: nat, ghost m: Maps, ghost nb: Block)
      requires RingOk() && freeCnt < FREE_BLK_PER_BANK
      requires v < |m.fl| && m == TheMaps().(fl := m.fl) && flash == m.fl[v := nb]
      requires L < |dataBmt| && L < |dataPic| && dataBmt[L] < |flash|
      modifies `flash, `dataBmt, `freeBmt, `freeHead, `freeCnt, `freeList, `dataPic
      ensures RingOk() && freeCnt == old(freeCnt) + 1
      ensures TheMaps() == DataInstalled(g, m, L, v, nb)
      ensures dataPic == old(dataPic[L := nb])
    {
      hide ErasedBlock;
      var oldDataVbn := dataBmt[L];
      dataBmt := dataBmt[L := v];
      NandBlockErase(oldDataVbn);
      RetFreeVbn(oldDataVbn);
      dataPic := dataPic[L := nb];
    }

    /** The same, seen from above. */
    method InstallDataBlock(L: nat, v: nat, ghost m: Maps, ghost nb: Block)
      requires RingOk() && freeCnt < FREE_BLK_PER_BANK && L < g.D && |nb| == g.P
      requires Loose(g, m, blocks, v)
      requires v < |m.fl| && m == TheMaps().(fl := m.fl) && flash == m.fl[v := nb]
      modifies `flash, `dataBmt, `freeBmt, `freeHead, `freeCnt, `freeList, `dataPic
      ensures MapsOk() && freeCnt == old(freeCnt) + 1 && L < |old(dataPic)|
      ensures dataPic == old(dataPic[L := nb])
    {
      hide WellMapped, Loose, ErasedBlock;
      DataInstall(g, m, blocks, L, v, nb);
      SetDataBlock(L, v, m, nb);
    }

    /** Data block L is rewritten in a free block, from wherever its pages are. */
    method MergeDataBlock(L: nat) returns (ghost nb: Block)
      requires HashOk() && MapsOk() && freeCnt == FREE_BLK_PER_BANK && L < g.D
      requires forall l :: l in tbl.m ==> InLog(g, tbl.m[l])
      modifies `flash, `dataBmt, `freeBmt, `freeHead, `freeTail, `freeCnt, `freeList, `dataPic
      modifies `vc, tbl, tbl.nodes, tbl.heads
      ensures HashOk() && MapsOk() && freeCnt == FREE_BLK_PER_BANK
      ensures MergedBlock(g, old(Picture()), L, 0, nb) && L < |old(dataPic)|
      ensures Picture() == Folded(old(Picture()), L, Keep(old(tbl.m), L, 0, g.P), nb)
    {
      hide Ok, Keep, WellMapped, Loose, Filling, ErasedBlock, PageAt, ViewAt, InLog;
      var v := TakeFreeBlock();
      ghost var m := TheMaps();
      nb := CopyIntoFreeBlock(L, v, old(Picture()), m);
      InstallDataBlock(L, v, m, nb);
    }

    /** inc_vt_isol_lpn and the checks behind it: the lpn whose current page is the next victim page. */
    method InspectVictim() returns (ok: bool, l: Option<Addr>)
      requires HashOk() && MapsOk() && InvNow() && IcInside(g, Picture()) && misc.isolFree < g.ISOL
      modifies `misc
      ensures ok <==> Vt(g, old(Picture())).off + 1 < g.P
      ensures misc == old(misc).(iv := misc.iv, vtList := misc.vtList)
      ensures ok ==> 0 < |isolPic| && Picture() == VtMoved(g, old(Picture())) && VictimIs(g, old(Picture()), l)
    {
      hide Ok, Inv;
      ghost var a := Picture();
      VictimListed(g, a);
      var vt := IsolSucc(g, misc.iv);
      misc := misc.(iv := Some(vt));
      if misc.ic.Some? && misc.ic.value.blk == vt.blk { return false, None; }
      if vt.off == 0 {
        FollowIsol(g, TheMaps(), blocks, vt.blk);
        misc := misc.(vtList := flash[isolBmt[vt.blk]][g.P - 1].lpns);
      }
      if vt.off == g.P - 1 { return false, None; }
      ok, l := true, misc.vtList[vt.off];
      if l.Some? {
        var x := tbl.Get(l.value);
        if x != Some(Addr(g.LOG + vt.blk, vt.off)) {
          l := None;
        }
      }
    }

    /** The victim isolation block b is erased and replaced by a free block. */
    method SetIsolBlock(b: nat)
      requires RingOk() && freeCnt == FREE_BLK_PER_BANK
      requires b < |isolBmt| && b < |isolPic| && isolBmt[b] < |flash|
      modifies `flash, `isolBmt, `freeBmt, `freeHead, `freeTail, `freeCnt, `freeList, `isolPic
      ensures RingOk() && freeCnt == FREE_BLK_PER_BANK
      ensures TheMaps() == old(IsolRenewed(g, TheMaps(), b))
      ensures isolPic == old(isolPic[b := ErasedBlock(g.P)])
    {
      hide ErasedBlock;
      var isolVbn := isolBmt[b];
      var v := GetFreeVbn();
      isolBmt := isolBmt[b := v];
      NandBlockErase(isolVbn);
      RetFreeVbn(isolVbn);
      isolPic := isolPic[b := ErasedBlock(g.P)];
    }

    /** The victim pointer is on the last data page of its block, and nothing in the block is live. */
    method RenewVictim()
      requires MapsOk() && freeCnt == FREE_BLK_PER_BANK && GeoOk(g)
      requires InvNow() && misc.isolFree < g.ISOL && Vt(g, Picture()).off + 1 == g.P
      modifies `flash, `isolBmt, `freeBmt, `freeHead, `freeTail, `freeCnt, `freeList, `isolPic, `misc
      ensures MapsOk() && freeCnt == FREE_BLK_PER_BANK
      ensures Inv(g, Picture()) && SameView(g, old(Picture()), Picture())
      ensures misc == old(misc).(iv := Some(Vt(g, old(Picture()))), isolFree := old(misc.isolFree) + 1)
    {
      hide Inv, SameView, WellMapped, ErasedBlock;
      RecycledOk(g, Picture());
      var b := misc.iv.value.blk;
      misc := misc.(isolFree := misc.isolFree + 1, iv := Some(IsolSucc(g, misc.iv)));
      IsolRenew(g, TheMaps(), blocks, b);
      SetIsolBlock(b);
    }

    /** The search loop of full_merge: on to the next live page, or to the end of the victim block. */
    method FindVictim() returns (ok: bool, l: Option<Addr>)
      requires Base() && InvNow() && IcInside(g, Picture()) && misc.isolFree < g.ISOL
      modifies `misc
      ensures ok <==> Vt(g, old(Picture())).off + 1 < g.P
      ensures misc == old(misc).(iv := misc.iv, vtList := misc.vtList)
      ensures ok ==> CoreNow() && SameView(g, old(Picture()), Picture()) && BehindBut(g, Picture(), l)
      ensures var v := Vt(g, old(Picture()));
              ok ==> misc.iv == Some(Addr(v.blk, NextLive(g, tbl.m, v.blk, v.off))) && misc.iv.value.off + 1 < g.P
      ensures ok && l.None? ==> misc.iv.value.off + 2 == g.P && !LiveAt(tbl.m, InIsol(g, misc.iv.value))
      ensures ok && l.Some? ==> l.value in tbl.m && tbl.m[l.value] == InIsol(g, misc.iv.value)
    {
      hide Inv, Core, SameView, BehindBut, WellMapped, Ok;
      ghost var a := Picture();
      ok, l := InspectVictim();
      if !ok { return; }
      VictimPassed(g, a, l);
      while l.None? && misc.iv.value.off != g.P - 2
        invariant ok && misc == old(misc).(iv := misc.iv, vtList := misc.vtList)
        invariant CoreNow() && SameView(g, a, Picture()) && BehindBut(g, Picture(), l)
        invariant misc.iv.Some? && misc.iv.value.off + 1 < g.P && misc.iv.value.blk == Vt(g, a).blk
        invariant NextLive(g, tbl.m, Vt(g, a).blk, Vt(g, a).off) == NextLive(g, tbl.m, Vt(g, a).blk, misc.iv.value.off)
        invariant if l.Some? then l.value in tbl.m &&
          tbl.m[l.value] == InIsol(g, misc.iv.value) else !LiveAt(tbl.m, InIsol(g, misc.iv.value))
        decreases if l.Some? then 0 else g.P - misc.iv.value.off
      {
        ghost var b := Picture();
        NothingBut(g, b);
        ok, l := InspectVictim();
        VictimPassed(g, b, l);
        SameViewTrans(g, a, b, Picture());
      }
    }

    /** The data block of lpn k is merged; if the victim pointer is at the end of its block, that is recycled. */
    method MergeAndRecycle(k: Addr)
      requires Base() && freeCnt == FREE_BLK_PER_BANK && CoreNow() && BehindBut(g, Picture(), Some(k))
      requires misc.iv.Some? && misc.iv.value.off + 1 < g.P && misc.isolFree < g.ISOL && misc.swLbn != Some(k.blk) &&
               k in tbl.m
      modifies `flash, `dataBmt, `isolBmt, `freeBmt, `freeHead, `freeTail, `freeCnt, `freeList, `misc
      modifies `dataPic, `isolPic, `vc, tbl, tbl.nodes, tbl.heads
      ensures Base() && freeCnt == FREE_BLK_PER_BANK
      ensures InvNow() && SameView(g, old(Picture()), Picture())
      ensures Control() == BlockMerged(g, old(Control()), k.blk)
      ensures misc == old(misc).(iv := misc.iv, isolFree := misc.isolFree)
    {
      hide Inv, Core, SameView, Behind, BehindBut, WellMapped, Ok, Keep, MergedBlock;
      ghost var a := Picture();
      EntriesInLog(g, a);
      ghost var nb := MergeDataBlock(k.blk);
      VictimMerged(g, a, k.blk, nb, k);
      if misc.iv.value.off == g.P - 2 {
        ghost var c := Picture();
        RenewVictim();
        SameViewTrans(g, a, c, Picture());
      }
    }

    /** The merge of full_merge, for the lpn k that is live at the victim pointer. */
    method MergeVictim(k: Addr)
      requires Base() && freeCnt == FREE_BLK_PER_BANK && CoreNow() && BehindBut(g, Picture(), Some(k))
      requires misc.iv.Some? && misc.iv.value.off + 1 < g.P && misc.isolFree < g.ISOL && misc.swOff + 1 < g.P
      requires k in tbl.m && tbl.m[k] == InIsol(g, misc.iv.value)
      modifies `flash, `dataBmt, `logBmt, `isolBmt, `freeBmt, `freeHead, `freeTail, `freeCnt, `freeList, `misc
      modifies `dataPic, `logPic, `isolPic, `vc, tbl, tbl.nodes, tbl.heads
      ensures Base() && freeCnt == FREE_BLK_PER_BANK
      ensures InvNow() && SameView(g, old(Picture()), Picture())
      ensures Control() == VictimMergedCtl(g, old(Control()), k) && misc.swOff + 1 < g.P
      ensures misc == old(misc).(swOff := misc.swOff, swLbn := misc.swLbn, iv := misc.iv, isolFree := misc.isolFree)
    {
      hide Inv, Core, SameView, Behind, BehindBut, WellMapped, Ok, Keep, BlockMerged;
      ghost var a := Picture();
      EntriesInLog(g, a);
      if misc.swLbn == Some(k.blk) {
        KeepSub(tbl.m, k.blk, misc.swOff + 1, g.P);
        PartialMerge();
        StillBehindBut(g, a, Picture(), Some(k));
        var x := tbl.Get(k);
        if x != Some(Addr(g.LOG + misc.iv.value.blk, misc.iv.value.off)) {
          NoneBut(g, Picture(), k);
          return;
        }
      }
      ghost var b := Picture();
      MergeAndRecycle(k);
      SameViewTrans(g, a, b, Picture());
    }

    /**
     full_merge: the victim pointer of the isolation area moves on to the next live page, and
     that page's data block is merged; a victim block that has been passed is recycled, which
     makes one more free isolation block.  The call fails its ASSERT exactly when the pointer
     rests on the last data page of a block that is not recycled; and it leaves it there exactly
     when it turns back.
     */
    method FullMerge() returns (r: Outcome)
      requires Base() && freeCnt == FREE_BLK_PER_BANK && InvNow()
      requires IcInside(g, Picture()) && misc.isolFree < g.ISOL && misc.swOff + 1 < g.P
      modifies `flash, `dataBmt, `logBmt, `isolBmt, `freeBmt, `freeHead, `freeTail, `freeCnt, `freeList, `misc
      modifies `dataPic, `logPic, `isolPic, `vc, tbl, tbl.nodes, tbl.heads
      ensures r == FullMergeCtl(g, old(Control())).0 == if Stuck(g, old(misc.iv)) then AssertFails else Fine
      ensures r == Fine ==> Base() && freeCnt == FREE_BLK_PER_BANK
      ensures r == Fine ==> InvNow() && SameView(g, old(Picture()), Picture())
      ensures r == Fine ==> Control() == FullMergeCtl(g, old(Control())).1 && misc.swOff + 1 < g.P
      ensures r == Fine ==> (Stuck(g, misc.iv) <==> g.P >= 2 && TurnsBack(g, old(Control())))
      ensures misc == old(misc).(swOff := misc.swOff, swLbn := misc.swLbn, iv := misc.iv, vtList := misc.vtList,
              isolFree := misc.isolFree)
    {
      hide Inv, Core, SameView, BehindBut, WellMapped, Ok, Keep, NextLive, TurnsBack, VictimMergedCtl;
      ghost var a, c := Picture(), Control();
      EntriesOneToOne(g, a);
      var ok, l := FindVictim();
      if !ok { return AssertFails; }
      r := Fine;
      ghost var b := Picture();
      NothingBut(g, b);
      StuckAfter(g, c);
      if l.None? {
        RenewVictim();
      } else {
        OwnerIs(g, tbl.m, InIsol(g, misc.iv.value), l.value);
        MergeVictim(l.value);
      }
      SameViewTrans(g, a, b, Picture());
    }

    // ----- garbage collection -----

    /**
     The loops that look for the RW log block after block c: past entries without a block, and past the SW
     log block.
     */
    method NextRwBlock(c: nat) returns (b: nat)
      requires MapsOk() && GeoOk(g) && c < g.K
      ensures b == (if c + 1 < g.K then c + 1 else 1) && 1 <= b < g.K
    {
      hide WellMapped, Round;
      NoBlockMarked(g, TheMaps(), blocks);
      b := Round(c, g.LOG);
      while logBmt[b] == NO_BLOCK
        invariant b < g.LOG == |logBmt|
        invariant b == c + 1 || (g.K <= c + 1 && (b == 0 || g.K <= b))
        decreases if b == 0 then 0 else g.LOG - b
      {
        b := Round(b, g.LOG);
      }
      if b == SW_LOG_LBN { b := SW_LOG_LBN + 1; }
    }

    /** The first loop of garbage_collection: which pages of log block b are live, and how many of those are cold. */
    method MarkValid(b: nat) returns (valid: nat, cold: nat)
      requires HashOk() && MapsOk() && InvNow() && misc.rwFree == 0 && 1 <= b < g.K
      modifies `misc
      ensures misc == old(misc).(rwList := misc.rwList) && |misc.rwList| == g.P
      ensures 0 < g.P && LiveList(tbl.m, b, misc.rwList, g.P - 1)
      ensures valid == |LiveIn(tbl.m, b, g.P - 1)| && cold == |ColdIn(tbl.m, sc, b, g.P - 1)|
    {
      hide WellMapped, Ok, Inv, Marking, LiveList, LiveIn, ColdIn;
      ghost var a := Picture();
      VictimFull(g, a, b);
      FollowLog(g, TheMaps(), blocks, b);
      misc := misc.(rwList := flash[logBmt[b]][g.P - 1].lpns);
      ghost var list := misc.rwList;
      valid, cold := 0, 0;
      MarkStart(tbl.m, sc, b, list);
      for o := 0 to g.P - 1
        invariant misc == old(misc).(rwList := misc.rwList) && |misc.rwList| == g.P
        invariant Marking(tbl.m, b, list, misc.rwList, o)
        invariant valid == |LiveIn(tbl.m, b, o)| && cold == |ColdIn(tbl.m, sc, b, o)|
      {
        MarkStep(tbl.m, sc, b, list, misc.rwList, o);
        var l := misc.rwList[o];
        var live := false;
        if l.Some? {
          var x := tbl.Get(l.value);
          live := x == Some(Addr(b, o));
        }
        if live {
          if Addr(b, o) in sc { cold := cold + 1; }
          valid := valid + 1;
        } else {
          misc := misc.(rwList := misc.rwList[o := None]);
        }
      }
      MarkEnd(tbl.m, b, list, misc.rwList, g.P - 1);
    }

    /**
     Garbage collection under way: gp pictures the bank with the kept pages in place, nb is
     what the loose block v holds, and m the maps as they were when v was taken.
     */
    ghost predicate Mid(gp: Pic, m: Maps, v: nat, nb: Block)
      reads `flash, `dataBmt, `logBmt, `isolBmt, `freeList, `dataPic, `logPic, `isolPic, `misc, tbl
    {
      exists a :: a == gp && MidParts(a, m, v, nb)
    }

    ghost predicate MidParts(gp: Pic, m: Maps, v: nat, nb: Block)
      reads `flash, `dataBmt, `logBmt, `isolBmt, `freeList, `dataPic, `logPic, `isolPic, `misc, tbl
    {
      && gp.phase.Collecting?
      && var Collecting(b, f, o) := gp.phase;
      && b < |gp.log| && b < |logPic| && gp == Picture().(log := logPic[b := gp.log[b]], phase := gp.phase)
      && |gp.log[b]| == |logPic[b]| == |nb| == g.P && f <= o <= g.P
      && (forall q :: 0 <= q < f ==> gp.log[b][q] == nb[q])
      && (forall q :: f <= q < g.P ==> gp.log[b][q] == logPic[b][q])
      && BlankFrom(nb, f)
      && v < |m.fl| && m == TheMaps().(fl := m.fl) && flash == m.fl[v := nb]
      && Loose(g, m, blocks, v)
    }

    lemma MidHas(gp: Pic, m: Maps, v: nat, nb: Block)
      requires Mid(gp, m, v, nb)
      ensures gp.hm == tbl.m && gp.rwList == misc.rwList && gp.isList == misc.isList && gp.isol == isolPic
      ensures gp.ic == misc.ic && gp.iv == misc.iv && gp.isolFree == misc.isolFree
    {
    }

    lemma MidSkipped(gp: Pic, m: Maps, v: nat, nb: Block)
      requires Mid(gp, m, v, nb) && Inv(g, gp) && gp.phase.Collecting? && gp.phase.o + 1 < g.P
      requires gp.phase.o < |gp.rwList| && gp.rwList[gp.phase.o].None?
      ensures Mid(GcSkipped(gp), m, v, nb) && Inv(g, GcSkipped(gp)) && SameView(g, gp, GcSkipped(gp))
    {
      hide Inv, SameView;
      GcSkippedOk(g, gp);
      assert MidParts(GcSkipped(gp), m, v, nb);
    }

    /** A live page of the victim is copied to the next page of its replacement. */
    method KeepPage(l: Addr, b: nat, f: nat, o: nat, v: nat, ghost gp: Pic, ghost m: Maps, ghost nb: Block)
      returns (ghost gp': Pic, ghost nb': Block)
      requires HashOk() && Mid(gp, m, v, nb) && gp.phase == Collecting(b, f, o)
      requires b < g.K <= g.LOG && o + 1 < g.P && f < |misc.rwList|
      requires l in tbl.m && tbl.m[l] == Addr(b, o)
      modifies `flash, `misc, tbl, tbl.nodes
      ensures HashOk() && Mid(gp', m, v, nb') && f < |gp.log[b]| && f < |gp.rwList|
      ensures gp' == GcKept(gp, l, Written(ViewAt(g, gp, l)))
      ensures misc == old(misc).(rwList := old(misc.rwList)[f := Some(l)])
      ensures tbl.m == old(tbl.m)[l := Addr(b, f)]
    {
      hide Ok, Loose, WellMapped, Filling;
      LooseIsMapped(g, m, blocks, v, b);
      FollowLog(g, m, blocks, b);
      ghost var p := Written(ViewAt(g, gp, l));
      gp', nb' := GcKept(gp, l, p), nb[f := p];
      misc := misc.(rwList := misc.rwList[f := Some(l)]);
      tbl.Update(l, Addr(b, f));
      NandPageCopyback(logBmt[b], o, v, f);
      assert MidParts(gp', m, v, nb');
    }

    /** The same, with a second-chance bit for the page. */
    method KeepWarmPage(l: Addr, b: nat, f: nat, o: nat, v: nat, ghost gp: Pic, ghost m: Maps, ghost nb: Block)
      returns (ghost gp': Pic, ghost nb': Block)
      requires HashOk() && Mid(gp, m, v, nb) && Inv(g, gp) && gp.phase == Collecting(b, f, o)
      requires b < g.K <= g.LOG && o + 1 < g.P && f < |misc.rwList|
      requires l in tbl.m && tbl.m[l] == Addr(b, o)
      modifies `flash, `misc, `sc, tbl, tbl.nodes
      ensures HashOk() && Mid(gp', m, v, nb') && Inv(g, gp') && SameView(g, gp, gp')
      ensures gp'.phase == Collecting(b, f + 1, o + 1) && gp'.ic == gp.ic
      ensures misc == old(misc).(rwList := old(misc.rwList)[f := Some(l)])
      ensures tbl.m == old(tbl.m)[l := Addr(b, f)] && sc == old(sc) + {Addr(b, f)}
    {
      hide Ok, Mid, MidParts, Inv, SameView;
      MidHas(gp, m, v, nb);
      GcKeptOk(g, gp, l, Written(ViewAt(g, gp, l)));
      sc := sc + {Addr(b, f)};
      gp', nb' := KeepPage(l, b, f, o, v, gp, m, nb);
    }

    /** Page x of the isolation area is programmed with p. */
    method ProgramIsolPage(x: Addr, p: Page, v: nat, ghost gp: Pic, ghost m: Maps, ghost nb: Block)
      returns (ghost m': Maps)
      requires Mid(gp, m, v, nb) && x.blk < g.ISOL && x.blk < |isolPic|
      requires x.off < |isolPic[x.blk]| && |isolPic[x.blk]| == g.P && BlankFrom(isolPic[x.blk], x.off)
      modifies `flash, `isolPic
      ensures x.blk < |gp.isol| && x.off < |gp.isol[x.blk]|
      ensures Mid(gp.(isol := Put(gp.isol, x.blk, x.off, p)), m', v, nb)
    {
      hide Loose;
      RewriteIsolBeside(g, m, blocks, x.blk, isolPic[x.blk][x.off := p], v);
      m' := IsolRewritten(m, x.blk, isolPic[x.blk][x.off := p]);
      NandPageProgram(isolBmt[x.blk], x.off, p);
      isolPic := Put(isolPic, x.blk, x.off, p);
      assert MidParts(gp.(isol := Put(gp.isol, x.blk, x.off, p)), m', v, nb);
    }

    /** The current isolation block gets its lpn list and the next block becomes current. */
    method CloseIsolBlock(v: nat, ghost gp: Pic, ghost m: Maps, ghost nb: Block)
      returns (ghost gp': Pic, ghost m': Maps)
      requires Mid(gp, m, v, nb) && Inv(g, gp) && Cur(g, gp).off == g.P - 1 && 2 <= misc.isolFree
      modifies `flash, `isolPic, `misc
      ensures Cur(g, gp).blk < |gp.isol| && 1 <= g.P <= |gp.isol[Cur(g, gp).blk]| && gp' == IsolClosed(g, gp)
      ensures Mid(gp', m', v, nb)
      ensures misc == old(misc).(ic := Some(Cur(g, gp)), isolFree := old(misc.isolFree) - 1)
    {
      hide Inv, Loose, SameView;
      IsolClosedOk(g, gp);
      gp' := IsolClosed(g, gp);
      var x := IsolSucc(g, misc.ic);
      m' := ProgramIsolPage(x, LpnList(misc.isList), v, gp, m, nb);
      misc := misc.(ic := Some(x), isolFree := misc.isolFree - 1);
      assert MidParts(gp', m', v, nb);
    }

    /**
     inc_cur_write_isol_lpn with the checks around it: the next isolation page x to write, in
     the next block if the current one is full.  Fails when that runs into the victim block; with the
     victim pointer still at its initial value the checks pass and the oldest block is written over.
     */
    method NextIsolPage(v: nat, ghost gp: Pic, ghost m: Maps, ghost nb: Block)
      returns (r: Outcome, x: Addr, ghost gp': Pic, ghost m': Maps)
      requires Mid(gp, m, v, nb) && Inv(g, gp)
      modifies `flash, `isolPic, `misc
      ensures r == RoomOutcome(g, if Cur(g, gp).off + 1 < g.P then 1 else 2, old(misc.isolFree), old(misc.iv))
      ensures r == Fine ==> Mid(gp', m', v, nb) && Inv(g, gp') && SameView(g, gp, gp')
      ensures r == Fine ==> Cur(g, gp').off + 1 < g.P && x == Cur(g, gp') == IcNext(g, old(misc.ic))
      ensures r == Fine ==> gp'.phase == gp.phase && gp'.hm == gp.hm
      ensures r == Fine && Cur(g, gp).off + 1 < g.P ==> Cur(g, gp') == Cur(g, gp) && misc == old(misc)
      ensures r == Fine && Cur(g, gp).off + 1 == g.P ==>
                Cur(g, gp').off == 0 && misc == old(misc).(ic := misc.ic, isolFree := old(misc.isolFree) - 1)
    {
      hide Inv, Mid, MidParts, SameView;
      MidHas(gp, m, v, nb);
      PointersMeet(g, gp);
      CurBounds(g, gp);
      gp', m' := gp, m;
      SameViewRefl(g, gp);
      x := IsolSucc(g, misc.ic);
      if misc.iv.Some? && misc.iv.value.blk == x.blk { return AssertFails, x, gp', m'; }
      if x.off == g.P - 1 {
        if misc.isolFree < 2 { return if misc.iv.Some? then AssertFails else Overrun, x, gp', m'; }
        IsolClosedOk(g, gp);
        gp', m' := CloseIsolBlock(v, gp, m, nb);
        PointersMeet(g, gp');
        x := IsolSucc(g, misc.ic);
        if misc.iv.Some? && misc.iv.value.blk == x.blk { return AssertFails, x, gp', m'; }
      }
      r := Fine;
    }

    /** The tables learn that lpn l, live at page o of the victim, is now at isolation page x. */
    method RecordMove(l: Addr, x: Addr, v: nat, ghost gp: Pic, ghost m: Maps, ghost nb: Block) returns (ghost gp': Pic)
      requires HashOk() && Mid(gp, m, v, nb) && gp.phase.Collecting? && gp.phase.o < g.P
      requires l in tbl.m && x.off < |misc.isList|
      modifies `misc, tbl, tbl.nodes
      ensures HashOk() && Mid(gp', m, v, nb) && x.off < |gp.isList|
      ensures gp' == gp.(hm := gp.hm[l := InIsol(g, x)], ic := Some(x), isList := gp.isList[x.off := Some(l)],
                         phase := Collecting(gp.phase.b, gp.phase.f, gp.phase.o + 1))
      ensures misc == old(misc).(ic := Some(x), isList := old(misc.isList)[x.off := Some(l)])
      ensures tbl.m == old(tbl.m)[l := InIsol(g, x)]
    {
      hide Ok, Loose;
      misc := misc.(ic := Some(x), isList := misc.isList[x.off := Some(l)]);
      tbl.Update(l, InIsol(g, x));
      gp' := gp.(hm := tbl.m, ic := misc.ic, isList := misc.isList,
        phase := Collecting(gp.phase.b, gp.phase.f, gp.phase.o + 1));
      assert MidParts(gp', m, v, nb);
    }

    /** The page of lpn l is copied to isolation page x. */
    method PlaceIsolPage(l: Addr, x: Addr, b: nat, o: nat, v: nat, ghost gp: Pic, ghost m: Maps, ghost nb: Block)
      returns (ghost gp': Pic, ghost m': Maps)
      requires HashOk() && Mid(gp, m, v, nb) && gp.phase.Collecting? && gp.phase.b == b && gp.phase.o == o
      requires b < g.K <= g.LOG && o + 1 < g.P && l in tbl.m && tbl.m[l] == Addr(b, o)
      requires x == Cur(g, gp) && x.blk < g.ISOL == |isolPic| && x.off < |isolPic[x.blk]| && |isolPic[x.blk]| == g.P
      requires BlankFrom(isolPic[x.blk], x.off) && x.off < |misc.isList|
      modifies `flash, `isolPic, `misc, tbl, tbl.nodes
      ensures x.blk < |gp.isol| && x.off < |gp.isol[x.blk]| && x.off < |gp.isList|
      ensures HashOk() && Mid(gp', m', v, nb) && gp' == GcMoved(g, gp, l, Written(ViewAt(g, gp, l)))
      ensures misc == old(misc).(ic := Some(x), isList := old(misc.isList)[x.off := Some(l)])
      ensures tbl.m == old(tbl.m)[l := InIsol(g, x)]
    {
      hide Ok, MidParts, GcMoved, Cur, BlankFrom;
      MidHas(gp, m, v, nb);
      var p := VictimPage(l, b, o, v, gp, m, nb);
      ghost var gp1 := RecordMove(l, x, v, gp, m, nb);
      GcMovedParts(g, gp, l, p);
      m' := ProgramIsolPage(x, p, v, gp1, m, nb);
      gp' := gp1.(isol := Put(gp1.isol, x.blk, x.off, p));
    }

    /** What page o of the victim holds, which is live for lpn l. */
    method VictimPage(l: Addr, b: nat, o: nat, v: nat, ghost gp: Pic, ghost m: Maps, ghost nb: Block) returns (p: Page)
      requires Mid(gp, m, v, nb) && gp.phase.Collecting? && gp.phase.b == b && gp.phase.o == o
      requires b < g.K <= g.LOG && o + 1 < g.P && l in tbl.m && tbl.m[l] == Addr(b, o)
      ensures p == Written(ViewAt(g, gp, l))
    {
      hide Loose, WellMapped, Filling;
      LooseIsMapped(g, m, blocks, v, b);
      FollowLog(g, m, blocks, b);
      p := Written(Content(g.S, flash[logBmt[b]][o]));
    }

    /** A cold page of the victim goes to the isolation area. */
    method MovePage(l: Addr, b: nat, o: nat, v: nat, ghost gp: Pic, ghost m: Maps, ghost nb: Block)
      returns (r: Outcome, ghost gp': Pic, ghost m': Maps)
      requires HashOk() && Mid(gp, m, v, nb) && Inv(g, gp) && gp.phase.Collecting? && gp.phase.b == b && gp.phase.o == o
      requires b < g.K <= g.LOG && o + 1 < g.P && l in tbl.m && tbl.m[l] == Addr(b, o)
      modifies `flash, `isolPic, `misc, tbl, tbl.nodes
      ensures r == RoomOutcome(g, if Cur(g, gp).off + 1 < g.P then 1 else 2, old(misc.isolFree), old(misc.iv))
      ensures r == Fine ==> HashOk() && Mid(gp', m', v, nb) && Inv(g, gp') && SameView(g, gp, gp')
      ensures r == Fine ==> gp'.phase == Collecting(b, gp.phase.f, o + 1) && IcInside(g, gp')
      ensures r == Fine ==>
              tbl.m == old(tbl.m)[l := InIsol(g, IcNext(g, old(misc.ic)))] && misc.ic == Some(IcNext(g, old(misc.ic)))
      ensures r == Fine ==> MovedOn(g, Cur(g, gp).off, old(misc.isolFree), 1, Cur(g, gp').off, misc.isolFree)
      ensures r == Fine ==> misc == old(misc).(ic := misc.ic, isolFree := misc.isolFree, isList := misc.isList)
    {
      hide Inv, Mid, MidParts, SameView, Ok, IcNext;
      var x;
      CurBounds(g, gp);
      MidHas(gp, m, v, nb);
      r, x, gp', m' := NextIsolPage(v, gp, m, nb);
      if r == Fine {
        ghost var gp1 := gp';
        MidHas(gp', m', v, nb);
        GcMovedOk(g, gp', l, Written(ViewAt(g, gp', l)));
        gp', m' := PlaceIsolPage(l, x, b, o, v, gp', m', nb);
        SameViewTrans(g, gp, gp1, gp');
      }
    }

    /** Log block b is replaced by block v, which holds nb. */
    method SetLogBlock(b: nat, v: nat, ghost m: Maps, ghost nb: Block)
      requires RingOk() && freeCnt < FREE_BLK_PER_BANK
      requires v < |m.fl| && m == TheMaps().(fl := m.fl) && flash == m.fl[v := nb]
      requires b < |logBmt| && b < |logPic| && logBmt[b] < |flash|
      modifies `flash, `logBmt, `freeBmt, `freeHead, `freeCnt, `freeList, `logPic
      ensures RingOk() && freeCnt == old(freeCnt) + 1
      ensures TheMaps() == LogInstalled(g, m, b, v, nb)
      ensures logPic == old(logPic[b := nb])
    {
      hide ErasedBlock;
      var logVbn := logBmt[b];
      logBmt := logBmt[b := v];
      NandBlockErase(logVbn);
      RetFreeVbn(logVbn);
      logPic := logPic[b := nb];
    }

    /** The end of garbage_collection: the replacement takes the victim's place and is written on from page f. */
    method InstallLogBlock(b: nat, f: nat, v: nat, ghost gp: Pic, ghost m: Maps, ghost nb: Block)
      requires RingOk() && freeCnt < FREE_BLK_PER_BANK && misc.rwFree == 0
      requires 0 < g.P && Mid(gp, m, v, nb) && gp.phase == Collecting(b, f, g.P - 1) && 1 <= b < g.K
      modifies `flash, `logBmt, `freeBmt, `freeHead, `freeCnt, `freeList, `logPic, `misc
      ensures MapsOk() && freeCnt == old(freeCnt) + 1 && 0 < g.P && b < |gp.log|
      ensures Picture() == GcEnded(g, gp, nb)
      ensures misc == old(misc).(rwFree := 1, rw := Pred(g, Addr(b, f)))
    {
      hide WellMapped, Loose, ErasedBlock;
      LogInstall(g, m, blocks, b, v, nb);
      SetLogBlock(b, v, m, nb);
      misc := misc.(rwFree := misc.rwFree + 1, rw := Pred(g, Addr(b, f)));
      assert old(logPic)[b := gp.log[b]][b := nb] == old(logPic)[b := nb];
    }

    /** clr_all_scbit_in_log_blk and set_all_scbit_in_log_blk. */
    method ClrAllScbit(b: nat)
      modifies `sc
      ensures forall x :: x in sc <==> x in old(sc) && !(x.blk == b && x.off < g.P)
    {
      sc := set x | x in sc && !(x.blk == b && x.off < g.P);
    }

    method SetAllScbit(b: nat)
      modifies `sc
      ensures forall x :: x in sc <==> x in old(sc) || (x.blk == b && x.off < g.P)
    {
      sc := sc + set o | 0 <= o < g.P :: Addr(b, o);
    }

    /** garbage_collection of a block with few live pages: all of them stay in the log, with a second-chance bit. */
    method KeepLivePages(b: nat, v: nat, ghost gp0: Pic, ghost m: Maps) returns (f: nat, ghost gp: Pic, ghost nb: Block)
      requires HashOk() && v < |flash| && Mid(gp0, m, v, flash[v]) && Inv(g, gp0) && gp0.phase == Collecting(b, 0, 0)
      requires b < g.K <= g.LOG && 0 < g.P && |misc.rwList| == g.P && LiveList(tbl.m, b, misc.rwList, g.P - 1)
      requires forall l :: l in tbl.m && tbl.m[l].blk == b ==> tbl.m[l].off + 1 < g.P
      modifies `flash, `misc, `sc, tbl, tbl.nodes
      ensures HashOk() && Mid(gp, m, v, nb) && Inv(g, gp) && SameView(g, gp0, gp)
      ensures gp.phase == Collecting(b, f, g.P - 1) && f == |LiveIn(old(tbl.m), b, g.P - 1)|
      ensures tbl.m == CollectedMap(g, old(tbl.m), {}, misc.ic, b) && sc == ScAfter(old(sc), b, f, g.P)
      ensures misc == old(misc).(rwList := misc.rwList)
    {
      hide Inv, Mid, MidParts, SameView, Ok, Sweep, LiveList, LiveIn, ColdIn, ScBits, CollectedMap, ScAfter, Place;
      ghost var hm, list, ic := tbl.m, misc.rwList, misc.ic;
      f, gp, nb := 0, gp0, flash[v];
      ClrAllScbit(b);
      ghost var sc1 := sc;
      SweepStart(g, hm, {}, ic, b, list, g.P - 1);
      BitsStart(sc1, b);
      SameViewRefl(g, gp);
      for o := 0 to g.P - 1
        modifies `flash, `misc, `sc, tbl, tbl.nodes
        invariant HashOk() && Mid(gp, m, v, nb) && Inv(g, gp) && SameView(g, gp0, gp)
        invariant gp.phase == Collecting(b, f, o) && f + |ColdIn(hm, {}, b, o)| == |LiveIn(hm, b, o)| &&
          f == |LiveIn(hm, b, o)| && f <= o
        invariant misc == old(misc).(rwList := misc.rwList) && |misc.rwList| == g.P
        invariant Sweep(g, hm, tbl.m, {}, ic, b, list, misc.rwList, o, g.P - 1)
        invariant ScBits(sc1, sc, b, f, o)
      {
        MidHas(gp, m, v, nb);
        ghost var gp1 := gp;
        SweepNext(g, hm, tbl.m, {}, ic, {}, b, list, misc.rwList, o, g.P - 1);
        NoBitLeft(g, sc1, sc, b, f, o);
        var l := misc.rwList[o];
        if l.None? {
          MidSkipped(gp, m, v, nb);
          gp := GcSkipped(gp);
        } else {
          PlaceWarm(g, hm, {}, ic, b, o, f);
          SweepOn(g, hm, tbl.m, {}, ic, b, list, misc.rwList, o, g.P - 1, Addr(b, f), f);
          gp, nb := KeepWarmPage(l.value, b, f, o, v, gp, m, nb);
          f := f + 1;
        }
        SameViewTrans(g, gp0, gp1, gp);
      }
      SweepEnd(g, hm, tbl.m, {}, ic, b, list, misc.rwList, g.P - 1);
      BitsDone(old(sc), sc1, sc, b, f, g.P - 1, g.P);
    }

    /**
     garbage_collection of a block with many live pages: cold ones, which have had their
     second chance, go to the isolation area; the others stay, with a second-chance bit.
     */
    method SortLivePages(b: nat, v: nat, ghost gp0: Pic, ghost m0: Maps)
      returns (r: Outcome, f: nat, ghost gp: Pic, ghost m: Maps, ghost nb: Block)
      requires HashOk() && v < |flash| && Mid(gp0, m0, v, flash[v]) && Inv(g, gp0) &&
               gp0.phase == Collecting(b, 0, 0) && IcInside(g, gp0)
      requires b < g.K <= g.LOG && 4 <= g.P && |misc.rwList| == g.P && LiveList(tbl.m, b, misc.rwList, g.P - 1)
      requires forall l :: l in tbl.m && tbl.m[l].blk == b ==> tbl.m[l].off + 1 < g.P
      modifies `flash, `isolPic, `misc, `sc, tbl, tbl.nodes
      ensures r == RoomOutcome(g, Needed(g, Cur(g, gp0).off, |old(ColdIn(tbl.m, sc, b, g.P - 1))|),
              old(misc.isolFree), old(misc.iv))
      ensures r == Fine ==> HashOk() && Mid(gp, m, v, nb) && Inv(g, gp) && SameView(g, gp0, gp) && IcInside(g, gp)
      ensures r == Fine ==> gp.phase == Collecting(b, f, g.P - 1)
      ensures r == Fine ==> f + |old(ColdIn(tbl.m, sc, b, g.P - 1))| == |old(LiveIn(tbl.m, b, g.P - 1))|
      ensures r == Fine ==>
              tbl.m == CollectedMap(g, old(tbl.m), old(sc), old(misc.ic), b) && sc == ScAfter(old(sc), b, f, g.P - 1)
      ensures r == Fine ==> misc.ic == IcAfter(g, old(misc.ic), |old(ColdIn(tbl.m, sc, b, g.P - 1))|)
      ensures r == Fine ==>
              misc.isolFree == FreeAfter(g, Cur(g, gp0).off, old(misc.isolFree), |old(ColdIn(tbl.m, sc, b, g.P - 1))|)
      ensures r == Fine ==>
              misc == old(misc).(rwList := misc.rwList, ic := misc.ic, isolFree := misc.isolFree, isList := misc.isList)
    {
      hide Inv, Mid, MidParts, SameView, Ok, Sweep, LiveList, LiveIn, ColdIn, MovedOn, ScBits, Needed, Room,
        IcInside, Cur, IcNext;
      hide CollectedMap, ScAfter, Place, FreeAfter, RoomOutcome;
      ghost var hm, list, sc0, i0, ic, k := tbl.m, misc.rwList, sc, misc.isolFree, misc.ic, 0;
      r, f, gp, m, nb := Fine, 0, gp0, m0, flash[v];
      SweepStart(g, hm, sc0, ic, b, list, g.P - 1);
      ColdBound(hm, sc0, b, list, 0, g.P - 1);
      CurBounds(g, gp0);
      MidHas(gp0, m, v, nb);
      MoveStart(g, old(misc.iv), Cur(g, gp0).off, i0, sc0, b);
      SameViewRefl(g, gp);
      for o := 0 to g.P - 1
        modifies `flash, `isolPic, `misc, `sc, tbl, tbl.nodes
        invariant r == Fine && HashOk() && Mid(gp, m, v, nb) && Inv(g, gp) && SameView(g, gp0, gp) && IcInside(g, gp)
        invariant gp.phase == Collecting(b, f, o) && k == |ColdIn(hm, sc0, b, o)| && f + k == |LiveIn(hm, b, o)| &&
          f + k <= o
        invariant misc == old(misc).(rwList := misc.rwList, ic := misc.ic, isolFree := misc.isolFree,
          isList := misc.isList)
        invariant |misc.rwList| == g.P && Sweep(g, hm, tbl.m, sc0, ic, b, list, misc.rwList, o, g.P - 1)
        invariant ScBits(sc0, sc, b, f, o) && misc.ic == IcAfter(g, ic, k)
        invariant MovedOn(g, Cur(g, gp0).off, i0, k, Cur(g, gp).off, misc.isolFree)
        invariant Needed(g, Cur(g, gp0).off, k) <= Room(g, i0, old(misc.iv))
      {
        MidHas(gp, m, v, nb);
        ghost var gp1 := gp;
        SweepNext(g, hm, tbl.m, sc0, ic, sc0, b, list, misc.rwList, o, g.P - 1);
        ScNext(sc0, sc, b, f, o);
        var l := misc.rwList[o];
        var scbit := Addr(b, o) in sc;
        sc := sc - {Addr(b, o)};
        if l.None? {
          MidSkipped(gp, m, v, nb);
          gp := GcSkipped(gp);
          SameCur(g, gp1, gp);
        } else if scbit {
          ghost var c, i := Cur(g, gp).off, misc.isolFree;
          CurBounds(g, gp);
          PlaceCold(g, hm, sc0, ic, b, o);
          SweepOn(g, hm, tbl.m, sc0, ic, b, list, misc.rwList, o, g.P - 1, InIsol(g, IcNext(g, misc.ic)), f);
          r, gp, m := MovePage(l.value, b, o, v, gp, m, nb);
          ColdBound(hm, sc0, b, list, o + 1, g.P - 1);
          MoreRoom(g, old(misc.iv), Cur(g, gp0).off, i0, k, c, i, Cur(g, gp).off, misc.isolFree);
          RoomLess(g, if c + 1 < g.P then 1
            else 2, i, Cur(g, gp0).off, k + 1, |ColdIn(hm, sc0, b, g.P - 1)|, i0, old(misc.iv));
          if r != Fine { return; }
          k := k + 1;
        } else {
          PlaceWarm(g, hm, sc0, ic, b, o, f);
          SweepOn(g, hm, tbl.m, sc0, ic, b, list, misc.rwList, o, g.P - 1, Addr(b, f), f);
          gp, nb := KeepWarmPage(l.value, b, f, o, v, gp, m, nb);
          SameCur(g, gp1, gp);
          f := f + 1;
        }
        SameViewTrans(g, gp0, gp1, gp);
      }
      SweepEnd(g, hm, tbl.m, sc0, ic, b, list, misc.rwList, g.P - 1);
      BitsDone(sc0, sc0, sc, b, f, g.P - 1, g.P - 1);
      AllMoved(g, Cur(g, gp0).off, i0, k, Cur(g, gp).off, misc.isolFree, old(misc.iv));
    }

    /** The replacement nb, complete, in the victim's place. */
    lemma MidEnds(gp: Pic, m: Maps, v: nat, nb: Block)
      requires Mid(gp, m, v, nb) && Inv(g, gp) && gp.phase.Collecting? && gp.phase.o == g.P - 1 && gp.phase.f + 1 < g.P
      ensures 0 < gp.phase.b < |gp.log| && 0 < g.P
      ensures Inv(g, GcEnded(g, gp, nb)) && SameView(g, gp, GcEnded(g, gp, nb)) && RwRoom(g, GcEnded(g, gp, nb))
    {
      GcEndedOk(g, gp, nb);
    }

    /** A victim block that is about to be collected into the loose, erased block v. */
    lemma MidStarts(b: nat, v: nat)
      requires Loose(g, TheMaps(), blocks, v) && v < |flash| && flash[v] == ErasedBlock(g.P)
      requires b < |logPic| && |logPic[b]| == g.P
      ensures forall o: nat :: o <= g.P ==>
              Mid(GcStarted(Picture(), b, misc.rwList).(phase := Collecting(b, 0, o)), TheMaps(), v, flash[v])
    {
      forall o: nat | o <= g.P
        ensures Mid(GcStarted(Picture(), b, misc.rwList).(phase := Collecting(b, 0, o)), TheMaps(), v, flash[v]) {
        var gp := GcStarted(Picture(), b, misc.rwList).(phase := Collecting(b, 0, o));
        assert logPic[b := logPic[b]] == logPic && flash[v := flash[v]] == flash;
        assert MidParts(gp, TheMaps(), v, flash[v]);
      }
    }

    /** The three cases of garbage_collection: what happens to the live pages of block b, by their number. */
    method EmptyLogBlock(b: nat, valid: nat, v: nat)
      returns (r: Outcome, f: nat, ghost gp: Pic, ghost m: Maps, ghost nb: Block)
      requires HashOk() && InvNow() && IcInside(g, Picture()) && misc.rwFree == 0 && 1 <= b < g.K &&
               b == RwVictim(g, misc.rw)
      requires Loose(g, TheMaps(), blocks, v) && v < |flash| && flash[v] == ErasedBlock(g.P)
      requires 0 < g.P && LiveList(tbl.m, b, misc.rwList, g.P - 1) && valid == |LiveIn(tbl.m, b, g.P - 1)|
      modifies `flash, `isolPic, `misc, `sc, tbl, tbl.nodes
      ensures r == CollectOutcome(g, old(Control()))
      ensures r == Fine ==>
                && HashOk() && Mid(gp, m, v, nb) && Inv(g, gp) && SameView(g, old(Picture()), gp) && IcInside(g, gp)
      ensures r == Fine ==> gp.phase == Collecting(b, f, g.P - 1) && f == Kept(g, old(Control()))
      ensures r == Fine ==> Control() == CollectedCtl(g, old(Control())).(rw := misc.rw, rwFree := 0)
      ensures r == Fine ==>
              misc == old(misc).(rwList := misc.rwList, ic := misc.ic, isolFree := misc.isolFree, isList := misc.isList)
    {
      hide Inv, Mid, MidParts, SameView, Ok, LiveList, LiveIn, ColdIn, Loose, ErasedBlock, CollectedMap, ScAfter;
      ghost var a, list, c := Picture(), misc.rwList, Control();
      RwBounds(g, a);
      CurBounds(g, a);
      VictimFull(g, a, b);
      MidStarts(b, v);
      m, nb, gp := TheMaps(), flash[v], GcStarted(a, b, list);
      assert gp == gp.(phase := Collecting(b, 0, 0));
      GcStartedOk(g, a, b, list);
      r, f := Fine, 0;
      if valid == 0 {
        gp := gp.(phase := Collecting(b, 0, g.P - 1));
        GcEmptyOk(g, a, b, list);
        NoneCollected(g, tbl.m, Movers(g, tbl.m, sc, b), misc.ic, b, g.P - 1);
        NoneMoved(g, c);
      } else if valid < g.P / 2 {
        NoneMoved(g, c);
        f, gp, nb := KeepLivePages(b, v, gp, m);
        MidHas(gp, m, v, nb);
        SameViewTrans(g, a, GcStarted(a, b, list), gp);
      } else {
        r, f, gp, m, nb := SortLivePages(b, v, gp, m);
        SameViewTrans(g, a, GcStarted(a, b, list), gp);
      }
    }

    /** The victim is emptied into a free block, which takes its place. */
    method ReplaceLogBlock(b: nat, valid: nat) returns (r: Outcome)
      requires Base() && freeCnt == FREE_BLK_PER_BANK && InvNow() && IcInside(g, Picture()) && misc.rwFree == 0
      requires 1 <= b < g.K && b == RwVictim(g, misc.rw)
      requires 0 < g.P && LiveList(tbl.m, b, misc.rwList, g.P - 1) && valid == |LiveIn(tbl.m, b, g.P - 1)|
      requires valid < g.P - 1 || |ColdIn(tbl.m, sc, b, g.P - 1)| > 0
      modifies `flash, `logBmt, `freeBmt, `freeHead, `freeTail, `freeCnt, `freeList, `misc, `sc
      modifies `logPic, `isolPic, tbl, tbl.nodes
      ensures r == CollectOutcome(g, old(Control()))
      ensures r == Fine ==> Base() && freeCnt == FREE_BLK_PER_BANK && InvNow() && SameView(g, old(Picture()), Picture())
      ensures r == Fine ==> RwRoom(g, Picture()) && misc.rw.off + 2 != g.P && misc.rwFree == 1 && IcInside(g, Picture())
      ensures r == Fine ==> 2 <= g.K && Control() == CollectedCtl(g, old(Control()))
    {
      hide Inv, Mid, MidParts, SameView, Ok, LiveList, LiveIn, ColdIn, Loose, Filling, WellMapped, ErasedBlock,
        Moves, RwRoom;
      hide CollectOutcome, BitsAfter, CollectedMap, IcAfter, Kept, FreeAfter;
      ghost var a, list, c := Picture(), misc.rwList, Control();
      RwBounds(g, a);
      var v := TakeFreeBlock();
      var f;
      ghost var gp, m, nb;
      r, f, gp, m, nb := EmptyLogBlock(b, valid, v);
      if r == Fine {
        KeptRoom(g, c, list);
        MidEnds(gp, m, v, nb);
        MidHas(gp, m, v, nb);
        InstallLogBlock(b, f, v, gp, m, nb);
        SameViewTrans(g, a, gp, Picture());
      }
    }

    /** All pages of block b are live and none has had a second chance: all get it, and the next block is up. */
    method GiveSecondChance(b: nat)
      requires MapsOk() && InvNow() && misc.rwFree == 0 && 1 <= b < g.K && b == RwVictim(g, misc.rw) && 4 <= g.P &&
               GeoOk(g)
      modifies `misc, `sc
      ensures InvNow() && SameView(g, old(Picture()), Picture()) && Control() == Chance(g, old(Control()))
      ensures misc == old(misc).(rw := misc.rw)
    {
      hide Inv, SameView, WellMapped;
      ghost var a := Picture();
      RwBounds(g, a);
      SetAllScbit(b);
      var n := NextRwBlock(b);
      misc := misc.(rw := Addr(n - 1, g.P - 1));
      RwMovedOk(g, a, misc.rw, misc.rwList);
    }

    /**
     garbage_collection: the next RW log block in turn is given a free block in exchange, unless
     all its pages are live and none has had a second chance; then it gets that chance, and the
     next block will be the victim.  Moving the cold pages ends well exactly when there is room
     for them in the isolation area.
     */
    method GarbageCollection() returns (r: Outcome)
      requires Base() && freeCnt == FREE_BLK_PER_BANK && InvNow() && IcInside(g, Picture()) && misc.rwFree == 0
      modifies `flash, `logBmt, `freeBmt, `freeHead, `freeTail, `freeCnt, `freeList, `misc, `sc, `gcFlag
      modifies `logPic, `isolPic, tbl, tbl.nodes
      ensures AllWarm(g, old(tbl.m), old(sc), RwVictim(g, old(misc.rw))) ==>
                r == Fine && 2 <= g.K && Control() == Chance(g, old(Control())) && gcFlag == old(gcFlag)
      ensures !AllWarm(g, old(tbl.m), old(sc), RwVictim(g, old(misc.rw))) ==> r == CollectOutcome(g, old(Control()))
      ensures !AllWarm(g, old(tbl.m), old(sc), RwVictim(g, old(misc.rw))) && r == Fine ==>
                && 2 <= g.K && Control() == CollectedCtl(g, old(Control())) && gcFlag
                && RwRoom(g, Picture()) && misc.rw.off + 2 != g.P
      ensures r == Fine ==>
              Base() && freeCnt == FREE_BLK_PER_BANK && InvNow() && SameView(g, old(Picture()), Picture()) &&
                IcInside(g, Picture())
    {
      hide Inv, SameView, Ok, LiveList, LiveIn, ColdIn, WellMapped, RwRoom, AllWarm, CollectOutcome, CollectedCtl;
      ghost var a, bits := Picture(), sc;
      RwBounds(g, a);
      var b := NextRwBlock(misc.rw.blk);
      var valid, cold := MarkValid(b);
      RwMovedOk(g, a, misc.rw, misc.rwList);
      LiveBound(tbl.m, bits, b, misc.rwList, g.P - 1);
      WarmByCount(g, tbl.m, sc, b, misc.rwList);
      ghost var a1 := Picture();
      assert Control() == old(Control());
      if valid == g.P - 1 && cold == 0 {
        GiveSecondChance(b);
        r := Fine;
      } else {
        r := ReplaceLogBlock(b, valid);
        gcFlag := true;
      }
      SameViewTrans(g, a, a1, Picture());
    }

    // ----- where the next page goes -----

    /** Page x of the log is programmed with p. */
    method ProgramLogPage(x: Addr, p: Page)
      requires MapsOk() && x.blk < g.K && x.blk < |logPic|
      requires x.off < |logPic[x.blk]| && BlankFrom(logPic[x.blk], x.off)
      modifies `flash, `logPic
      ensures MapsOk() && logPic == Put(old(logPic), x.blk, x.off, p)
    {
      hide WellMapped;
      ghost var blk := logPic[x.blk][x.off := p];
      FollowLog(g, TheMaps(), blocks, x.blk);
      RewriteLogBlock(g, TheMaps(), blocks, x.blk, blk);
      NandPageProgram(logBmt[x.blk], x.off, p);
      logPic := logPic[x.blk := blk];
      assert TheMaps() == LogRewritten(old(TheMaps()), x.blk, blk);
    }

    /** The lpn list goes to the last page of the current RW log block. */
    method CloseRwBlock()
      requires MapsOk() && InvNow() && 0 < misc.rwFree && misc.rw.off + 2 == g.P
      modifies `flash, `logPic, `misc
      ensures MapsOk() && misc == old(misc).(rwFree := old(misc.rwFree) - 1)
      ensures Inv(g, Picture().(rw := Addr(misc.rw.blk, g.P - 1))) && SameView(g, old(Picture()), Picture())
      ensures misc.rw.blk < g.K && (misc.rwFree > 0 ==> misc.rw.blk + 1 < g.K)
      ensures misc.rwFree == 0 ==> InvNow()
    {
      hide Inv, SameView, WellMapped;
      ghost var a := Picture();
      RwClosedOk(g, a);
      var b := misc.rw.blk;
      ProgramLogPage(Addr(b, g.P - 1), LpnList(misc.rwList));
      misc := misc.(rwFree := misc.rwFree - 1);
      RwMovedOk(g, Picture().(rw := Addr(b, g.P - 1)), misc.rw, misc.rwList);
      assert Picture().(rw := Addr(b, g.P - 1)).(rw := misc.rw, rwList := misc.rwList) == Picture();
      ViewOfBlocks(g, RwClosed(g, a), Picture());
      SameViewTrans(g, a, RwClosed(g, a), Picture());
    }

    /**
     The loop that collects garbage until an RW log block is open again.  It takes at most as
     many rounds as there are RW log blocks, and one: every round but the last marks a block
     that had no second-chance bit.
     */
    method CollectUntilOpen() returns (r: Outcome, ghost rounds: nat)
      requires Base() && freeCnt == FREE_BLK_PER_BANK && InvNow() && IcInside(g, Picture()) && misc.rwFree == 0
      modifies `flash, `logBmt, `freeBmt, `freeHead, `freeTail, `freeCnt, `freeList, `misc, `sc, `gcFlag
      modifies `logPic, `isolPic, tbl, tbl.nodes
      ensures rounds <= (g.K - 1) + 1
      ensures r == CollectCtl(g, old(Control())).0
      ensures r == Fine ==> Base() && freeCnt == FREE_BLK_PER_BANK && InvNow() && SameView(g, old(Picture()), Picture())
      ensures r == Fine ==> RwRoom(g, Picture()) && misc.rw.off + 2 != g.P && IcInside(g, Picture())
      ensures r == Fine ==> Control() == CollectCtl(g, old(Control())).1 && gcFlag
    {
      hide Inv, SameView, Ok, WellMapped, RwRoom, Unmarked, IcInside, CollectOutcome, CollectedCtl, AllWarm;
      ghost var a, c := Picture(), Control();
      r, rounds := Fine, 0;
      SameViewRefl(g, a);
      UnmarkedBound(g, sc);
      while misc.rwFree == 0
        invariant r == Fine && Base() && freeCnt == FREE_BLK_PER_BANK && InvNow() && SameView(g, a, Picture()) &&
          IcInside(g, Picture())
        invariant misc.rwFree == 0 ==> rounds + |Unmarked(g, sc)| < g.K && Turn(g, Control()) == Turn(g, c)
        invariant misc.rwFree != 0 ==> RwRoom(g, Picture()) && misc.rw.off + 2 != g.P && rounds <= g.K && gcFlag
        invariant misc.rwFree != 0 ==> CollectOutcome(g, Turn(g, c)) == Fine && Control() == CollectedCtl(g, Turn(g, c))
        decreases if misc.rwFree == 0 then 1 + |Unmarked(g, sc)| else 0
      {
        ghost var b, d := Picture(), Control();
        rounds := rounds + 1;
        CurBounds(g, b);
        r := GarbageCollection();
        OpenAgain(g, d);
        if AllWarm(g, d.hm, d.sc, RwVictim(g, d.rw)) { MarkedOne(g, d.hm, d.sc, RwVictim(g, d.rw)); }
        if r != Fine { return; }
        SameViewTrans(g, a, b, Picture());
      }
    }

    /** assign_cur_write_rwlog_lpn: moves the RW write pointer on, by way of garbage collection if the log is full. */
    method AssignCurWriteRwlogLpn(ghost l: Addr) returns (r: Outcome, x: Addr, ghost a: Pic)
      requires Base() && freeCnt == FREE_BLK_PER_BANK && InvNow() && IcInside(g, Picture()) && 0 < misc.rwFree
      modifies `flash, `logBmt, `freeBmt, `freeHead, `freeTail, `freeCnt, `freeList, `misc, `sc, `gcFlag
      modifies `logPic, `isolPic, tbl, tbl.nodes
      ensures r == AssignCtl(g, old(Control())).0
      ensures r == Fine ==>
              Base() && freeCnt == FREE_BLK_PER_BANK && SameView(g, old(Picture()), a) && IcInside(g, Picture()) &&
                0 < misc.rwFree
      ensures r == Fine ==> Targeted(g, a, Picture(), l, x) && 1 <= x.blk
      ensures r == Fine ==>
              Control() == AssignCtl(g, old(Control())).1 && gcFlag == (old(gcFlag) || RwFull(g, old(Control())))
    {
      hide Inv, SameView, Ok, WellMapped, CollectCtl;
      r, a := Fine, Picture();
      SameViewRefl(g, a);
      RwBounds(g, a);
      if misc.rw.off == g.P - 2 {
        CloseRwBlock();
        ghost var b := Picture();
        if misc.rwFree == 0 {
          assert Control() == old(Control()).(rwFree := 0);
          ghost var rounds;
          r, rounds := CollectUntilOpen();
          x := misc.rw;
          if r != Fine { return; }
          SameViewTrans(g, a, b, Picture());
          RwBounds(g, Picture());
          a := Picture();
          OpenNotListed(g, a);
          x := Succ(g, misc.rw);
        } else {
          var n := NextRwBlock(misc.rw.blk);
          a := Picture().(rw := Addr(misc.rw.blk, g.P - 1));
          ViewOfBlocks(g, b, a);
          SameViewTrans(g, old(Picture()), b, a);
          RwBounds(g, a);
          OpenNotListed(g, a);
          x := Addr(n, 0);
        }
      } else {
        OpenNotListed(g, a);
        x := Succ(g, misc.rw);
      }
      misc := misc.(rw := x);
      assert Picture() == a.(rw := x);
    }

    /** is_ok_write_to_sw_logblk: whether lpn l goes to the SW log block, and what is noted of it. */
    method IsOkWriteToSwLogblk(l: Addr) returns (d: SwDecision)
      modifies `misc
      ensures (d, misc.corr) == Decide(g, old(misc).corr, old(misc).swLbn, old(misc).swOff, l)
      ensures misc == old(misc).(corr := misc.corr)
    {
      if misc.swLbn == Some(l.blk) {
        if misc.swOff + 1 == l.off {
          misc := misc.(corr := misc.corr.(ref := Some(l)));
          return SW_APPEND;
        }
        return SW_NO;
      }
      if misc.corr.ref.Some? && Succ(g, misc.corr.ref.value) == l {
        misc := misc.(corr := misc.corr.(ref := Some(l)));
        if misc.corr.cnt > COR_REF_THRESHOLD { return SW_DETECT; }
        misc := misc.(corr := misc.corr.(cnt := misc.corr.cnt + 1));
      } else {
        misc := misc.(corr := Corr(Some(l), 1));
      }
      return SW_NO;
    }

    /** The hash entry of lpn l becomes, or is made, x; its VC bit is set. */
    method SetEntry(l: Addr, x: Addr)
      requires HashOk() && |tbl.m| < Capacity(g)
      modifies `vc, tbl, tbl.nodes, tbl.heads
      ensures HashOk() && tbl.m == old(tbl.m)[l := x]
    {
      hide Ok, Capacity;
      if l in vc {
        tbl.Update(l, x);
      } else {
        vc := vc + {l};
        tbl.Insert(l, x);
      }
    }

    /** One round of the copying in prepare_to_new_write: lpn l's page goes to the SW log block. */
    method CopyToSwLog(l: Addr)
      requires Base() && InvNow() && SwNext(g, Picture(), l)
      modifies `flash, `logPic, `misc, `vc, tbl, tbl.nodes, tbl.heads
      ensures Base() && InvNow() && SameView(g, old(Picture()), Picture())
      ensures Control() ==
              old(Control()).(hm := old(tbl.m)[l := Addr(SW_LOG_LBN, l.off)], swOff := l.off, swLbn := Some(l.blk))
      ensures misc == old(misc).(swOff := l.off, swLbn := Some(l.blk))
    {
      hide Inv, Ok, WellMapped, Capacity;
      ghost var a := Picture();
      InvEntries(g, a);
      var v, o := GetVpn(l);
      var p := Written(Content(g.S, flash[v][o]));
      misc := misc.(swOff := misc.swOff + 1, swLbn := Some(l.blk));
      WriteOk(g, a, Picture(), l, Addr(0, l.off), p);
      TargetRoom(g, a, Picture(), l, Addr(0, l.off));
      SetEntry(l, Addr(SW_LOG_LBN, misc.swOff));
      ProgramLogPage(Addr(SW_LOG_LBN, misc.swOff), p);
      assert Picture() == HostWritten(a.(swOff := l.off, swLbn := Some(l.blk)), l, Addr(0, l.off), p);
    }

    /** The copying in prepare_to_new_write: the pages of l's data block below l go to the SW log block. */
    method CopyBelow(l: Addr)
      requires Base() && InvNow() && misc.swOff == -1 && misc.swLbn.None? && l.blk < g.D && l.off < g.P
      modifies `flash, `logPic, `misc, `vc, tbl, tbl.nodes, tbl.heads
      ensures Base() && InvNow() && SameView(g, old(Picture()), Picture())
      ensures misc == old(misc).(swOff := l.off - 1, swLbn := if l.off == 0 then None else Some(l.blk))
      ensures tbl.m == SwCopied(old(tbl.m), l.blk, l.off)
    {
      hide Inv, SameView, Ok, WellMapped, SwCopied;
      ghost var a, hm := Picture(), tbl.m;
      SameViewRefl(g, a);
      SwCopiedNext(hm, l.blk, 0);
      for o := 0 to l.off
        modifies `flash, `logPic, `misc, `vc, tbl, tbl.nodes, tbl.heads
        invariant Base() && InvNow() && SameView(g, a, Picture())
        invariant misc == old(misc).(swOff := o - 1, swLbn := if o == 0 then None else Some(l.blk))
        invariant tbl.m == SwCopied(hm, l.blk, o)
      {
        SwCopiedNext(hm, l.blk, o);
        ghost var b := Picture();
        CopyToSwLog(Addr(l.blk, o));
        SameViewTrans(g, a, b, Picture());
      }
    }

    /**
     The SW_DETECT case of prepare_to_new_write: what the SW log block held is merged, and the
     pages of l's data block below l are copied into it.
     */
    method StartSwLog(l: Addr) returns (x: Addr, ghost a: Pic)
      requires Base() && freeCnt == FREE_BLK_PER_BANK && InvNow() && misc.swOff + 1 < g.P && l.blk < g.D && l.off < g.P
      modifies `flash, `dataBmt, `logBmt, `freeBmt, `freeHead, `freeTail, `freeCnt, `freeList, `misc, `dataPic, `logPic
      modifies `vc, tbl, tbl.nodes, tbl.heads
      ensures Base() && freeCnt == FREE_BLK_PER_BANK && SameView(g, old(Picture()), a)
      ensures Targeted(g, a, Picture(), l, x) && x.blk == 0
      ensures misc == old(misc).(swOff := l.off, swLbn := Some(l.blk))
      ensures Control() == SwStarted(g, SwMergedCtl(g, old(Control())), l)
    {
      hide Inv, Core, Behind, SameView, Ok, WellMapped, Keep, SwCopied;
      ghost var a0 := Picture();
      SameViewRefl(g, a0);
      SwPointers(g, a0);
      if misc.swLbn.Some? {
        InvParts(g, a0);
        PartialMerge();
        InvParts(g, Picture());
      }
      ghost var b := Picture();
      CopyBelow(l);
      SameViewTrans(g, a0, b, Picture());
      a := Picture();
      if misc.swLbn.None? { misc := misc.(swLbn := Some(l.blk)); }
      misc := misc.(swOff := misc.swOff + 1);
      x := Addr(SW_LOG_LBN, misc.swOff);
    }

    /** prepare_to_new_write: the log address x at which lpn l is to be written next. */
    method PrepareToNewWrite(l: Addr) returns (r: Outcome, x: Addr, ghost a: Pic)
      requires Valid() && l.blk < g.D && l.off < g.P
      modifies this, tbl, tbl.nodes, tbl.heads
      ensures r == PrepareCtl(g, old(Control()), l).0
      ensures r == Fine ==>
              Base() && freeCnt == FREE_BLK_PER_BANK && SameView(g, old(Picture()), a) &&
                Targeted(g, a, Picture(), l, x)
      ensures r == Fine ==> IcInside(g, Picture()) && 0 < misc.rwFree && (x.blk != 0 ==> misc.swOff + 1 < g.P)
      ensures r == Fine ==>
              Control() == PrepareCtl(g, old(Control()), l).1 &&
                gcFlag == (old(gcFlag) || Collects(g, old(Control()), l))
      ensures r == Fine ==> x == if ToRw(g, old(Control()), l) then misc.rw else Addr(SW_LOG_LBN, l.off)
      ensures r == Fine ==> (x.blk != 0 <==> ToRw(g, old(Control()), l))
    {
      hide Inv, SameView, Ok, WellMapped, AssignCtl, SwStarted, SwMergedCtl;
      var d := IsOkWriteToSwLogblk(l);
      r, a := Fine, Picture();
      SwPointers(g, a);
      assert Control() == old(Control()).(corr := misc.corr);
      match d
      case SW_NO =>
        r, x, a := AssignCurWriteRwlogLpn(l);
      case SW_APPEND =>
        SameViewRefl(g, a);
        misc := misc.(swOff := misc.swOff + 1);
        x := Addr(SW_LOG_LBN, misc.swOff);
      case SW_DETECT =>
        x, a := StartSwLog(l);
    }

    // ----- host writes -----

    /** The page to program: the host's sectors, and around them what the page holds now. */
    method HostPage(l: Addr, off: nat, data: PageData) returns (page: PageData)
      requires Base() && l.blk < g.D && l.off < g.P && (l in tbl.m ==> InLog(g, tbl.m[l]))
      requires 0 < |data| && off + |data| <= g.S == |View(l)|
      ensures page == Splice(View(l), off, data)
    {
      page := data;
      if |data| != g.S {
        var v, o := GetVpn(l);
        var held := Content(g.S, flash[v][o]);
        if off != 0 { page := held[..off] + page; }
        if off + |data| < g.S { page := page + held[off + |data|..]; }
      }
    }

    /** Lpn l leaves its old place: its hash entry goes, or its VC bit is set. */
    method LeaveOldPlace(l: Addr)
      requires HashOk()
      modifies `vc, tbl, tbl.nodes, tbl.heads
      ensures tbl.Valid() && tbl.nodes.Length == Capacity(g) && tbl.m == old(tbl.m) - {l} && vc == old(vc) + {l}
    {
      hide Ok, Capacity;
      if l in vc {
        tbl.Remove(l);
      } else {
        vc := vc + {l};
      }
    }

    /** Lpn l, out of its old place, is programmed at log address x, and the tables learn of it. */
    method SetDataLpnInLogBlk(l: Addr, x: Addr)
      requires tbl.Valid() && tbl.nodes.Length == Capacity(g) && l !in tbl.m && vc == tbl.m.Keys + {l}
      requires |tbl.m| < Capacity(g) && x.off < |misc.rwList|
      modifies `misc, tbl, tbl.nodes, tbl.heads
      ensures HashOk() && tbl.m == old(tbl.m)[l := x]
      ensures misc == old(misc).(rwList := if x.blk == SW_LOG_LBN then old(misc.rwList)
              else old(misc.rwList)[x.off := Some(l)])
    {
      hide Ok, Capacity;
      if x.blk != SW_LOG_LBN {
        misc := misc.(rwList := misc.rwList[x.off := Some(l)]);
      }
      tbl.Insert(l, x);
    }

    /** Lpn l leaves its old place and its new page is programmed at log address x. */
    method ProgramHostPage(l: Addr, x: Addr, p: Page)
      requires Base() && |tbl.m| < Capacity(g)
      requires x.blk < g.K && x.blk < |logPic| && x.off < |misc.rwList|
      requires x.off < |logPic[x.blk]| && BlankFrom(logPic[x.blk], x.off)
      modifies `flash, `logPic, `misc, `vc, tbl, tbl.nodes, tbl.heads
      ensures Base() && logPic == Put(old(logPic), x.blk, x.off, p) && tbl.m == old(tbl.m)[l := x]
      ensures misc == old(misc).(rwList := if x.blk == SW_LOG_LBN then old(misc.rwList)
              else old(misc.rwList)[x.off := Some(l)])
    {
      hide Ok, WellMapped, Capacity;
      ghost var hm := tbl.m;
      LeaveOldPlace(l);
      FewerKeys(hm, l);
      ProgramLogPage(x, p);
      SetDataLpnInLogBlk(l, x);
      assert (hm - {l})[l := x] == hm[l := x];
    }

    /** Lpn l is written at log address x, which the write pointers have moved on to. */
    method WriteAt(l: Addr, x: Addr, off: nat, data: PageData, ghost a: Pic)
      requires Base() && Targeted(g, a, Picture(), l, x) && l.blk < g.D && l.off < g.P
      requires 0 < |data| && off + |data| <= g.S && FullPages(g, a)
      modifies `flash, `logPic, `misc, `vc, tbl, tbl.nodes, tbl.heads
      ensures Base() && InvNow() && Spliced(g, a, Picture(), l, off, data) && FullPages(g, Picture())
      ensures misc == old(misc).(rwList := misc.rwList) && Control() == old(Control()).(hm := old(tbl.m)[l := x])
    {
      hide Inv, Ok, WellMapped, Capacity, ViewAt, Splice, HostWritten, Targeted, FullPages, Spliced;
      ghost var c := Picture();
      TargetEntries(g, a, c, l, x);
      FullAt(g, a, l);
      var page := HostPage(l, off, data);
      WriteOk(g, a, c, l, x, Written(page));
      SplicedFull(g, a, HostWritten(c, l, x, Written(page)), l, off, data);
      TargetRoom(g, a, c, l, x);
      ProgramHostPage(l, x, Written(page));
      WrittenParts(c, l, x, Written(page));
    }

    /** What write_to_log_block does when the page is written: merges, and the tuning of their intervals. */
    method MergeAfterWrite(x: Addr) returns (r: Outcome)
      requires Base() && freeCnt == FREE_BLK_PER_BANK && InvNow() && IcInside(g, Picture())
      modifies this, tbl, tbl.nodes, tbl.heads
      ensures r == AfterCtl(g, no, old(Control()), x.blk != 0, old(gcFlag)).0
      ensures r == Fine ==>
              Base() && freeCnt == FREE_BLK_PER_BANK && InvNow() && IcInside(g, Picture()) && misc.swOff + 1 < g.P
      ensures r == Fine ==> SameView(g, old(Picture()), Picture()) && misc.rwFree == old(misc.rwFree)
      ensures r == Fine ==> Control() == AfterCtl(g, no, old(Control()), x.blk != 0, old(gcFlag)).1
    {
      hide Inv, SameView, Ok, WellMapped, FullMergeCtl, SwMergedCtl, Tuned, TurnsBack, Stuck;
      ghost var a, c, gc := Picture(), Control(), gcFlag;
      SameViewRefl(g, a);
      SwPointers(g, a);
      CurBounds(g, a);
      r := Fine;
      if misc.swOff == g.P - 1 {
        SwitchMerge();
        gcFlag := true;
      }
      if !gcFlag {
        r := MakeProgress(x);
        if r != Fine { return; }
      }
      ghost var b := Picture();
      AdjustTuning();
      assert Picture() == b;
    }

    /** A progressive merge, when there are few free isolation blocks or it is time for one. */
    method MakeProgress(x: Addr) returns (r: Outcome)
      requires Base() && freeCnt == FREE_BLK_PER_BANK && InvNow() && IcInside(g, Picture()) && misc.swOff + 1 < g.P
      modifies this, tbl, tbl.nodes, tbl.heads
      ensures r == ProgressCtl(g, no, old(Control()), x.blk != 0).0
      ensures r == Fine ==>
              Base() && freeCnt == FREE_BLK_PER_BANK && InvNow() && IcInside(g, Picture()) && misc.swOff + 1 < g.P
      ensures r == Fine ==> SameView(g, old(Picture()), Picture()) && misc.rwFree == old(misc.rwFree)
      ensures r == Fine ==> Control() == ProgressCtl(g, no, old(Control()), x.blk != 0).1
    {
      hide Inv, SameView, Ok, WellMapped, FullMergeCtl, TurnsBack, Stuck;
      ghost var a, c := Picture(), Control();
      SameViewRefl(g, a);
      CurBounds(g, a);
      r := Fine;
      if misc.isolFree <= RESERV_ISOL_BLK {
        r := FullMerge();
        misc := misc.(tune := misc.tune.(inc := true));
      } else if g.ISOL - 1 > misc.isolFree && x.blk != SW_LOG_LBN {
        var trigger := misc.tune.trigger + 1;
        if trigger >= (misc.tune.interval + no) * 2 {
          r := FullMerge();
          trigger := 0;
        }
        misc := misc.(tune := misc.tune.(trigger := trigger));
      }
    }

    /** The self-tuning at the end of write_to_log_block. */
    method AdjustTuning()
      modifies `misc
      ensures misc == old(misc).(tune := Tuned(g, old(misc).tune, old(misc).isolFree))
    {
      var t := misc.tune;
      if t.writes >= Period(g) && misc.isolFree < g.ISOL {
        if t.base < 2 { t := t.(base := g.P / 4); }
        if misc.isolFree > g.ISOL - 2 {
          t := t.(interval := t.interval + 1);
        } else if t.inc {
          if t.base > 1 { t := t.(base := t.base - 1); }
          t := t.(interval := t.base, inc := false);
        }
        t := t.(writes := 0);
      }
      misc := misc.(tune := t);
    }

    /**
     write_to_log_block: sectors off.. of lpn l are overwritten with data, and everything else
     reads as before, whatever has been moved or merged meanwhile.  Whether it succeeds, and where
     the pages are afterwards, is decided by the control state before.
     */
    method WriteToLogBlock(l: Addr, off: nat, data: PageData) returns (r: Outcome)
      requires Valid() && l.blk < g.D && l.off < g.P
      requires 0 < |data| && off + |data| <= g.S
      modifies this, tbl, tbl.nodes, tbl.heads
      ensures r == WriteCtl(g, no, old(Control()), l).0
      ensures r == Fine ==> Valid() && Spliced(g, old(Picture()), Picture(), l, off, data)
      ensures r == Fine ==> Control() == WriteCtl(g, no, old(Control()), l).1
    {
      hide Inv, SameView, Ok, WellMapped, FullPages, Spliced, PrepareCtl, AfterCtl, ToRw, Collects, Targeted;
      gcFlag := false;
      ghost var a0, c := Picture(), Control();
      SameKind(g, c, c.tune.(writes := c.tune.writes + 1), l);
      misc := misc.(tune := misc.tune.(writes := misc.tune.writes + 1));
      var x;
      ghost var a;
      r, x, a := PrepareToNewWrite(l);
      if r != Fine { return; }
      SameFull(g, a0, a);
      WriteAt(l, x, off, data, a);
      ghost var b := Picture();
      r := MergeAfterWrite(x);
      SplicedSame(g, a, b, Picture(), l, off, data);
      SplicedAfter(g, a0, a, Picture(), l, off, data);
      SameFull(g, b, Picture());
    }

    /** One round of the loop of ftl_read: n sectors of lpn l, from sector off on. */
    method ReadSectors(l: Addr, off: nat, n: nat) returns (data: PageData)
      requires Valid() && l.blk < g.D && l.off < g.P && off + n <= g.S
      ensures |View(l)| == g.S && data == View(l)[off..off + n]
    {
      hide Inv, Ok, WellMapped;
      InvEntries(g, Picture());
      FullAt(g, Picture(), l);
      var v, o := GetVpn(l);
      if v * g.P + o != 0 {
        data := Content(g.S, flash[v][o])[off..off + n];
      } else {
        data := BlankData(n); // a page never written: the super block, which no table names
      }
    }
  }
}
