/**
 Each thing the FASTer FTL does to a bank, as a change of its picture, with the proof
 that the invariant survives and what becomes of the contents the host reads.
 */
module FasterSteps {
  import opened Common
  import opened Nand
  import opened FasterState

  // ----- programming a page in the log area and pointing an lpn at it -----

  /** Lpn l is written to the next page of the SW log block, whose block it belongs to. */
  ghost function SwWritten(a: Pic, l: Addr, p: Page): Pic
    requires 0 < |a.log| && l.off < |a.log[0]|
  {
    a.(log := Put(a.log, 0, l.off, p),
       hm := a.hm[l := Addr(0, l.off)],
       swOff := l.off, swLbn := Some(l.blk))
  }

  /** l is the lpn that belongs to the next page of the SW log block. */
  ghost predicate SwNext(g: Geo, a: Pic, l: Addr) {
    && l.blk < g.D && l.off < g.P
    && a.swOff + 1 == l.off
    && (a.swLbn.None? || a.swLbn == Some(l.blk))
  }

  lemma SwWrittenCore(g: Geo, a: Pic, l: Addr, p: Page)
    requires Core(g, a) && SwNext(g, a, l) && p.Written?
    ensures BlankFrom(a.log[0], l.off)
    ensures Core(g, SwWritten(a, l, p))
  {
    var a' := SwWritten(a, l, p);
    forall b | 1 <= b < g.K ensures RwBlock(g, a', b) { assert RwBlock(g, a, b); }
    forall i | 0 <= i < g.ISOL ensures IsBlock(g, a', i) { assert IsBlock(g, a, i); }
    forall o | 0 <= o <= a'.swOff ensures SwCovered(a', o) {
      assert o < l.off ==> SwCovered(a, o);
    }
    forall k | k in a'.hm ensures LocOk(g, a', k) {
      if k != l { assert LocOk(g, a, k); }
    }
  }

  lemma SwWrittenView(g: Geo, a: Pic, l: Addr, p: Page)
    requires Core(g, a) && SwNext(g, a, l) && p.Written?
    ensures var a' := SwWritten(a, l, p);
            && ViewAt(g, a', l) == p.sects
            && (forall k :: k != l ==> ViewAt(g, a', k) == ViewAt(g, a, k))
  {
    var a' := SwWritten(a, l, p);
    forall k | k != l ensures ViewAt(g, a', k) == ViewAt(g, a, k) {
      if k in a.hm { assert LocOk(g, a, k); }
    }
  }

  /** Lpn l is written to the next page of the current RW log block. */
  ghost function RwWritten(g: Geo, a: Pic, l: Addr, p: Page): Pic
    requires var x := Succ(g, a.rw);
             x.blk < |a.log| && x.off < |a.log[x.blk]| && x.off < |a.rwList|
  {
    var x := Succ(g, a.rw);
    a.(log := Put(a.log, x.blk, x.off, p),
       hm := a.hm[l := x],
       rw := x, rwList := a.rwList[x.off := Some(l)])
  }

  /** The current RW log block has a page left for data. */
  ghost predicate RwRoom(g: Geo, a: Pic) {
    a.phase.Idle? && 0 < a.rwFree && Succ(g, a.rw).off + 1 < g.P
  }

  lemma RwWrittenCore(g: Geo, a: Pic, l: Addr, p: Page)
    requires Core(g, a) && RwRoom(g, a) && p.Written? && l.blk < g.D && l.off < g.P
    ensures BlankFrom(a.log[Succ(g, a.rw).blk], Succ(g, a.rw).off)
    ensures Core(g, RwWritten(g, a, l, p))
  {
    var a' := RwWritten(g, a, l, p);
    var x := Succ(g, a.rw);
    assert RwBlock(g, a, x.blk);
    forall b | 1 <= b < g.K ensures RwBlock(g, a', b) { assert RwBlock(g, a, b); }
    forall i | 0 <= i < g.ISOL ensures IsBlock(g, a', i) { assert IsBlock(g, a, i); }
    forall o | 0 <= o <= a'.swOff ensures SwCovered(a', o) { assert SwCovered(a, o); }
    forall k | k in a'.hm ensures LocOk(g, a', k) {
      if k != l { assert LocOk(g, a, k); }
    }
  }

  lemma RwWrittenView(g: Geo, a: Pic, l: Addr, p: Page)
    requires Core(g, a) && RwRoom(g, a) && p.Written? && l.blk < g.D && l.off < g.P
    ensures var a' := RwWritten(g, a, l, p);
            && ViewAt(g, a', l) == p.sects
            && (forall k :: k != l ==> ViewAt(g, a', k) == ViewAt(g, a, k))
  {
    var a' := RwWritten(g, a, l, p);
    forall k | k != l ensures ViewAt(g, a', k) == ViewAt(g, a, k) {
      if k in a.hm { assert LocOk(g, a, k); }
    }
  }

  // ----- closing the current RW log block -----

  /** Its lpn list goes to its last page, and the next block becomes current. */
  ghost function RwClosed(g: Geo, a: Pic): Pic
    requires var b := Succ(g, a.rw).blk;
             b < |a.log| && 1 <= g.P <= |a.log[b]| && 0 < a.rwFree
  {
    var b := Succ(g, a.rw).blk;
    a.(log := Put(a.log, b, g.P - 1, LpnList(a.rwList)), rwFree := a.rwFree - 1, rw := Addr(b, g.P - 1))
  }

  lemma RwClosedCore(g: Geo, a: Pic)
    requires Core(g, a) && a.phase.Idle? && 0 < a.rwFree && Succ(g, a.rw).off == g.P - 1
    ensures BlankFrom(a.log[Succ(g, a.rw).blk], g.P - 1)
    ensures Core(g, RwClosed(g, a)) && SameView(g, a, RwClosed(g, a))
  {
    var a' := RwClosed(g, a);
    var w := Succ(g, a.rw).blk;
    assert RwBlock(g, a, w);
    forall b | 1 <= b < g.K ensures RwBlock(g, a', b) { assert RwBlock(g, a, b); }
    forall i | 0 <= i < g.ISOL ensures IsBlock(g, a', i) { assert IsBlock(g, a, i); }
    forall o | 0 <= o <= a'.swOff ensures SwCovered(a', o) { assert SwCovered(a, o); }
    forall k | k in a'.hm ensures LocOk(g, a', k) && ViewAt(g, a', k) == ViewAt(g, a, k) {
      assert LocOk(g, a, k);
    }
  }

  /** While every RW log block is full, the RW write pointer means nothing. */
  lemma RwMovedCore(g: Geo, a: Pic, x: Addr, list: seq<Option<Addr>>)
    requires Core(g, a) && a.phase.Idle? && a.rwFree == 0 && x.blk < g.K && x.off < g.P && |list| == g.P
    ensures Core(g, a.(rw := x, rwList := list))
  {
    var a' := a.(rw := x, rwList := list);
    forall b | 1 <= b < g.K ensures RwBlock(g, a', b) { assert RwBlock(g, a, b); }
    forall i | 0 <= i < g.ISOL ensures IsBlock(g, a', i) { assert IsBlock(g, a, i); }
    forall o | 0 <= o <= a'.swOff ensures SwCovered(a', o) { assert SwCovered(a, o); }
    forall k | k in a'.hm ensures LocOk(g, a', k) { assert LocOk(g, a, k); }
  }

  // ----- merges -----

  /**
   The entries left when a merge of data block L has looked at its first n pages: it drops
   those of pages from s on, and those that sit in the SW log block.
   */
  ghost function Keep(hm: map<Addr, Addr>, L: nat, s: int, n: nat): map<Addr, Addr> {
    map l | l in hm && !(l.blk == L && l.off < n && (s <= l.off || hm[l].blk == 0)) :: hm[l]
  }

  lemma KeepStart(hm: map<Addr, Addr>, L: nat, s: int)
    ensures Keep(hm, L, s, 0) == hm
  {
  }

  lemma KeepSub(hm: map<Addr, Addr>, L: nat, s: int, n: nat)
    ensures forall l :: l in Keep(hm, L, s, n) ==> l in hm && Keep(hm, L, s, n)[l] == hm[l]
  {
  }

  lemma KeepNext(hm: map<Addr, Addr>, L: nat, s: int, n: nat)
    ensures var l, k := Addr(L, n), Keep(hm, L, s, n);
            && (l in k <==> l in hm) && (l in hm ==> k[l] == hm[l])
            && Keep(hm, L, s, n + 1) == if l in hm && (s <= n || hm[l].blk == 0) then k - {l} else k
  {
  }

  /**
   hm' forgets entries of data block L only, and every page of L it does not cover any
   more has its contents in the new data block nb.
   */
  ghost predicate Foldable(g: Geo, a: Pic, L: nat, hm': map<Addr, Addr>, nb: Block) {
    && L < g.D && |nb| == g.P
    && (forall l :: l in hm' ==> l in a.hm && hm'[l] == a.hm[l])
    && (forall l :: l in a.hm && l.blk != L ==> l in hm')
    && (forall o {:trigger nb[o]} :: 0 <= o < g.P && Addr(L, o) !in hm' ==>
      Content(g.S, nb[o]) == ViewAt(g, a, Addr(L, o)))
  }

  /** A full merge of data block L. */
  ghost function Folded(a: Pic, L: nat, hm': map<Addr, Addr>, nb: Block): Pic
    requires L < |a.data|
  {
    a.(data := a.data[L := nb], hm := hm')
  }

  lemma FoldedCore(g: Geo, a: Pic, L: nat, hm': map<Addr, Addr>, nb: Block)
    requires Core(g, a) && Foldable(g, a, L, hm', nb)
    requires a.swLbn != Some(L)
    ensures Core(g, Folded(a, L, hm', nb))
  {
    var a' := Folded(a, L, hm', nb);
    forall b | 1 <= b < g.K ensures RwBlock(g, a', b) { assert RwBlock(g, a, b); }
    forall i | 0 <= i < g.ISOL ensures IsBlock(g, a', i) { assert IsBlock(g, a, i); }
    forall o | 0 <= o <= a'.swOff ensures SwCovered(a', o) { assert SwCovered(a, o); }
    forall k | k in a'.hm ensures LocOk(g, a', k) { assert LocOk(g, a, k); }
  }

  lemma FoldedView(g: Geo, a: Pic, L: nat, hm': map<Addr, Addr>, nb: Block)
    requires Core(g, a) && Foldable(g, a, L, hm', nb)
    ensures SameView(g, a, Folded(a, L, hm', nb))
  {
    var a' := Folded(a, L, hm', nb);
    forall k ensures ViewAt(g, a', k) == ViewAt(g, a, k) {
      if k in a.hm { assert LocOk(g, a, k); }
      if k.blk == L && k.off < g.P { assert k == Addr(L, k.off) && Content(g.S, nb[k.off]) == Content(g.S, nb[k.off]); }
    }
  }

  /** The SW log block becomes data block L and gives way to an erased one. */
  ghost function SwGone(g: Geo, a: Pic, L: nat): Pic
    requires L < |a.data| && 0 < |a.log|
  {
    a.(data := a.data[L := a.log[0]], log := a.log[0 := ErasedBlock(g.P)], swOff := -1, swLbn := None)
  }

  /** A switch or partial merge, after which the SW log block is nb and hm' the entries left. */
  ghost function SwFolded(g: Geo, a: Pic, L: nat, hm': map<Addr, Addr>, nb: Block): Pic
    requires L < |a.data| && 0 < |a.log|
  {
    SwGone(g, a.(log := a.log[0 := nb], hm := hm'), L)
  }

  lemma SwFoldedCore(g: Geo, a: Pic, L: nat, hm': map<Addr, Addr>, nb: Block)
    requires Core(g, a) && Foldable(g, a, L, hm', nb)
    requires forall l :: l in hm' ==> hm'[l].blk != 0
    ensures Core(g, SwFolded(g, a, L, hm', nb))
  {
    var a' := SwFolded(g, a, L, hm', nb);
    forall b | 1 <= b < g.K ensures RwBlock(g, a', b) { assert RwBlock(g, a, b); }
    forall i | 0 <= i < g.ISOL ensures IsBlock(g, a', i) { assert IsBlock(g, a, i); }
    forall k | k in a'.hm ensures LocOk(g, a', k) { assert LocOk(g, a, k); }
  }

  lemma SwFoldedView(g: Geo, a: Pic, L: nat, hm': map<Addr, Addr>, nb: Block)
    requires Core(g, a) && Foldable(g, a, L, hm', nb)
    requires forall l :: l in hm' ==> hm'[l].blk != 0
    ensures SameView(g, a, SwFolded(g, a, L, hm', nb))
  {
    FoldedView(g, a, L, hm', nb);
    forall k ensures ViewAt(g, SwFolded(g, a, L, hm', nb), k) == ViewAt(g, a, k) {
      assert ViewAt(g, Folded(a, L, hm', nb), k) == ViewAt(g, a, k);
    }
  }

  /**
   A switch or partial merge that has looked at all pages of data block L: pages below s of
   the new block nb are those of the SW log block, the others hold what the host reads there.
   */
  lemma SwMerged(g: Geo, a: Pic, L: nat, s: nat, nb: Block)
    requires Core(g, a) && a.swLbn == Some(L) && a.swOff + 1 == s <= g.P && |nb| == g.P
    requires forall o :: 0 <= o < s ==> nb[o] == a.log[0][o]
    requires forall o {:trigger nb[o]} :: s <= o < g.P ==> Content(g.S, nb[o]) == ViewAt(g, a, Addr(L, o))
    ensures var a' := SwFolded(g, a, L, Keep(a.hm, L, s, g.P), nb);
            Core(g, a') && SameView(g, a, a') && (Behind(g, a) ==> Behind(g, a'))
  {
    var hm' := Keep(a.hm, L, s, g.P);
    forall o | 0 <= o < g.P && Addr(L, o) !in hm'
      ensures Content(g.S, nb[o]) == ViewAt(g, a, Addr(L, o))
    {
      if o < s {
        assert SwCovered(a, o) && LocOk(g, a, Addr(L, o));
      }
    }
    forall l | l in hm' ensures hm'[l].blk != 0 { assert LocOk(g, a, l); }
    SwFoldedCore(g, a, L, hm', nb);
    SwFoldedView(g, a, L, hm', nb);
    if Behind(g, a) {
      forall l ensures NotBehind(g, SwFolded(g, a, L, hm', nb), l) { assert NotBehind(g, a, l); }
    }
  }

  /** A switch merge finds every page of the data block in the log, and loses none. */
  lemma SwFull(g: Geo, a: Pic)
    requires Inv(g, a) && a.swOff == g.P - 1
    ensures a.swLbn.Some? && a.swLbn.value < g.D && |a.data| == g.D && 0 < |a.log|
    ensures forall o :: 0 <= o < g.P ==> Addr(a.swLbn.value, o) in a.hm
    ensures var a' := SwGone(g, a.(hm := Keep(a.hm, a.swLbn.value, g.P, g.P)), a.swLbn.value);
            Inv(g, a') && SameView(g, a, a')
  {
    assert a.log[0 := a.log[0]] == a.log;
    forall o | 0 <= o < g.P ensures Addr(a.swLbn.value, o) in a.hm { assert SwCovered(a, o); }
    SwMerged(g, a, a.swLbn.value, g.P, a.log[0]);
  }

  /** What a merge relies on when it looks for the pages of a data block. */
  lemma EntriesInLog(g: Geo, a: Pic)
    ensures Core(g, a) ==> forall l :: l in a.hm ==>
              l.blk < g.D && l.off < g.P && InLog(g, a.hm[l]) && (a.hm[l].blk == 0 ==> l.off <= a.swOff)
    ensures Core(g, a) && a.swLbn.Some? ==>
              && 0 <= a.swOff && a.swLbn.value < g.D && |a.data| == g.D && 0 < |a.log| && |a.log[0]| == g.P
              && BlankFrom(a.log[0], a.swOff + 1)
  {
    if Core(g, a) {
      forall l | l in a.hm
        ensures l.blk < g.D && l.off < g.P && InLog(g, a.hm[l]) && (a.hm[l].blk == 0 ==> l.off <= a.swOff)
      {
        assert LocOk(g, a, l);
      }
    }
  }

  /** The new data block that a merge of data block L builds, pages below s having been there already. */
  ghost predicate MergedBlock(g: Geo, a: Pic, L: nat, s: int, nb: Block) {
    && |nb| == g.P
    && (forall o :: 0 <= o < s && o < g.P ==> nb[o] == PageAt(a.log, 0, o))
    && (forall o {:trigger nb[o]} :: 0 <= o < g.P && s <= o ==> nb[o] == Written(ViewAt(g, a, Addr(L, o))))
  }

  lemma PartialMerged(g: Geo, a: Pic, L: nat, nb: Block)
    ensures Core(g, a) && a.swLbn == Some(L) && MergedBlock(g, a, L, a.swOff + 1, nb) ==>
              && L < |a.data| && 0 < |a.log|
              && var a' := SwFolded(g, a, L, Keep(a.hm, L, a.swOff + 1, g.P), nb);
                 Core(g, a') && SameView(g, a, a') && (Behind(g, a) ==> Behind(g, a'))
  {
    if Core(g, a) && a.swLbn == Some(L) && MergedBlock(g, a, L, a.swOff + 1, nb) {
      SwMerged(g, a, L, a.swOff + 1, nb);
    }
  }

  /** The same for a full merge of a block the SW log block does not serve. */
  lemma FullMerged(g: Geo, a: Pic, L: nat, nb: Block)
    requires Core(g, a) && a.swLbn != Some(L) && L < g.D && |nb| == g.P
    requires forall o {:trigger nb[o]} :: 0 <= o < g.P ==> Content(g.S, nb[o]) == ViewAt(g, a, Addr(L, o))
    ensures var a' := Folded(a, L, Keep(a.hm, L, 0, g.P), nb);
            Core(g, a') && SameView(g, a, a')
  {
    var hm' := Keep(a.hm, L, 0, g.P);
    FoldedCore(g, a, L, hm', nb);
    FoldedView(g, a, L, hm', nb);
  }

  // ----- the isolation area -----

  /** The current isolation block gets its lpn list and the next one becomes current. */
  ghost function IsolClosed(g: Geo, a: Pic): Pic
    requires var b := Cur(g, a).blk;
             b < |a.isol| && 1 <= g.P <= |a.isol[b]| && 0 < a.isolFree
  {
    var b := Cur(g, a).blk;
    a.(isol := Put(a.isol, b, g.P - 1, LpnList(a.isList)), ic := Some(Addr(b, g.P - 1)), isolFree := a.isolFree - 1)
  }

  lemma IsolClosedCore(g: Geo, a: Pic)
    requires Core(g, a) && Cur(g, a).off == g.P - 1 && 2 <= a.isolFree
    ensures BlankFrom(a.isol[Cur(g, a).blk], g.P - 1)
    ensures Core(g, IsolClosed(g, a)) && SameView(g, a, IsolClosed(g, a))
  {
    var a' := IsolClosed(g, a);
    assert IsBlock(g, a, Cur(g, a).blk);
    forall b | 1 <= b < g.K ensures RwBlock(g, a', b) { assert RwBlock(g, a, b); }
    forall i | 0 <= i < g.ISOL ensures IsBlock(g, a', i) { assert IsBlock(g, a, i); }
    forall o | 0 <= o <= a'.swOff ensures SwCovered(a', o) { assert SwCovered(a, o); }
    forall k | k in a'.hm ensures LocOk(g, a', k) && ViewAt(g, a', k) == ViewAt(g, a, k) { IsolClosedLoc(g, a, k); }
  }

  lemma IsolClosedLoc(g: Geo, a: Pic, k: Addr)
    requires Core(g, a) && Cur(g, a).off == g.P - 1 && 2 <= a.isolFree && k in a.hm
    ensures LocOk(g, IsolClosed(g, a), k) && ViewAt(g, IsolClosed(g, a), k) == ViewAt(g, a, k)
  {
    assert IsBlock(g, a, Cur(g, a).blk) && LocOk(g, a, k);
  }

  /** Lpn l moves to the next page of the isolation area. */
  ghost function IsolMoved(g: Geo, a: Pic, l: Addr, p: Page): Pic
    requires var x := Cur(g, a);
             x.blk < |a.isol| && x.off < |a.isol[x.blk]| && x.off < |a.isList|
  {
    var x := Cur(g, a);
    a.(isol := Put(a.isol, x.blk, x.off, p),
       hm := a.hm[l := Addr(g.LOG + x.blk, x.off)],
       ic := Some(x), isList := a.isList[x.off := Some(l)])
  }

  lemma IsolMovedCore(g: Geo, a: Pic, l: Addr, p: Page)
    requires Core(g, a) && Cur(g, a).off + 1 < g.P && l in a.hm && p.Written?
    ensures BlankFrom(a.isol[Cur(g, a).blk], Cur(g, a).off)
    ensures Core(g, IsolMoved(g, a, l, p))
  {
    var a' := IsolMoved(g, a, l, p);
    assert IsBlock(g, a, Cur(g, a).blk);
    forall b | 1 <= b < g.K ensures RwBlock(g, a', b) { assert RwBlock(g, a, b); }
    forall i | 0 <= i < g.ISOL ensures IsBlock(g, a', i) { assert IsBlock(g, a, i); }
    forall o | 0 <= o <= a'.swOff ensures SwCovered(a', o) { assert SwCovered(a, o); }
    forall k | k in a'.hm ensures LocOk(g, a', k) { IsolMovedLoc(g, a, l, p, k); }
  }

  lemma IsolMovedLoc(g: Geo, a: Pic, l: Addr, p: Page, k: Addr)
    requires Core(g, a) && Cur(g, a).off + 1 < g.P && l in a.hm && p.Written?
    requires k in a.hm
    ensures LocOk(g, IsolMoved(g, a, l, p), k)
  {
    assert LocOk(g, a, k) && IsBlock(g, a, Cur(g, a).blk);
  }

  lemma IsolMovedView(g: Geo, a: Pic, l: Addr, p: Page)
    requires Core(g, a) && Cur(g, a).off + 1 < g.P && l in a.hm && p.Written?
    requires p.sects == ViewAt(g, a, l)
    ensures SameView(g, a, IsolMoved(g, a, l, p))
    ensures Behind(g, a) ==> Behind(g, IsolMoved(g, a, l, p))
  {
    var a' := IsolMoved(g, a, l, p);
    forall k ensures ViewAt(g, a', k) == ViewAt(g, a, k) {
      if k in a.hm { assert LocOk(g, a, k); }
    }
    if Behind(g, a) {
      forall k ensures NotBehind(g, a', k) { assert NotBehind(g, a, k); }
    }
  }

  // ----- garbage collection of a full RW log block -----

  ghost function GcStarted(a: Pic, b: nat, list: seq<Option<Addr>>): Pic {
    a.(rwList := list, phase := Collecting(b, 0, 0))
  }

  lemma GcStartedCore(g: Geo, a: Pic, b: nat, list: seq<Option<Addr>>)
    requires Core(g, a) && a.phase.Idle? && a.rwFree == 0 && 1 <= b < g.K && |list| == g.P
    requires forall l :: l in a.hm && a.hm[l].blk == b ==> a.hm[l].off < g.P && list[a.hm[l].off] == Some(l)
    ensures Core(g, GcStarted(a, b, list)) && SameView(g, a, GcStarted(a, b, list))
  {
    var a' := GcStarted(a, b, list);
    forall c | 1 <= c < g.K ensures RwBlock(g, a', c) { assert RwBlock(g, a, c); }
    forall i | 0 <= i < g.ISOL ensures IsBlock(g, a', i) { assert IsBlock(g, a, i); }
    forall o | 0 <= o <= a'.swOff ensures SwCovered(a', o) { assert SwCovered(a, o); }
    forall k | k in a'.hm ensures LocOk(g, a', k) { assert LocOk(g, a, k); }
  }

  /** The live page o of the victim becomes page f of its replacement. */
  ghost function GcKept(a: Pic, l: Addr, p: Page): Pic
    requires a.phase.Collecting?
    requires a.phase.b < |a.log| && a.phase.f < |a.log[a.phase.b]| && a.phase.f < |a.rwList|
  {
    var Collecting(b, f, o) := a.phase;
    a.(log := Put(a.log, b, f, p), hm := a.hm[l := Addr(b, f)],
       rwList := a.rwList[f := Some(l)], phase := Collecting(b, f + 1, o + 1))
  }

  ghost predicate GcAt(g: Geo, a: Pic, l: Addr) {
    && a.phase.Collecting? && a.phase.o + 1 < g.P
    && l in a.hm && a.hm[l] == Addr(a.phase.b, a.phase.o)
  }

  lemma GcKeptCore(g: Geo, a: Pic, l: Addr, p: Page)
    requires Core(g, a) && GcAt(g, a, l) && p.Written? && p.sects == ViewAt(g, a, l)
    ensures Core(g, GcKept(a, l, p)) && SameView(g, a, GcKept(a, l, p))
  {
    var a' := GcKept(a, l, p);
    assert LocOk(g, a, l);
    forall c | 1 <= c < g.K ensures RwBlock(g, a', c) { assert RwBlock(g, a, c); }
    forall i | 0 <= i < g.ISOL ensures IsBlock(g, a', i) { assert IsBlock(g, a, i); }
    forall q | 0 <= q <= a'.swOff ensures SwCovered(a', q) { assert SwCovered(a, q); }
    forall k | k in a'.hm ensures LocOk(g, a', k) && ViewAt(g, a', k) == ViewAt(g, a, k) {
      assert LocOk(g, a, k);
    }
  }

  /** Page o of the victim is not live, or not live any more. */
  ghost function GcSkipped(a: Pic): Pic
    requires a.phase.Collecting?
  {
    a.(phase := a.phase.(o := a.phase.o + 1))
  }

  lemma GcSkippedCore(g: Geo, a: Pic)
    requires Core(g, a) && a.phase.Collecting? && a.phase.o + 1 < g.P
    requires var l := a.rwList[a.phase.o];
             l.None? || l.value !in a.hm || a.hm[l.value] != Addr(a.phase.b, a.phase.o)
    ensures Core(g, GcSkipped(a)) && SameView(g, a, GcSkipped(a))
  {
    var a' := GcSkipped(a);
    forall c | 1 <= c < g.K ensures RwBlock(g, a', c) { assert RwBlock(g, a, c); }
    forall i | 0 <= i < g.ISOL ensures IsBlock(g, a', i) { assert IsBlock(g, a, i); }
    forall q | 0 <= q <= a'.swOff ensures SwCovered(a', q) { assert SwCovered(a, q); }
    forall k | k in a'.hm ensures LocOk(g, a', k) { assert LocOk(g, a, k); }
  }

  function Pred(g: Geo, x: Addr): Addr
    requires x.off == 0 ==> 0 < x.blk && 0 < g.P
  {
    if x.off == 0 then Addr(x.blk - 1, g.P - 1) else Addr(x.blk, x.off - 1)
  }

  /** The replacement nb takes the victim's place and is written on from page f. */
  ghost function GcEnded(g: Geo, a: Pic, nb: Block): Pic
    requires a.phase.Collecting? && 0 < a.phase.b < |a.log| && 0 < g.P
  {
    var Collecting(b, f, o) := a.phase;
    a.(log := a.log[b := nb], rwFree := 1, rw := Pred(g, Addr(b, f)), phase := Idle)
  }

  lemma GcEndedCore(g: Geo, a: Pic, nb: Block)
    requires Core(g, a) && a.phase.Collecting? && a.phase.o == g.P - 1 && a.phase.f + 1 < g.P
    requires |nb| == g.P && nb[..a.phase.f] == a.log[a.phase.b][..a.phase.f] && BlankFrom(nb, a.phase.f)
    ensures Core(g, GcEnded(g, a, nb)) && SameView(g, a, GcEnded(g, a, nb))
  {
    var a' := GcEnded(g, a, nb);
    var b := a.phase.b;
    assert forall q :: 0 <= q < a.phase.f ==> nb[q] == a.log[b][..a.phase.f][q];
    forall c | 1 <= c < g.K ensures RwBlock(g, a', c) { assert RwBlock(g, a, c); }
    forall i | 0 <= i < g.ISOL ensures IsBlock(g, a', i) { assert IsBlock(g, a, i); }
    forall q | 0 <= q <= a'.swOff ensures SwCovered(a', q) { assert SwCovered(a, q); }
    forall k | k in a'.hm ensures LocOk(g, a', k) && ViewAt(g, a', k) == ViewAt(g, a, k) {
      assert LocOk(g, a, k);
    }
  }

  // ----- the victim pointer of the isolation area -----

  /** The victim pointer moves one page on; at the start of a block its lpn list is loaded. */
  ghost function VtMoved(g: Geo, a: Pic): Pic
    requires 0 < |a.isol|
  {
    var v := Vt(g, a);
    a.(iv := Some(v),
       vtList := if v.off == 0 && v.blk < |a.isol| &&
         Closed(a.isol[v.blk]) then a.isol[v.blk][|a.isol[v.blk]| - 1].lpns else a.vtList)
  }

  lemma VtMovedCore(g: Geo, a: Pic)
    requires Core(g, a) && a.isolFree < g.ISOL && Vt(g, a).off + 1 < g.P
    ensures Closed(a.isol[Vt(g, a).blk])
    ensures Core(g, VtMoved(g, a)) && SameView(g, a, VtMoved(g, a))
    // only the listed lpn can be live at the page passed
    ensures forall l :: l in a.hm && a.hm[l] == Addr(g.LOG + Vt(g, a).blk, Vt(g, a).off) ==>
              VtMoved(g, a).vtList[Vt(g, a).off] == Some(l)
  {
    var a' := VtMoved(g, a);
    assert IsBlock(g, a, Vt(g, a).blk);
    forall c | 1 <= c < g.K ensures RwBlock(g, a', c) { assert RwBlock(g, a, c); }
    forall i | 0 <= i < g.ISOL ensures IsBlock(g, a', i) { assert IsBlock(g, a, i); }
    forall q | 0 <= q <= a'.swOff ensures SwCovered(a', q) { assert SwCovered(a, q); }
    forall k | k in a'.hm ensures LocOk(g, a', k) { assert LocOk(g, a, k); }
    forall k | k in a.hm && a.hm[k] == Addr(g.LOG + Vt(g, a).blk, Vt(g, a).off)
      ensures a'.vtList[Vt(g, a).off] == Some(k) { assert LocOk(g, a, k); }
  }

  /** The victim block has been passed to its last data page: it is erased and free again. */
  ghost function Recycled(g: Geo, a: Pic): Pic
    requires Vt(g, a).blk < |a.isol|
  {
    var v := Vt(g, a);
    a.(isol := a.isol[v.blk := ErasedBlock(g.P)], iv := Some(v), isolFree := a.isolFree + 1)
  }

  lemma RecycledInv(g: Geo, a: Pic)
    requires Core(g, a) && Behind(g, a) && a.isolFree < g.ISOL && Vt(g, a).off + 1 == g.P
    ensures Inv(g, Recycled(g, a))
  {
    var a' := Recycled(g, a);
    NoneBehind(g, a);
    forall c | 1 <= c < g.K ensures RwBlock(g, a', c) { assert RwBlock(g, a, c); }
    forall i | 0 <= i < g.ISOL ensures IsBlock(g, a', i) { assert IsBlock(g, a, i); }
    forall q | 0 <= q <= a'.swOff ensures SwCovered(a', q) { assert SwCovered(a, q); }
    forall k | k in a'.hm ensures LocOk(g, a', k) { RecycledLoc(g, a, k); }
    forall k ensures NotBehind(g, a', k) { RecycledNotBehind(g, a, k); }
  }

  lemma RecycledLoc(g: Geo, a: Pic, k: Addr)
    requires Core(g, a) && Behind(g, a) && a.isolFree < g.ISOL && Vt(g, a).off + 1 == g.P && k in a.hm
    ensures LocOk(g, Recycled(g, a), k)
  {
    NoneBehind(g, a);
    assert LocOk(g, a, k);
  }

  /** Erase safety: a block passed to its last data page holds nobody's current page. */
  lemma NoneBehind(g: Geo, a: Pic)
    requires Core(g, a) && Behind(g, a) && Vt(g, a).off + 1 == g.P
    ensures forall l :: l in a.hm ==> a.hm[l].blk != g.LOG + Vt(g, a).blk
  {
    forall k | k in a.hm ensures a.hm[k].blk != g.LOG + Vt(g, a).blk {
      assert LocOk(g, a, k) && NotBehind(g, a, k);
    }
  }

  lemma RecycledNotBehind(g: Geo, a: Pic, k: Addr)
    requires Core(g, a) && a.isolFree < g.ISOL && Vt(g, a).off + 1 == g.P
    ensures NotBehind(g, Recycled(g, a), k)
  {
  }

  lemma RecycledView(g: Geo, a: Pic)
    requires Core(g, a) && Behind(g, a) && Vt(g, a).off + 1 == g.P
    ensures SameView(g, a, Recycled(g, a))
  {
    NoneBehind(g, a);
    forall k ensures ViewAt(g, Recycled(g, a), k) == ViewAt(g, a, k) {
      if k in a.hm { assert LocOk(g, a, k); }
    }
  }

  lemma RecycledOk(g: Geo, a: Pic)
    requires Inv(g, a) && a.isolFree < g.ISOL && Vt(g, a).off + 1 == g.P
    ensures a.iv.Some? && a.iv.value.blk < g.ISOL && Vt(g, a).blk == a.iv.value.blk && a.iv.value.blk < |a.isol|
    ensures Inv(g, Recycled(g, a)) && SameView(g, a, Recycled(g, a))
  {
    RecycledInv(g, a);
    RecycledView(g, a);
  }

  // ----- the victim search of a full merge -----

  /** No entry but that of k points behind the victim pointer. */
  ghost predicate BehindBut(g: Geo, a: Pic, k: Option<Addr>) {
    forall l {:trigger NotBehind(g, a, l)} :: Some(l) != k ==> NotBehind(g, a, l)
  }

  /** The lpn, if any, whose current page is the next victim page. */
  ghost predicate VictimIs(g: Geo, a: Pic, k: Option<Addr>) {
    var x := Addr(g.LOG + Vt(g, a).blk, Vt(g, a).off);
    if k.Some? then k.value in a.hm && a.hm[k.value] == x
    else forall l :: l in a.hm ==> a.hm[l] != x
  }

  /** Moving the victim pointer onto a page that is dead, or live for lpn k. */
  lemma VictimPassed(g: Geo, a: Pic, k: Option<Addr>)
    requires 0 < |a.isol|
    ensures Inv(g, a) && a.isolFree < g.ISOL && Vt(g, a).off + 1 < g.P && VictimIs(g, a, k) ==>
              Core(g, VtMoved(g, a)) && SameView(g, a, VtMoved(g, a)) && BehindBut(g, VtMoved(g, a), k)
  {
    if Inv(g, a) && a.isolFree < g.ISOL && Vt(g, a).off + 1 < g.P && VictimIs(g, a, k) {
      VtMovedCore(g, a);
      forall l | Some(l) != k ensures NotBehind(g, VtMoved(g, a), l) { assert NotBehind(g, a, l); }
    }
  }

  lemma NothingBut(g: Geo, a: Pic)
    ensures Core(g, a) && BehindBut(g, a, None) ==> Inv(g, a)
  {
    if Core(g, a) && BehindBut(g, a, None) {
      forall l ensures NotBehind(g, a, l) {}
    }
  }

  lemma SameViewTrans(g: Geo, a: Pic, b: Pic, c: Pic)
    ensures SameView(g, a, b) && SameView(g, b, c) ==> SameView(g, a, c)
  {
  }

  /** What the host reads depends on the blocks and the hash table only. */
  lemma ViewOfBlocks(g: Geo, a: Pic, b: Pic)
    ensures a.data == b.data && a.log == b.log && a.isol == b.isol && a.hm == b.hm ==> SameView(g, a, b)
  {
  }

  /** What the search reads: the list of the victim block, and where its list page is. */
  lemma VictimListed(g: Geo, a: Pic)
    requires Inv(g, a) && a.isolFree < g.ISOL
    ensures var v := Vt(g, a);
            && v.blk < g.ISOL && v.blk < |a.isol| && v.off < g.P
            && |a.isol[v.blk]| == g.P && Closed(a.isol[v.blk])
            && |VtMoved(g, a).vtList| == g.P
    ensures IcInside(g, a) ==> a.ic.Some? ==> a.ic.value.blk != Vt(g, a).blk
    ensures Vt(g, a).off + 1 < g.P ==>
              forall l :: l in a.hm && a.hm[l] == Addr(g.LOG + Vt(g, a).blk, Vt(g, a).off) ==>
                VtMoved(g, a).vtList[Vt(g, a).off] == Some(l)
  {
    assert IsBlock(g, a, Vt(g, a).blk);
    if Vt(g, a).off + 1 < g.P { VtMovedCore(g, a); }
  }

  /** A full merge forgets the entries of block L, and with them the one behind the victim pointer. */
  lemma VictimMerged(g: Geo, a: Pic, L: nat, nb: Block, k: Addr)
    ensures Core(g, a) && a.swLbn != Some(L) && L < g.D && MergedBlock(g, a, L, 0, nb) && BehindBut(g, a, Some(k)) &&
            k.blk == L ==>
              && L < |a.data|
              && var a' := Folded(a, L, Keep(a.hm, L, 0, g.P), nb);
                 Inv(g, a') && SameView(g, a, a')
  {
    if Core(g, a) && a.swLbn != Some(L) && L < g.D && MergedBlock(g, a, L, 0, nb) && BehindBut(g, a, Some(k)) &&
      k.blk == L {
      FullMerged(g, a, L, nb);
      var a' := Folded(a, L, Keep(a.hm, L, 0, g.P), nb);
      forall l ensures NotBehind(g, a', l) {
        if l == k {
          if k in a.hm { assert LocOk(g, a, k); }
        } else {
          assert NotBehind(g, a, l);
        }
      }
    }
  }

  /** A partial merge only forgets entries. */
  lemma StillBehindBut(g: Geo, a: Pic, a': Pic, k: Option<Addr>)
    ensures BehindBut(g, a, k) && a'.iv == a.iv && (forall l :: l in a'.hm ==> l in a.hm && a'.hm[l] == a.hm[l]) ==>
            BehindBut(g, a', k)
  {
    if BehindBut(g, a, k) && a'.iv == a.iv && (forall l :: l in a'.hm ==> l in a.hm && a'.hm[l] == a.hm[l]) {
      forall l | Some(l) != k ensures NotBehind(g, a', l) { assert NotBehind(g, a, l); }
    }
  }

  /** An lpn whose entry is not behind the pointer needs no exception. */
  lemma NoneBut(g: Geo, a: Pic, k: Addr)
    ensures Core(g, a) && BehindBut(g, a, Some(k)) && NotBehind(g, a, k) ==> Inv(g, a)
  {
    if Core(g, a) && BehindBut(g, a, Some(k)) && NotBehind(g, a, k) {
      forall l ensures NotBehind(g, a, l) {}
    }
  }
}
