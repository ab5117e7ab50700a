/** What the greedy FTL does to a bank, step by step, and what each step keeps. */
module GreedySteps {
  import opened Common
  import Nand
  import opened GreedyState

  // ----- a host write -----

  /** Lpn l is programmed at the next page of the current block. */
  ghost function HostWritten(d: Dim, a: Pic, l: nat, p: Page): Pic
    requires a.blk < |a.flash| && a.w < |a.flash[a.blk]| && l < |a.pmap| && a.w < |a.list| && a.blk < |a.vc|
    requires a.pmap[l].Some? ==> a.pmap[l].value.blk < |a.vc| && 0 < a.vc[a.pmap[l].value.blk]
  {
    var x := Addr(a.blk, a.w);
    var vc := if a.pmap[l].Some? then a.vc[a.pmap[l].value.blk := a.vc[a.pmap[l].value.blk] - 1] else a.vc;
    a.(flash := Put(a.flash, x, p), pmap := a.pmap[l := Some(x)], vc := vc[a.blk := vc[a.blk] + 1],
       list := a.list[a.w := Lpn(d.no, l)], w := a.w + 1)
  }

  /** The current block has a data page left, and the write pointer is on it. */
  ghost predicate Targeted(d: Dim, a: Pic) {
    Inv(d, a) && a.blk < |a.flash| && !Closed(a.flash[a.blk]) && a.w + 1 < d.P
  }

  lemma CountsAfterWrite(d: Dim, a: Pic, l: nat, b: nat)
    requires l < |a.pmap| && b < d.V
    ensures var pmap := a.pmap[l := Some(Addr(a.blk, a.w))];
            && (b == a.blk && l !in LiveIn(a.pmap, b) ==> |LiveIn(pmap, b)| == |LiveIn(a.pmap, b)| + 1)
            && (b != a.blk && l in LiveIn(a.pmap, b) ==> |LiveIn(pmap, b)| + 1 == |LiveIn(a.pmap, b)|)
            && ((b == a.blk) == (l in LiveIn(a.pmap, b)) ==> |LiveIn(pmap, b)| == |LiveIn(a.pmap, b)|)
  {
    var pmap := a.pmap[l := Some(Addr(a.blk, a.w))];
    var rest := LiveIn(a.pmap, b) - {l};
    assert LiveIn(pmap, b) == if b == a.blk then rest + {l} else rest;
  }

  /** The checks and the bookkeeping of write_page go through. */
  lemma WriteChecks(d: Dim, a: Pic, l: nat)
    requires Targeted(d, a) && l < d.N
    ensures a.blk < d.V == |a.flash| && |a.flash[a.blk]| == d.P && BlankFrom(a.flash[a.blk], a.w)
    ensures |a.pmap| == d.N && |a.vc| == d.V && |a.list| == d.P
    ensures a.vc[a.blk] <= a.w && a.w + 1 < d.P
    ensures a.pmap[l].Some? ==>
              var x := a.pmap[l].value;
              x != Addr(a.blk, a.w) && x.blk < d.V && x.off < d.P && 0 < a.vc[x.blk] < d.P
  {
    assert BlockOk(d, a, a.blk) && CountOk(d, a, a.blk);
    LiveBound(d, a, a.blk);
    if a.pmap[l].Some? {
      assert LocOk(d, a, l) && CountOk(d, a, a.pmap[l].value.blk);
      LiveBound(d, a, a.pmap[l].value.blk);
      assert l in LiveIn(a.pmap, a.pmap[l].value.blk);
    }
  }

  lemma WriteOk(d: Dim, a: Pic, l: nat, p: Page)
    requires Targeted(d, a) && l < d.N && p.Written?
    ensures a.blk < |a.flash| && a.w < |a.flash[a.blk]| && l < |a.pmap| && a.w < |a.list| && a.blk < |a.vc|
    ensures a.pmap[l].Some? ==> a.pmap[l].value.blk < |a.vc| && 0 < a.vc[a.pmap[l].value.blk]
    ensures Inv(d, HostWritten(d, a, l, p))
    ensures ViewAt(d, HostWritten(d, a, l, p), l) == p.sects
    ensures forall k: nat :: k != l ==> ViewAt(d, HostWritten(d, a, l, p), k) == ViewAt(d, a, k)
  {
    WriteChecks(d, a, l);
    var c := HostWritten(d, a, l, p);
    forall b | b in d.blocks ensures BlockOk(d, c, b) { assert BlockOk(d, a, b); }
    forall k: nat | k < d.N ensures LocOk(d, c, k) { assert LocOk(d, a, k) && BlockOk(d, a, a.blk); }
    forall b: nat | b < d.V ensures CountOk(d, c, b) {
      assert CountOk(d, a, b) && LocOk(d, a, l);
      CountsAfterWrite(d, a, l, b);
    }
    forall k: nat | k != l ensures ViewAt(d, c, k) == ViewAt(d, a, k) {
      if k < d.N && a.pmap[k].Some? { assert LocOk(d, a, k) && BlockOk(d, a, a.blk); }
    }
  }

  /** The counts when a page at x has come to block b. */
  function Counted(vc: seq<nat>, x: Option<Addr>, b: nat): seq<nat> {
    var vc' := if x.Some? && x.value.blk < |vc| &&
      0 < vc[x.value.blk] then vc[x.value.blk := vc[x.value.blk] - 1] else vc;
    if b < |vc'| then vc'[b := vc'[b] + 1] else vc'
  }

  lemma WrittenTables(d: Dim, a: Pic, l: nat, p: Page)
    requires a.blk < |a.flash| && a.w < |a.flash[a.blk]| && l < |a.pmap| && a.w < |a.list| && a.blk < |a.vc|
    requires a.pmap[l].Some? ==> a.pmap[l].value.blk < |a.vc| && 0 < a.vc[a.pmap[l].value.blk]
    ensures var c := HostWritten(d, a, l, p);
            && c.pmap == a.pmap[l := Some(Addr(a.blk, a.w))] && c.vc == Counted(a.vc, a.pmap[l], a.blk)
            && c.flash == Put(a.flash, Addr(a.blk, a.w), p)
  {
  }

  /** The first pages of all blocks are as they were, but perhaps page x. */
  ghost predicate FirstKept(flash: seq<Block>, flash': seq<Block>, x: Addr) {
    && |flash'| == |flash|
    && forall c: nat :: c < |flash| && Addr(c, 0) != x && flash[c] != [] ==>
      flash'[c] != [] && flash'[c][0] == flash[c][0]
  }

  /** Page x has been programmed, and nothing else. */
  ghost predicate PageOnly(flash: seq<Block>, flash': seq<Block>, x: Addr) {
    x.blk < |flash| && x.off < |flash[x.blk]| && exists p :: flash' == Put(flash, x, p)
  }

  lemma KeptFirst(d: Dim, f0: seq<Block>, f1: seq<Block>, f2: seq<Block>, b: nat, x: Addr)
    requires 1 < d.P && PageOnly(f1, f2, x)
    ensures f1 == f0 || SameBut(f0, f1, b, d.P - 1) ==> FirstKept(f0, f2, x)
  {
  }

  // ----- moving on to the next page -----

  /** The lpn list goes to the last page of the current block, and the list in memory is cleared. */
  ghost function ListClosed(d: Dim, a: Pic): Pic
    requires a.blk < |a.flash| && 0 < d.P <= |a.flash[a.blk]|
  {
    a.(flash := Put(a.flash, Addr(a.blk, d.P - 1), LpnList(a.list)), list := Zeros(d.P))
  }

  function Zeros(n: nat): (r: seq<Lpn>)
    ensures |r| == n && forall i :: 0 <= i < n ==> r[i] == ZERO
  {
    if n == 0 then [] else Zeros(n - 1) + [ZERO]
  }

  lemma ListClosedOk(d: Dim, a: Pic)
    requires Inv(d, a) && a.w + 1 == d.P && a.blk < |a.flash| && !Closed(a.flash[a.blk])
    ensures |a.flash[a.blk]| == d.P && BlankFrom(a.flash[a.blk], d.P - 1)
    ensures Inv(d, ListClosed(d, a)) && SameView(d, a, ListClosed(d, a))
    ensures Closed(ListClosed(d, a).flash[a.blk]) && Open(d, ListClosed(d, a)) == Open(d, a) - {a.blk}
    ensures a.blk in Open(d, a)
  {
    var c := ListClosed(d, a);
    assert BlockOk(d, a, a.blk);
    forall b | b in d.blocks ensures BlockOk(d, c, b) { assert BlockOk(d, a, b); }
    forall k: nat | k < d.N ensures LocOk(d, c, k) && ViewAt(d, c, k) == ViewAt(d, a, k) { assert LocOk(d, a, k); }
    forall b: nat | b < d.V ensures CountOk(d, c, b) { assert CountOk(d, a, b); }
  }

  /** Block b becomes current. */
  ghost function NextBlock(a: Pic, b: nat): Pic {
    a.(blk := b, w := 0)
  }

  /** b is the next block of the first pass over the blocks. */
  ghost predicate NextOpen(d: Dim, a: Pic, b: nat) {
    && a.blk < b && b in d.blocks && a.gc != Some(b) && !a.wrapped
    && forall c :: c in d.blocks && a.blk < c < b ==> a.gc == Some(c)
  }

  lemma NextBlockOk(d: Dim, a: Pic, b: nat)
    requires Inv(d, a) && a.blk < |a.flash| && Closed(a.flash[a.blk]) && NextOpen(d, a, b)
    ensures Targeted(d, NextBlock(a, b)) && SameView(d, a, NextBlock(a, b))
    ensures Open(d, NextBlock(a, b)) == Open(d, a)
  {
    var c := NextBlock(a, b);
    forall e | e in d.blocks ensures BlockOk(d, c, e) { assert BlockOk(d, a, e); }
    forall k: nat | k < d.N ensures LocOk(d, c, k) { assert LocOk(d, a, k); }
    forall e: nat | e < d.V ensures CountOk(d, c, e) { assert CountOk(d, a, e); }
    assert BlockOk(d, a, b);
  }

  /** In the first pass the search for the next block finds one, unless all blocks are full. */
  lemma NextExists(d: Dim, a: Pic)
    requires Inv(d, a) && a.blk < |a.flash| && Closed(a.flash[a.blk]) && Open(d, a) != {}
    ensures !a.wrapped && exists b :: b in Open(d, a) && a.blk < b
  {
    var b :| b in Open(d, a);
    assert BlockOk(d, a, b);
  }

  /** vcount says VC_MAX of a block exactly when it takes no data. */
  lemma VcMaxMeans(d: Dim, a: Pic, c: nat)
    requires Inv(d, a) && c < d.V
    ensures c < |a.vc| && (a.vc[c] == VC_MAX <==> !(c in d.blocks && a.gc != Some(c)))
  {
    assert CountOk(d, a, c);
    if c in d.blocks { LiveBound(d, a, c); }
  }

  lemma NoOpen(d: Dim, a: Pic)
    ensures |Open(d, a)| == 0 <==> Open(d, a) == {}
  {
  }

  lemma OpenCounted(d: Dim, a: Pic, b: nat)
    requires Inv(d, a) && b in Open(d, a)
    ensures b < d.V && b in d.blocks && a.gc != Some(b)
    ensures b > a.blk ==> !a.wrapped
  {
    assert BlockOk(d, a, b);
  }

  // ----- garbage collection -----

  /** All blocks are full: the spare block is going to be filled. */
  ghost function GcBegun(a: Pic, list: seq<Lpn>): Pic
    requires a.gc.Some?
  {
    a.(blk := a.gc.value, w := 0, gc := None, list := list, wrapped := true)
  }

  lemma GcBegunOk(d: Dim, a: Pic, vt: nat, list: seq<Lpn>)
    requires Inv(d, a) && Open(d, a) == {} && |list| == d.P && Named(d, list)
    ensures var c := GcBegun(a, list);
            && Struct(d, c) && Counts(d, c, {vt, c.blk}) && SameView(d, a, c)
            && LiveIn(a.pmap, c.blk) == {} && a.gc.value < |a.flash| && !Closed(c.flash[c.blk])
  {
    var c := GcBegun(a, list);
    assert BlockOk(d, a, a.gc.value);
    forall b | b in d.blocks ensures BlockOk(d, c, b) { assert BlockOk(d, a, b); assert b !in Open(d, a); }
    forall k: nat | k < d.N ensures LocOk(d, c, k) {
      assert LocOk(d, a, k);
      if a.pmap[k].Some? { assert a.pmap[k].value.blk !in Open(d, a); }
    }
    forall b: nat | b < d.V && b !in {vt, c.blk} ensures CountOk(d, c, b) { assert CountOk(d, a, b); }
    forall l: nat | l < d.N && a.pmap[l].Some? ensures a.pmap[l].value.blk != c.blk { assert LocOk(d, a, l); }
    assert LiveIn(a.pmap, c.blk) == {};
  }

  /** The live page of lpn l goes to the next page of the spare block. */
  ghost function GcMoved(d: Dim, a: Pic, l: nat, p: Page): Pic
    requires a.blk < |a.flash| && a.w < |a.flash[a.blk]| && l < |a.pmap| && a.w < |a.list|
  {
    var x := Addr(a.blk, a.w);
    a.(flash := Put(a.flash, x, p), pmap := a.pmap[l := Some(x)], list := a.list[a.w := Lpn(d.no, l)], w := a.w + 1)
  }

  /** Garbage collection is filling the current block from block vt, with lpn l live at page o of vt. */
  ghost predicate GcAt(d: Dim, a: Pic, vt: nat, l: nat, o: nat) {
    && Struct(d, a) && Counts(d, a, {vt, a.blk}) && a.gc.None?
    && a.blk < |a.flash| && !Closed(a.flash[a.blk]) && vt != a.blk && vt in d.blocks
    && l < d.N && l < |a.pmap| && a.pmap[l] == Some(Addr(vt, o)) && a.w + 1 < d.P
  }

  /** Where the page to move is, and what it reads as. */
  lemma GcShape(d: Dim, a: Pic, vt: nat, l: nat, o: nat)
    requires GcAt(d, a, vt, l, o)
    ensures |a.flash| == d.V && vt < d.V && a.blk < d.V && |a.flash[vt]| == |a.flash[a.blk]| == d.P && o < d.P &&
            |a.list| == d.P
    ensures Content(d.S, a.flash[vt][o]) == ViewAt(d, a, l)
  {
    assert LocOk(d, a, l);
  }

  lemma GcMovedOk(d: Dim, a: Pic, vt: nat, l: nat, o: nat, p: Page)
    requires GcAt(d, a, vt, l, o) && p.Written? && p.sects == ViewAt(d, a, l)
    ensures |a.flash[a.blk]| == d.P && BlankFrom(a.flash[a.blk], a.w) && a.w < |a.list|
    ensures var c := GcMoved(d, a, l, p);
            && Struct(d, c) && Counts(d, c, {vt, c.blk}) && SameView(d, a, c) && !Closed(c.flash[c.blk])
  {
    var c := GcMoved(d, a, l, p);
    assert BlockOk(d, a, a.blk) && LocOk(d, a, l);
    forall b | b in d.blocks ensures BlockOk(d, c, b) { assert BlockOk(d, a, b); }
    forall k: nat | k < d.N ensures LocOk(d, c, k) && ViewAt(d, c, k) == ViewAt(d, a, k) { assert LocOk(d, a, k); }
    forall b: nat | b < d.V && b !in {vt, c.blk} ensures CountOk(d, c, b) {
      assert CountOk(d, a, b);
      assert LiveIn(c.pmap, b) == LiveIn(a.pmap, b);
    }
  }

  /** One live page less in the victim, one more in the spare block. */
  lemma GcMovedCounts(pmap: seq<Option<Addr>>, vt: nat, l: nat, x: Addr)
    requires l < |pmap| && pmap[l].Some? && pmap[l].value.blk == vt != x.blk
    ensures |LiveIn(pmap[l := Some(x)], vt)| + 1 == |LiveIn(pmap, vt)|
    ensures |LiveIn(pmap[l := Some(x)], x.blk)| == |LiveIn(pmap, x.blk)| + 1
  {
    assert l in LiveIn(pmap, vt) && l !in LiveIn(pmap, x.blk);
    assert LiveIn(pmap[l := Some(x)], vt) == LiveIn(pmap, vt) - {l};
    assert LiveIn(pmap[l := Some(x)], x.blk) == LiveIn(pmap, x.blk) + {l};
  }

  /** The victim, erased, is the new spare block, and the counts are put right. */
  ghost function GcEnded(d: Dim, a: Pic, vt: nat): Pic
    requires vt < |a.flash| && vt < |a.vc| && a.blk < |a.vc|
  {
    a.(flash := a.flash[vt := ErasedBlock(d.P)], gc := Some(vt), vc := a.vc[vt := VC_MAX][a.blk := a.w])
  }

  lemma GcEndedOk(d: Dim, a: Pic, vt: nat)
    requires Struct(d, a) && Counts(d, a, {vt, a.blk}) && a.gc.None? && a.wrapped && a.w + 1 < d.P
    requires vt in d.blocks && vt != a.blk && a.blk < |a.flash| && !Closed(a.flash[a.blk])
    requires LiveIn(a.pmap, vt) == {} && |LiveIn(a.pmap, a.blk)| == a.w
    ensures vt < |a.flash| && vt < |a.vc| && a.blk < |a.vc|
    ensures Targeted(d, GcEnded(d, a, vt)) && SameView(d, a, GcEnded(d, a, vt))
    ensures Open(d, GcEnded(d, a, vt)) == {a.blk}
  {
    var c := GcEnded(d, a, vt);
    forall b | b in d.blocks ensures BlockOk(d, c, b) { assert BlockOk(d, a, b); }
    forall k: nat | k < d.N ensures LocOk(d, c, k) && ViewAt(d, c, k) == ViewAt(d, a, k) {
      assert LocOk(d, a, k);
      assert k !in LiveIn(a.pmap, vt);
    }
    forall b: nat | b < d.V ensures CountOk(d, c, b) {
      if b !in {vt, a.blk} { assert CountOk(d, a, b); }
    }
    forall b | b in d.blocks ensures b in Open(d, c) <==> b == a.blk { assert BlockOk(d, a, b); }
  }

  /**
   What the victim's list says of page o: the one lpn that can be live there, unless the page has never
   been written.
   */
  lemma GcListed(d: Dim, a: Pic, vt: nat, o: nat)
    requires Struct(d, a) && a.gc.None? && vt in d.blocks && vt != a.blk && a.wrapped && o + 1 < d.P
    ensures |a.pmap| == d.N && vt < |a.flash| && |a.flash[vt]| == d.P && Closed(a.flash[vt])
    ensures PageListed(d, a.flash[vt][o], a.flash[vt][d.P - 1].lpns[o], o)
    ensures forall l: nat :: l < d.N && a.pmap[l] == Some(Addr(vt, o)) ==>
              a.flash[vt][o].Written? && a.flash[vt][d.P - 1].lpns[o] == Lpn(d.no, l)
  {
    assert BlockOk(d, a, vt);
    assert o < |a.flash[vt]| && PageListed(d, a.flash[vt][o], a.flash[vt][d.P - 1].lpns[o], o);
    forall l: nat | l < d.N && a.pmap[l] == Some(Addr(vt, o))
      ensures a.flash[vt][o].Written? && a.flash[vt][d.P - 1].lpns[o] == Lpn(d.no, l) {
      assert LocOk(d, a, l);
    }
  }

  /**
   Page 0 of block vt has never been written, and its entry in the list, which is lpn 0, is not of this
   bank; and that lpn's page is page 0 of the block with the same number in bank 0.
   */
  predicate Clash(d: Dim, flash: seq<Block>, vt: nat, zero: Option<Addr>) {
    && d.no != 0 && zero == Some(Addr(vt, 0)) && vt < |flash| && flash[vt] != [] && flash[vt][0] == Erased
  }

  /** An entry of another bank stands for page 0 only, and then the clash is with the lpn that it names. */
  lemma EntryMeans(d: Dim, flash: seq<Block>, vt: nat, e: Lpn, o: nat, zero: Option<Addr>)
    requires DimOk(d) && vt < |flash| && o < |flash[vt]| && PageListed(d, flash[vt][o], e, o)
    ensures e.bank == d.no ==> e.l < d.N && (o == 0 ==> !Clash(d, flash, vt, zero))
    ensures e.bank != d.no ==> o == 0 && (Clash(d, flash, vt, zero) <==> zero == Some(Addr(vt, 0)))
  {
  }

  /** Nothing has changed but page o of block b. */
  ghost predicate SameBut(flash: seq<Block>, flash': seq<Block>, b: nat, o: nat) {
    && |flash'| == |flash| && (forall c :: 0 <= c < |flash| ==> |flash'[c]| == |flash[c]|)
    && forall c, q :: 0 <= c < |flash| && 0 <= q < |flash[c]| && !(c == b && q == o) ==> flash'[c][q] == flash[c][q]
  }

  lemma ClashSame(d: Dim, flash: seq<Block>, flash': seq<Block>, b: nat, zero: Option<Addr>)
    requires 1 < d.P && SameBut(flash, flash', b, d.P - 1)
    ensures forall vt :: Clash(d, flash', vt, zero) <==> Clash(d, flash, vt, zero)
  {
  }

  /** No lpn is live in the first o pages of block vt. */
  ghost predicate Passed(pmap: seq<Option<Addr>>, vt: nat, o: nat) {
    forall l: nat :: l < |pmap| && pmap[l].Some? && pmap[l].value.blk == vt ==> o <= pmap[l].value.off
  }

  lemma NonePassed(pmap: seq<Option<Addr>>, vt: nat)
    ensures Passed(pmap, vt, 0)
  {
  }

  /** No lpn is live at page o. */
  lemma NonePassedAt(pmap: seq<Option<Addr>>, vt: nat, o: nat)
    requires Passed(pmap, vt, o) && forall k: nat :: k < |pmap| ==> pmap[k] != Some(Addr(vt, o))
    ensures Passed(pmap, vt, o + 1)
  {
    forall k: nat | k < |pmap| && pmap[k].Some? && pmap[k].value.blk == vt ensures o + 1 <= pmap[k].value.off {
      assert pmap[k].value == Addr(vt, pmap[k].value.off);
    }
  }

  /** The live page at o has moved away, so o is passed. */
  lemma PassedOn(pmap: seq<Option<Addr>>, vt: nat, l: nat, o: nat, x: Addr, d: Dim, a: Pic)
    requires Struct(d, a) && a.pmap == pmap && a.gc.None? && a.wrapped && vt in d.blocks && vt != a.blk && o + 1 < d.P
    requires Passed(pmap, vt, o) && l < |pmap| && pmap[l] == Some(Addr(vt, o)) && x.blk != vt
    ensures Passed(pmap[l := Some(x)], vt, o + 1)
  {
    GcListed(d, a, vt, o);
    forall k: nat | k < |pmap| && k != l && pmap[k].Some? && pmap[k].value.blk == vt
      ensures o + 1 <= pmap[k].value.off {
      assert pmap[k].value == Addr(vt, pmap[k].value.off);
    }
  }

  lemma MovingShape(d: Dim, a: Pic)
    requires Struct(d, a)
    ensures DimOk(d) && |a.flash| == d.V && |a.pmap| == d.N && |a.list| == d.P && |a.vc| == d.V && a.w < d.P &&
            a.blk in d.blocks && a.blk < d.V
  {
  }

  lemma InvShape(d: Dim, a: Pic)
    requires Inv(d, a)
    ensures DimOk(d) && |a.flash| == d.V && |a.pmap| == d.N && |a.list| == d.P && |a.vc| == d.V && a.w < d.P
    ensures a.blk in d.blocks && a.blk < d.V && a.gc.value in d.blocks && a.gc.value < d.V && a.gc.value != a.blk
  {
  }

  lemma SameViewRefl(d: Dim, a: Pic)
    ensures SameView(d, a, a)
  {
  }

  lemma SameViewTrans(d: Dim, a: Pic, b: Pic, c: Pic)
    ensures SameView(d, a, b) && SameView(d, b, c) ==> SameView(d, a, c)
  {
  }

  /** All pages passed: the victim is empty. */
  lemma AllPassed(d: Dim, a: Pic, vt: nat)
    requires Struct(d, a) && Passed(a.pmap, vt, d.P - 1)
    ensures LiveIn(a.pmap, vt) == {}
  {
    forall l: nat | l < d.N && a.pmap[l].Some? ensures a.pmap[l].value.blk != vt {
      assert LocOk(d, a, l);
    }
  }

  // ----- the choice of a victim -----

  lemma {:induction false} MinExists(s: seq<nat>)
    requires s != []
    ensures exists v: nat :: v < |s| && LeastAt(s, v)
  {
    if |s| == 1 {
      assert LeastAt(s, 0);
    } else {
      MinExists(s[..|s| - 1]);
      var v: nat :| v < |s| - 1 && LeastAt(s[..|s| - 1], v);
      assert s[..|s| - 1][v] == s[v];
      assert LeastAt(s, if s[v] <= s[|s| - 1] then v else |s| - 1);
    }
  }

  predicate LeastAt(s: seq<nat>, v: nat) {
    v < |s| && forall i :: 0 <= i < |s| ==> s[v] <= s[i]
  }

  /** A block with the least vcount is a full block that leaves room for at least two pages. */
  lemma VictimOk(d: Dim, a: Pic, vt: nat)
    requires Inv(d, a) && Open(d, a) == {} && d.N < (|d.blocks| - 1) * (d.P - 2) && LeastAt(a.vc, vt)
    ensures vt in d.blocks && a.gc != Some(vt) && vt != a.gc.value && vt < d.V && |a.vc| == d.V
    ensures a.vc[vt] == |LiveIn(a.pmap, vt)| && a.vc[vt] + 2 < d.P && a.vc[a.gc.value] == VC_MAX
    ensures |a.flash| == d.V && |a.flash[vt]| == d.P && Closed(a.flash[vt])
    ensures Named(d, a.flash[vt][d.P - 1].lpns)
  {
    var g := a.gc.value;
    var B := d.blocks - {g};
    assert |B| == |d.blocks| - 1;
    forall b | b in B ensures a.vc[vt] <= |LiveIn(a.pmap, b)| { assert CountOk(d, a, b); }
    VictimBound(a.pmap, B, d.P - 2, a.vc[vt]);
    assert CountOk(d, a, vt) && CountOk(d, a, g) && BlockOk(d, a, vt);
    assert vt !in Open(d, a);
  }

  // ----- contents -----

  ghost predicate FullPages(d: Dim, a: Pic) {
    forall l: nat {:trigger ViewAt(d, a, l)} :: |ViewAt(d, a, l)| == d.S
  }

  /** Lpn l has got data from sector off on, and nothing else has changed. */
  ghost predicate Spliced(d: Dim, a: Pic, b: Pic, l: nat, off: nat, data: PageData) {
    && off + |data| <= |ViewAt(d, a, l)|
    && ViewAt(d, b, l) == Nand.Splice(ViewAt(d, a, l), off, data)
    && forall k: nat {:trigger ViewAt(d, b, k)} :: k != l ==> ViewAt(d, b, k) == ViewAt(d, a, k)
  }

  lemma SplicedAfter(d: Dim, a: Pic, b: Pic, c: Pic, l: nat, off: nat, data: PageData)
    ensures SameView(d, a, b) && FullPages(d, a) && Spliced(d, b, c, l, off, data) ==>
            Spliced(d, a, c, l, off, data) && FullPages(d, c)
  {
  }

  lemma SplicedNow(d: Dim, a: Pic, b: Pic, l: nat, off: nat, data: PageData)
    requires off + |data| <= |ViewAt(d, a, l)|
    ensures ViewAt(d, b, l) == Nand.Splice(ViewAt(d, a, l), off, data) &&
            (forall k: nat :: k != l ==> ViewAt(d, b, k) == ViewAt(d, a, k)) ==>
              Spliced(d, a, b, l, off, data)
  {
  }

  lemma SameFull(d: Dim, a: Pic, b: Pic)
    ensures FullPages(d, a) && SameView(d, a, b) ==> FullPages(d, b)
  {
  }

  /** What a write relies on when it reads the old page. */
  lemma TargetShape(d: Dim, a: Pic, l: nat)
    requires Targeted(d, a) && FullPages(d, a) && l < d.N
    ensures l < |a.pmap| && |ViewAt(d, a, l)| == d.S && |a.flash| == d.V
    ensures a.pmap[l].Some? ==> a.pmap[l].value.blk < |a.flash| && a.pmap[l].value.off < |a.flash[a.pmap[l].value.blk]|
  {
    assert LocOk(d, a, l);
  }

  /** A data page does not close a block. */
  lemma StillOpen(d: Dim, a: Pic, l: nat, p: Page)
    requires Targeted(d, a) && l < d.N && p.Written?
    ensures a.blk < |a.flash| && a.w < |a.flash[a.blk]| && l < |a.pmap| && a.w < |a.list| && a.blk < |a.vc|
    ensures a.pmap[l].Some? ==> a.pmap[l].value.blk < |a.vc| && 0 < a.vc[a.pmap[l].value.blk]
    ensures var c := HostWritten(d, a, l, p);
            Open(d, c) == Open(d, a) && c.blk < |c.flash| && !Closed(c.flash[c.blk])
  {
    WriteChecks(d, a, l);
    var c := HostWritten(d, a, l, p);
    forall b | b in d.blocks ensures b in Open(d, c) <==> b in Open(d, a) { assert BlockOk(d, a, b); }
  }

  lemma ReadShape(d: Dim, a: Pic, l: nat)
    requires Inv(d, a) && FullPages(d, a) && l < d.N
    ensures l < |a.pmap| && |ViewAt(d, a, l)| == d.S
    ensures a.pmap[l].Some? ==> a.pmap[l].value.blk < |a.flash| && a.pmap[l].value.off < |a.flash[a.pmap[l].value.blk]|
    ensures forall w :: ViewAt(d, a, l) == ViewAt(d, a.(w := w), l)
  {
    assert LocOk(d, a, l);
  }

  // ----- format -----

  function ErasedBlocks(k: nat, n: nat): (r: seq<Block>)
    ensures |r| == k && forall i :: 0 <= i < k ==> r[i] == ErasedBlock(n)
  {
    if k == 0 then [] else ErasedBlocks(k - 1, n) + [ErasedBlock(n)]
  }

  function NoPages(n: nat): (r: seq<Option<Addr>>)
    ensures |r| == n && forall i :: 0 <= i < n ==> r[i].None?
  {
    if n == 0 then [] else NoPages(n - 1) + [None]
  }

  /** No live page in a data block, VC_MAX for every other block. */
  function FirstCounts(n: nat, data: seq<nat>): (r: seq<nat>)
    ensures |r| == n && forall i :: 0 <= i < n ==> r[i] == if i in data then 0 else VC_MAX
  {
    if n == 0 then [] else FirstCounts(n - 1, data) + [if n - 1 in data then 0 else VC_MAX]
  }

  function Elems(s: seq<nat>): (r: set<nat>)
    ensures forall b :: b in r <==> b in s
  {
    set b | b in s
  }

  lemma {:induction false} GoodSize(good: seq<nat>)
    requires forall i, j :: 0 <= i < j < |good| ==> good[i] < good[j]
    ensures |Elems(good)| == |good|
  {
    if good != [] {
      hide Elems;
      var n := |good| - 1;
      GoodSize(good[..n]);
      assert good[n] !in good[..n];
      assert Elems(good) == Elems(good[..n]) + {good[n]} by {
        assert good == good[..n] + [good[n]];
      }
    }
  }

  ghost predicate AllBlank(d: Dim, a: Pic) {
    forall l :: ViewAt(d, a, l) == Nand.BlankData(d.S)
  }

  lemma FormatOk(d: Dim, a: Pic, good: seq<nat>)
    requires 4 <= d.P < VC_MAX && 1 <= d.S && 1 <= d.N && 2 <= |good|
    requires (forall i :: 0 <= i < |good| ==> 0 < good[i] < d.V) && forall i, j :: 0 <= i < j < |good| ==>
             good[i] < good[j]
    requires d.blocks == Elems(good) && |a.list| == d.P && (forall i :: 0 <= i < d.P ==> a.list[i] == ZERO)
    requires a == Pic(ErasedBlocks(d.V, d.P), NoPages(d.N), FirstCounts(d.V, good[1..]), a.list, good[1], 1,
             Some(good[0]), false)
    ensures Inv(d, a) && !Closed(a.flash[a.blk]) && |Open(d, a)| + 1 == |good| == |d.blocks|
    ensures AllBlank(d, a) && FullPages(d, a)
  {
    GoodSize(good);
    forall b | b in d.blocks ensures BlockOk(d, a, b) {}
    forall l: nat | l < d.N ensures LocOk(d, a, l) {}
    forall b: nat | b < d.V ensures CountOk(d, a, b) {
      assert LiveIn(a.pmap, b) == {};
      assert b in good[1..] <==> b in d.blocks && b != good[0];
    }
    assert Open(d, a) == d.blocks - {good[0]};
  }
}
