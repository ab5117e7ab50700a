/** The state of a bank of the greedy page-mapped FTL (ftl_greedy/ftl.c), its invariant and its steps. */
module GreedyState {
  import opened Common
  import Nand

  type Sector = Nand.Sector
  type PageData = Nand.PageData

  /** In the vcount table: this block takes no data. */
  const VC_MAX: nat := 0xCDCD

  /** An lpn of the device: its bank, and its number among the lpns of the bank. */
  datatype Lpn = Lpn(bank: nat, l: nat)

  /** What a list entry that has not been set says: lpn 0, which is the first of bank 0. */
  const ZERO: Lpn := Lpn(0, 0)

  /** The lpn list in the last page of a full block is plain lpns here. */
  datatype Page = Erased | Written(sects: PageData) | LpnList(lpns: seq<Lpn>)

  type Block = seq<Page>

  /**
   PAGES_PER_BLK, SECTORS_PER_PAGE, VBLKS_PER_BANK, lpns of the bank, the blocks that hold data or await
   it, and the number of the bank.
   */
  datatype Dim = Dim(P: nat, S: nat, V: nat, N: nat, blocks: set<nat>, no: nat)

  predicate DimOk(d: Dim) {
    && 4 <= d.P < VC_MAX && 1 <= d.S && 1 <= d.N
    && (forall b :: b in d.blocks ==> b < d.V)
  }

  /**
   Block blk is being written and its first w pages have been passed; gc is the erased block kept
   for garbage collection, None while it is being filled.  wrapped says that every block has been
   written once.
   */
  datatype Pic = Pic(flash: seq<Block>, pmap: seq<Option<Addr>>, vc: seq<nat>, list: seq<Lpn>,
                     blk: nat, w: nat, gc: Option<nat>, wrapped: bool)

  // ----- reading -----

  function PageAt(bs: seq<Block>, x: Addr): Page {
    if x.blk < |bs| && x.off < |bs[x.blk]| then bs[x.blk][x.off] else Erased
  }

  function Put(bs: seq<Block>, x: Addr, p: Page): seq<Block>
    requires x.blk < |bs| && x.off < |bs[x.blk]|
  {
    bs[x.blk := bs[x.blk][x.off := p]]
  }

  function Content(S: nat, p: Page): PageData {
    if p.Written? then p.sects else Nand.BlankData(S)
  }

  /** What the host reads at lpn l. */
  function ViewAt(d: Dim, a: Pic, l: nat): PageData {
    if l < |a.pmap| && a.pmap[l].Some? then Content(d.S, PageAt(a.flash, a.pmap[l].value)) else Nand.BlankData(d.S)
  }

  ghost predicate SameView(d: Dim, a: Pic, b: Pic) {
    forall l :: ViewAt(d, b, l) == ViewAt(d, a, l)
  }

  // ----- the invariant -----

  ghost predicate BlankFrom(b: Block, o: int) {
    forall q :: 0 <= q < |b| && o <= q ==> b[q] == Erased
  }

  function ErasedBlock(n: nat): (r: Block)
    ensures |r| == n && forall i :: 0 <= i < n ==> r[i] == Erased
  {
    if n == 0 then [] else ErasedBlock(n - 1) + [Erased]
  }

  predicate Closed(b: Block) {
    b != [] && b[|b| - 1].LpnList? && |b[|b| - 1].lpns| == |b|
  }

  /**
   The list names an lpn of the bank for a written page.  Page 0 of the block that is written first after
   format stays erased, and its entry is never set.
   */
  ghost predicate PageListed(d: Dim, p: Page, e: Lpn, o: nat) {
    if p.Written? then e.bank == d.no && e.l < d.N else p == Erased && o == 0 && e == ZERO
  }

  /** All entries of a list, set or not, are of the bank or of bank 0. */
  ghost predicate Named(d: Dim, list: seq<Lpn>) {
    forall i :: 0 <= i < |list| ==> list[i].bank == d.no || list[i].bank == 0
  }

  /** The first n pages of block b are listed. */
  ghost predicate AllListed(d: Dim, b: Block, list: seq<Lpn>, n: nat) {
    n <= |b| && n <= |list| && forall o {:trigger b[o]} :: 0 <= o < n ==> PageListed(d, b[o], list[o], o)
  }

  /** The lpns whose page is in block b. */
  ghost function LiveIn(pmap: seq<Option<Addr>>, b: nat): set<nat> {
    set l | 0 <= l < |pmap| && pmap[l].Some? && pmap[l].value.blk == b
  }

  ghost predicate Shape(d: Dim, a: Pic) {
    && DimOk(d)
    && |a.flash| == d.V && (forall b :: 0 <= b < d.V ==> |a.flash[b]| == d.P)
    && |a.pmap| == d.N && |a.vc| == d.V && |a.list| == d.P && Named(d, a.list)
    && a.blk in d.blocks && a.w < d.P
    && a.gc != Some(a.blk) && (a.gc.Some? ==> a.gc.value in d.blocks)
  }

  ghost predicate BlockOk(d: Dim, a: Pic, b: nat) {
    && b < |a.flash|
    && if a.gc == Some(b) then BlankFrom(a.flash[b], 0)
       else if b == a.blk && !Closed(a.flash[b]) then
         BlankFrom(a.flash[b], a.w) && AllListed(d, a.flash[b], a.list, a.w)
       else if !a.wrapped && a.blk < b then BlankFrom(a.flash[b], 0)
       else
         && Closed(a.flash[b]) && Named(d, a.flash[b][|a.flash[b]| - 1].lpns)
         && AllListed(d, a.flash[b], a.flash[b][|a.flash[b]| - 1].lpns, |a.flash[b]| - 1)
  }

  /** The page of lpn l is written, and the list of its block, in flash or in memory, names l there. */
  ghost predicate LocOk(d: Dim, a: Pic, l: nat) {
    && l < |a.pmap|
    && (a.pmap[l].Some? ==>
          var x := a.pmap[l].value;
          && x.blk in d.blocks && a.gc != Some(x.blk) && x.blk < |a.flash|
          && x.off + 1 < d.P == |a.flash[x.blk]| == |a.list|
          && a.flash[x.blk][x.off].Written?
          && if Closed(a.flash[x.blk]) then a.flash[x.blk][d.P - 1].lpns[x.off] == Lpn(d.no, l)
             else x.blk == a.blk && x.off < a.w && a.list[x.off] == Lpn(d.no, l))
  }

  /** vcount of block b counts the live pages of a block that takes data, and marks any other. */
  ghost predicate CountOk(d: Dim, a: Pic, b: nat) {
    && b < |a.vc|
    && a.vc[b] == if b in d.blocks && a.gc != Some(b) then |LiveIn(a.pmap, b)| else VC_MAX
  }

  ghost predicate Struct(d: Dim, a: Pic) {
    && Shape(d, a)
    && (forall b {:trigger BlockOk(d, a, b)} :: b in d.blocks ==> BlockOk(d, a, b))
    && (forall l: nat {:trigger LocOk(d, a, l)} :: l < d.N ==> LocOk(d, a, l))
  }

  /** Counts are exact, but perhaps those of the blocks in but. */
  ghost predicate Counts(d: Dim, a: Pic, but: set<nat>) {
    forall b: nat {:trigger CountOk(d, a, b)} :: b < d.V && b !in but ==> CountOk(d, a, b)
  }

  ghost predicate Inv(d: Dim, a: Pic) {
    Struct(d, a) && Counts(d, a, {}) && a.gc.Some?
  }

  /** The blocks that are neither full nor the one kept for garbage collection. */
  ghost function Open(d: Dim, a: Pic): set<nat> {
    set b | b in d.blocks && a.gc != Some(b) && b < |a.flash| && !Closed(a.flash[b])
  }

  // ----- counting -----

  lemma {:induction false} ImageSize(s: seq<Lpn>, n: nat)
    requires n <= |s|
    ensures |set o | 0 <= o < n :: s[o].l| <= n
  {
    if n > 0 {
      ImageSize(s, n - 1);
      assert (set o | 0 <= o < n :: s[o].l) == (set o | 0 <= o < n - 1 :: s[o].l) + {s[n - 1].l};
    }
  }

  /** A block has at most as many live pages as have been written: each list entry names one lpn. */
  lemma LiveBound(d: Dim, a: Pic, b: nat)
    requires Struct(d, a) && b in d.blocks
    ensures |LiveIn(a.pmap, b)| < d.P
    ensures b == a.blk && !Closed(a.flash[b]) ==> |LiveIn(a.pmap, b)| <= a.w
  {
    assert BlockOk(d, a, b);
    var list := if Closed(a.flash[b]) then a.flash[b][d.P - 1].lpns else a.list;
    var n := if Closed(a.flash[b]) then d.P - 1 else if b == a.blk then a.w else 0;
    forall l | l in LiveIn(a.pmap, b) ensures l in set o | 0 <= o < n :: list[o].l {
      assert LocOk(d, a, l);
      assert list[a.pmap[l].value.off].l == l;
    }
    ImageSize(list, n);
    SubsetSize(LiveIn(a.pmap, b), set o | 0 <= o < n :: list[o].l);
  }

  ghost function LiveInAll(pmap: seq<Option<Addr>>, B: set<nat>): set<nat> {
    set l | 0 <= l < |pmap| && pmap[l].Some? && pmap[l].value.blk in B
  }

  lemma {:induction false} LiveSum(pmap: seq<Option<Addr>>, B: set<nat>, k: nat)
    requires forall b :: b in B ==> k <= |LiveIn(pmap, b)|
    ensures |B| * k <= |LiveInAll(pmap, B)|
  {
    if B != {} {
      var b :| b in B;
      var B' := B - {b};
      LiveSum(pmap, B', k);
      assert LiveInAll(pmap, B) == LiveInAll(pmap, B') + LiveIn(pmap, b);
      assert LiveInAll(pmap, B') !! LiveIn(pmap, b);
      assert |B| * k == |B'| * k + k;
    }
  }

  lemma {:induction false} BelowSize(s: set<nat>, n: nat)
    requires forall x :: x in s ==> x < n
    ensures |s| <= n
  {
    if n == 0 {
      assert s == {};
    } else {
      BelowSize(s - {n - 1}, n - 1);
      assert s <= s - {n - 1} + {n - 1};
    }
  }

  /**
   Pigeonhole: when the logical pages are fewer than P - 2 to a block, a block with the least
   live pages has at most P - 3.
   */
  lemma VictimBound(pmap: seq<Option<Addr>>, B: set<nat>, k: nat, v: nat)
    requires |pmap| < |B| * k
    requires forall b :: b in B ==> v <= |LiveIn(pmap, b)|
    ensures v < k
  {
    if k <= v {
      LiveSum(pmap, B, k);
      BelowSize(LiveInAll(pmap, B), |pmap|);
      assert false;
    }
  }
}
