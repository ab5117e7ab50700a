/** NAND flash as the FTLs use it (target_spw/flash_wrapper.c), one bank, synchronous. */
module Nand {
  import opened Common

  /** One 512-byte sector; Blank is the all-0xFF pattern of erased flash. */
  datatype Sector = Blank | Bytes(value: int)

  type PageData = seq<Sector>

  /** What a physical page holds.  An lpn list is what an FTL writes in the last page of a block. */
  datatype Page = Erased | Written(sects: PageData) | LpnList(lpns: seq<Option<Addr>>)

  type Block = seq<Page>

  /** The n sectors of an erased page. */
  function BlankData(n: nat): (r: PageData)
    ensures |r| == n && forall i :: 0 <= i < n ==> r[i] == Blank
  {
    if n == 0 then [] else BlankData(n - 1) + [Blank]
  }

  /** A page with data from sector off on. */
  function Splice(page: PageData, off: nat, data: PageData): (r: PageData)
    requires off + |data| <= |page|
    ensures |r| == |page|
  {
    page[..off] + data + page[off + |data|..]
  }

  /** What reading a page of spp sectors as data returns. */
  function Content(spp: nat, p: Page): PageData {
    if p.Written? then p.sects else BlankData(spp)
  }

  /** All pages from o on are still erased. */
  ghost predicate BlankFrom(b: Block, o: int) {
    forall q :: 0 <= q < |b| && o <= q ==> b[q] == Erased
  }

  /** The last page of a closed log or isolation block lists the lpns of its other pages. */
  predicate Closed(b: Block) {
    && b != []
    && b[|b| - 1].LpnList?
    && |b[|b| - 1].lpns| == |b|
  }

  /** The lpn that a closed block lists for page o. */
  function Listed(b: Block, o: nat): Option<Addr> {
    if Closed(b) && o < |b| then b[|b| - 1].lpns[o] else None
  }

  /** Page o of block i. */
  function PageAt(bs: seq<Block>, i: nat, o: nat): Page {
    if i < |bs| && o < |bs[i]| then bs[i][o] else Erased
  }

  /** The blocks with page o of block i replaced. */
  function Put(bs: seq<Block>, i: nat, o: nat, p: Page): seq<Block>
    requires i < |bs| && o < |bs[i]|
  {
    bs[i := bs[i][o := p]]
  }

  function ErasedBlock(n: nat): (r: Block)
    ensures |r| == n && forall i :: 0 <= i < n ==> r[i] == Erased
  {
    if n == 0 then [] else ErasedBlock(n - 1) + [Erased]
  }

  function ErasedBlocks(k: nat, n: nat): (r: seq<Block>)
    ensures |r| == k && forall i :: 0 <= i < k ==> r[i] == ErasedBlock(n)
  {
    if k == 0 then [] else ErasedBlocks(k - 1, n) + [ErasedBlock(n)]
  }
}
