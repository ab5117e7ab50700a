/**
 Saving the metadata of the greedy FTL to flash and loading it back (ftl_greedy/ftl.c,
 logging_pmap_table, logging_misc_metadata, load_pmap_table, load_misc_metadata), over all
 banks.  Memory is counted in table entries: words of the page map, and of vcount.

 A chunk of the page map is a page full of it.  Chunk n is kept in a page of map block
 n / NB of bank n % NB, and the bank's misc metadata say in which.
 */
module GreedyPower {
  import opened Common
  import Striping

  const MISCBLK_VBN: nat := 1

  /** misc_metadata of a bank. */
  datatype Misc = Misc(curWriteVpn: nat, miscVpn: nat, mapVpn: seq<nat>, gcVblock: nat, freeBlkCnt: nat,
    lpnList: seq<nat>)

  datatype Page = Erased | MiscPage(misc: Misc, vcount: seq<nat>) | MapPage(words: seq<nat>) | Other

  type Block = seq<Page>

  /** NB banks; pages of PG words, sectors of SE; NL words in the page map; vcount slices of R words, B in all. */
  datatype Conf = Conf(NB: nat, P: nat, SE: nat, SP: nat, NL: nat, MB: nat, R: nat, B: nat, mapBlk: seq<seq<nat>>)
  {
    function PG(): nat { SE * SP }

    /** PAGE_MAP_BYTES: the table rounded up to whole sectors. */
    function RT(): nat
      requires 0 < SE
    {
      RoundUp(NL, SE)
    }
  }

  function RoundUp(n: nat, m: nat): nat
    requires 0 < m
  {
    (n + m - 1) / m * m
  }

  ghost predicate ConfOk(c: Conf) {
    && 0 < c.NB && 2 <= c.P && 0 < c.SE && 0 < c.SP && 0 < c.NL
    && c.RT() <= c.MB * c.NB * c.PG()
    && 0 < c.R && c.B <= c.NB * c.R
    && |c.mapBlk| == c.NB
    && (forall k :: 0 <= k < c.NB ==> |c.mapBlk[k]| == c.MB)
    && (forall k, i :: 0 <= k < c.NB && 0 <= i < c.MB ==> MISCBLK_VBN < c.mapBlk[k][i])
    && (forall k, i, j :: 0 <= k < c.NB && 0 <= i < j < c.MB ==> c.mapBlk[k][i] != c.mapBlk[k][j])
  }

  // ----- table ends -----

  lemma RoundUpLeast(n: nat, m: nat)
    requires 0 < m
    ensures n <= RoundUp(n, m) < n + m
    ensures exists k: nat :: RoundUp(n, m) == k * m
  {
    var k := (n + m - 1) / m;
    assert n + m - 1 == k * m + (n + m - 1) % m;
    assert RoundUp(n, m) == k * m;
  }

  /** At whole sectors the end of the table and its rounded end are passed together, and leave the same rest. */
  lemma EndsAgree(n: nat, m: nat, q: nat)
    requires 0 < m
    ensures q * m >= n <==> q * m >= RoundUp(n, m)
    ensures q * m < n ==> RoundUp(n - q * m, m) == RoundUp(n, m) - q * m
  {
    RoundUpLeast(n, m);
    var k: nat :| RoundUp(n, m) == k * m;
    MulOrder(k, q, m);
    MulOrder(q, k, m);
    if q * m < n {
      RoundUpLeast(n - q * m, m);
      var j: nat :| RoundUp(n - q * m, m) == j * m;
      assert (j + q) * m == j * m + q * m;
      MulOrder(j + q, k, m);
      MulOrder(k, j + q, m);
    }
  }

  /** MAPBLKS_PER_BANK suffices whenever the banks divide the table, as they do if they divide a sector. */
  lemma MapBlocksSuffice(bytes: nat, NB: nat, pageBytes: nat)
    requires 0 < NB && 0 < pageBytes && bytes % NB == 0
    ensures bytes <= (bytes / NB + pageBytes - 1) / pageBytes * NB * pageBytes
  {
    RoundUpLeast(bytes / NB, pageBytes);
    var k := (bytes / NB + pageBytes - 1) / pageBytes;
    assert bytes == bytes / NB * NB;
    MulOrder(bytes / NB, k * pageBytes, NB);
    assert k * pageBytes * NB == k * NB * pageBytes;
  }

  /** Slices rounded up one by one cover the table rounded up as a whole. */
  lemma SlicesSuffice(NB: nat, n: nat, m: nat)
    requires 0 < m
    ensures RoundUp(NB * n, m) <= NB * RoundUp(n, m)
  {
    RoundUpLeast(n, m);
    RoundUpLeast(NB * n, m);
    var k: nat :| RoundUp(n, m) == k * m;
    var j: nat :| RoundUp(NB * n, m) == j * m;
    hide RoundUp;
    Regroup(NB, n, k, m);
    MulOrder(NB * k, j, m);
    MulOrder(j, NB * k, m);
  }

  lemma Regroup(NB: nat, n: nat, k: nat, m: nat)
    requires n <= k * m
    ensures NB * n <= NB * k * m == NB * (k * m)
  {
    assert NB * (k * m) == NB * k * m;
    MulOrder(n, k * m, NB);
  }

  // ----- what is on flash -----

  /** vpn / PAGES_PER_BLK and vpn % PAGES_PER_BLK. */
  function BlkOf(vpn: nat, P: nat): nat
    requires 0 < P
  {
    vpn / P
  }

  function OffOf(vpn: nat, P: nat): nat
    requires 0 < P
  {
    vpn % P
  }

  /** The first page of vpn's block. */
  function FirstVpn(vpn: nat, P: nat): nat
    requires 0 < P
  {
    vpn / P * P
  }

  ghost predicate BlankFrom(b: Block, o: int) {
    forall q :: 0 <= q < |b| && o <= q ==> b[q] == Erased
  }

  function ErasedBlock(n: nat): (r: Block)
    ensures |r| == n && forall i :: 0 <= i < n ==> r[i] == Erased
  {
    if n == 0 then [] else ErasedBlock(n - 1) + [Erased]
  }

  /** Map block i of bank k has been programmed up to its write pointer. */
  ghost predicate MapOk(c: Conf, flash: seq<seq<Block>>, misc: seq<Misc>, k: nat, i: nat) {
    && k < |flash| && k < |misc| && i < |misc[k].mapVpn| && k < |c.mapBlk| && i < |c.mapBlk[k]|
    && c.mapBlk[k][i] < |flash[k]| && 0 < c.P == |flash[k][c.mapBlk[k][i]]|
    && BlkOf(misc[k].mapVpn[i], c.P) == c.mapBlk[k][i]
    && BlankFrom(flash[k][c.mapBlk[k][i]], OffOf(misc[k].mapVpn[i], c.P) + 1)
  }

  /** The misc block of bank k has been programmed up to its write pointer, which starts in front of it. */
  ghost predicate MiscOk(c: Conf, flash: seq<seq<Block>>, misc: seq<Misc>, k: nat) {
    && k < |flash| && k < |misc| && MISCBLK_VBN < |flash[k]| && 0 < c.P == |flash[k][MISCBLK_VBN]|
    && (misc[k].miscVpn + 1 == MISCBLK_VBN * c.P || BlkOf(misc[k].miscVpn, c.P) == MISCBLK_VBN)
    && BlankFrom(flash[k][MISCBLK_VBN], misc[k].miscVpn + 1 - MISCBLK_VBN * c.P)
  }

  /** Where chunk n of the page map begins. */
  function Lo(c: Conf, n: nat): nat {
    n * c.PG()
  }

  /** Chunk n of table T; chunks go over the banks first, then over the map blocks. */
  function Chunk(c: Conf, T: seq<nat>, n: nat): seq<nat> {
    var lo := Lo(c, n);
    if lo <= |T| then (if lo + c.PG() <= |T| then T[lo..lo + c.PG()] else T[lo..]) else []
  }

  /** The current page of map block i of bank k holds words. */
  ghost predicate MapAt(c: Conf, flash: seq<seq<Block>>, misc: seq<Misc>, k: nat, i: nat, words: seq<nat>) {
    && MapOk(c, flash, misc, k, i)
    && flash[k][c.mapBlk[k][i]][OffOf(misc[k].mapVpn[i], c.P)] == MapPage(words)
  }

  /** The current page of the map block for chunk n holds that chunk. */
  ghost predicate ChunkHeld(c: Conf, T: seq<nat>, flash: seq<seq<Block>>, misc: seq<Misc>, n: nat) {
    0 < c.NB && MapAt(c, flash, misc, n % c.NB, n / c.NB, Chunk(c, T, n))
  }

  /** Chunk n belongs to map block i of bank k. */
  ghost predicate Place(c: Conf, n: nat, k: nat, i: nat) {
    k < c.NB && i < c.MB && k == n % c.NB && i == n / c.NB
  }

  /** The chunks below m are on flash. */
  ghost predicate Held(c: Conf, T: seq<nat>, flash: seq<seq<Block>>, misc: seq<Misc>, m: nat) {
    forall n: nat {:trigger ChunkHeld(c, T, flash, misc, n)} :: n < m ==> ChunkHeld(c, T, flash, misc, n)
  }

  /** The number of chunks of the table. */
  function Chunks(c: Conf): nat
    requires 0 < c.SE && 0 < c.SP
  {
    (c.RT() + c.PG() - 1) / c.PG()
  }

  /** Bank k's last misc page holds its misc metadata and its slice of vcount. */
  ghost predicate MiscHeld(c: Conf, V: seq<nat>, flash: seq<seq<Block>>, misc: seq<Misc>, k: nat) {
    && MiscOk(c, flash, misc, k) && BlkOf(misc[k].miscVpn, c.P) == MISCBLK_VBN
    && MiscIs(flash[k][MISCBLK_VBN][OffOf(misc[k].miscVpn, c.P)], misc[k], c, V, k)
  }

  ghost predicate MiscIs(page: Page, misc: Misc, c: Conf, V: seq<nat>, k: nat) {
    && page.MiscPage? && page.misc == misc
    && (k * c.R <= c.B ==> k * c.R + c.R <= |V| && page.vcount == V[k * c.R..k * c.R + c.R])
  }

  /** All metadata is on flash. */
  ghost predicate OnFlash(c: Conf, T: seq<nat>, V: seq<nat>, flash: seq<seq<Block>>, misc: seq<Misc>) {
    && |misc| == c.NB && 0 < c.SE && 0 < c.SP
    && Held(c, T, flash, misc, Chunks(c))
    && forall k: nat {:trigger MiscHeld(c, V, flash, misc, k)} :: k < c.NB ==> MiscHeld(c, V, flash, misc, k)
  }

  ghost predicate Sized(c: Conf, table: seq<nat>, vc: seq<nat>, flash: seq<seq<Block>>, misc: seq<Misc>) {
    && ConfOk(c) && |table| == c.RT() && c.NB * c.R <= |vc| && |flash| == |misc| == c.NB
  }

  /** The state between two flushes. */
  ghost predicate Ok(c: Conf, table: seq<nat>, vc: seq<nat>, flash: seq<seq<Block>>, misc: seq<Misc>) {
    && Sized(c, table, vc, flash, misc)
    && (forall k: nat, i: nat {:trigger MapOk(c, flash, misc, k, i)} :: k < c.NB && i < c.MB ==>
      MapOk(c, flash, misc, k, i))
    && (forall k: nat {:trigger MiscOk(c, flash, misc, k)} :: k < c.NB ==> MiscOk(c, flash, misc, k))
  }

  // ----- the loops over chunks -----

  lemma LoNext(c: Conf, n: nat)
    ensures Lo(c, n + 1) == Lo(c, n) + c.PG() && Lo(c, 0) == 0
  {
    assert (n + 1) * c.PG() == n * c.PG() + c.PG();
  }

  /**
   The unrounded end of the page map and the rounded one stop the loops over chunks at the same chunk, with
   as much to go.
   */
  lemma ChunkEnds(c: Conf, n: nat)
    requires ConfOk(c)
    ensures Lo(c, n) >= c.NL <==> Lo(c, n) >= c.RT()
    ensures Lo(c, n) + c.PG() >= c.NL <==> Lo(c, n) + c.PG() >= c.RT()
    ensures Lo(c, n) < c.RT() ==>
            RoundUp(c.NL - Lo(c, n), c.SE) == RoundUp(c.RT() - Lo(c, n), c.SE) == c.RT() - Lo(c, n)
  {
    LoNext(c, n);
    LoSectors(c, n);
    LoSectors(c, n + 1);
    EndsAgree(c.NL, c.SE, n * c.SP);
    EndsAgree(c.NL, c.SE, (n + 1) * c.SP);
    RoundTwice(c.NL, c.SE);
    EndsAgree(c.RT(), c.SE, n * c.SP);
  }

  lemma LoSectors(c: Conf, n: nat)
    ensures Lo(c, n) == n * c.SP * c.SE
  {
    assert n * (c.SE * c.SP) == n * c.SP * c.SE;
  }

  lemma RoundTwice(n: nat, m: nat)
    requires 0 < m
    ensures RoundUp(RoundUp(n, m), m) == RoundUp(n, m)
  {
    RoundUpLeast(n, m);
    var k: nat :| RoundUp(n, m) == k * m;
    Striping.DivMod(k, m, m - 1);
  }

  lemma ChunksEnd(c: Conf, n: nat)
    requires ConfOk(c)
    ensures 0 < c.PG()
    ensures Lo(c, n) >= c.RT() ==> Chunks(c) <= n
    ensures Lo(c, n) + c.PG() >= c.RT() ==> Chunks(c) <= n + 1
    ensures Lo(c, n) < c.RT() ==> n < Chunks(c)
  {
    MulOrder(0, c.SE, c.SP);
    LoNext(c, n);
    RoundUpLeast(c.RT(), c.PG());
    MulOrder(n, Chunks(c), c.PG());
    MulOrder(n + 1, Chunks(c), c.PG());
    MulOrder(Chunks(c), n, c.PG());
  }

  lemma PlaceOf(c: Conf, n: nat, k: nat, i: nat)
    requires k < c.NB && i < c.MB && n == i * c.NB + k
    ensures Place(c, n, k, i)
  {
    Striping.DivMod(i, c.NB, k);
  }

  // ----- saving -----

  /** Only the write pointers of the metadata area differ. */
  ghost predicate SameData(s: seq<Misc>, t: seq<Misc>) {
    |s| == |t| && forall k :: 0 <= k < |s| ==> t[k] == s[k].(miscVpn := t[k].miscVpn, mapVpn := t[k].mapVpn)
  }

  /** Map block i of bank k has got a new current page v, its block being now blk. */
  ghost function MapLogged(flash: seq<seq<Block>>, k: nat, b: nat, blk: Block): seq<seq<Block>>
    requires k < |flash| && b < |flash[k]|
  {
    flash[k := flash[k][b := blk]]
  }

  ghost function MapMoved(misc: seq<Misc>, k: nat, i: nat, v: nat): seq<Misc>
    requires k < |misc| && i < |misc[k].mapVpn|
  {
    misc[k := misc[k].(mapVpn := misc[k].mapVpn[i := v])]
  }

  /** Saving a chunk moves one write pointer and programs one page. */
  lemma LoggedOk(c: Conf, T: seq<nat>, vc: seq<nat>, flash: seq<seq<Block>>, misc: seq<Misc>, k: nat, i: nat, v: nat,
      blk: Block, words: seq<nat>)
    requires Ok(c, T, vc, flash, misc) && k < c.NB && i < c.MB
    requires |blk| == c.P && BlkOf(v, c.P) == c.mapBlk[k][i] && BlankFrom(blk, OffOf(v, c.P) + 1) &&
             blk[OffOf(v, c.P)] == MapPage(words)
    ensures MapOk(c, flash, misc, k, i)
    ensures var f, s := MapLogged(flash, k, c.mapBlk[k][i], blk), MapMoved(misc, k, i, v);
            Ok(c, T, vc, f, s) && MapAt(c, f, s, k, i, words)
  {
    assert MapOk(c, flash, misc, k, i);
    var f, s := MapLogged(flash, k, c.mapBlk[k][i], blk), MapMoved(misc, k, i, v);
    forall l: nat, j: nat | l < c.NB && j < c.MB ensures MapOk(c, f, s, l, j) {
      assert MapOk(c, flash, misc, l, j);
      assert l == k && j < i ==> c.mapBlk[k][j] != c.mapBlk[k][i];
      assert l == k && i < j ==> c.mapBlk[k][i] != c.mapBlk[k][j];
    }
    forall l: nat | l < c.NB ensures MiscOk(c, f, s, l) { assert MiscOk(c, flash, misc, l); }
  }

  /** What was saved before stays. */
  lemma LoggedHeld(c: Conf, T: seq<nat>, flash: seq<seq<Block>>, misc: seq<Misc>, n: nat, k: nat, i: nat, v: nat,
      blk: Block)
    requires ConfOk(c) && Place(c, n, k, i) && MapOk(c, flash, misc, k, i)
    requires Held(c, T, flash, misc, n)
    requires MapAt(c, MapLogged(flash, k, c.mapBlk[k][i], blk), MapMoved(misc, k, i, v), k, i, Chunk(c, T, n))
    ensures Held(c, T, MapLogged(flash, k, c.mapBlk[k][i], blk), MapMoved(misc, k, i, v), n + 1)
  {
    var f, s := MapLogged(flash, k, c.mapBlk[k][i], blk), MapMoved(misc, k, i, v);
    hide MapAt, MapOk, MapLogged, MapMoved, Chunk, ChunkHeld, Place;
    ChunkIs(c, T, f, s, n, k, i);
    forall m: nat | m < n + 1 ensures ChunkHeld(c, T, f, s, m) {
      if m < n {
        assert ChunkHeld(c, T, flash, misc, m);
        ChunkStill(c, T, flash, misc, n, m, k, i, v, blk);
      }
    }
  }

  lemma ChunkIs(c: Conf, T: seq<nat>, flash: seq<seq<Block>>, misc: seq<Misc>, n: nat, k: nat, i: nat)
    requires Place(c, n, k, i)
    ensures ChunkHeld(c, T, flash, misc, n) <==> MapAt(c, flash, misc, k, i, Chunk(c, T, n))
  {
  }

  lemma ChunkStill(c: Conf, T: seq<nat>, flash: seq<seq<Block>>, misc: seq<Misc>, n: nat, m: nat, k: nat, i: nat,
      v: nat, blk: Block)
    requires ConfOk(c) && Place(c, n, k, i) && MapOk(c, flash, misc, k, i)
    requires m < n && ChunkHeld(c, T, flash, misc, m)
    ensures ChunkHeld(c, T, MapLogged(flash, k, c.mapBlk[k][i], blk), MapMoved(misc, k, i, v), m)
  {
    var f, s := MapLogged(flash, k, c.mapBlk[k][i], blk), MapMoved(misc, k, i, v);
    hide ChunkHeld, Place, MapAt, MapOk, MapLogged, MapMoved, Chunk;
    var l, j := OtherPlace(c, m, n, k, i);
    ChunkIs(c, T, flash, misc, m, l, j);
    ChunkIs(c, T, f, s, m, l, j);
    Places(c, m, l, j);
    Places(c, n, k, i);
    StillAt(c, flash, misc, k, i, l, j, v, blk, Chunk(c, T, m));
  }

  lemma OtherPlace(c: Conf, m: nat, n: nat, k: nat, i: nat) returns (l: nat, j: nat)
    requires Place(c, n, k, i) && m < n
    ensures Place(c, m, l, j) && (k != l || i != j)
  {
    OtherChunk(c.NB, m, n);
    l, j := m % c.NB, m / c.NB;
  }

  lemma OtherChunk(NB: nat, m: nat, n: nat)
    requires 0 < NB && m < n
    ensures m / NB <= n / NB && (m % NB != n % NB || m / NB != n / NB)
  {
    assert m == m / NB * NB + m % NB && n == n / NB * NB + n % NB;
    MulOrder(n / NB, m / NB, NB);
  }

  lemma StillAt(c: Conf, flash: seq<seq<Block>>, misc: seq<Misc>, k: nat, i: nat, l: nat, j: nat, v: nat, blk: Block,
      words: seq<nat>)
    requires ConfOk(c) && k < c.NB && i < c.MB && l < c.NB && j < c.MB && (k != l || i != j)
    requires MapOk(c, flash, misc, k, i) && MapAt(c, flash, misc, l, j, words)
    ensures MapAt(c, MapLogged(flash, k, c.mapBlk[k][i], blk), MapMoved(misc, k, i, v), l, j, words)
  {
    assert l == k && j < i ==> c.mapBlk[k][j] != c.mapBlk[k][i];
    assert l == k && i < j ==> c.mapBlk[k][i] != c.mapBlk[k][j];
  }

  /** The page after vpn v, in the same block unless v is its last page. */
  lemma NextVpn(v: nat, P: nat)
    requires 2 <= P
    ensures OffOf(v + 1, P) == 0 ==>
            OffOf(v, P) == P - 1 && BlkOf(FirstVpn(v, P), P) == BlkOf(v, P) && OffOf(FirstVpn(v, P), P) == 0
    ensures OffOf(v + 1, P) != 0 ==> BlkOf(v + 1, P) == BlkOf(v, P) && OffOf(v + 1, P) == OffOf(v, P) + 1
    ensures OffOf(v, P) < P && OffOf(v + 1, P) < P
  {
    assert v == v / P * P + v % P;
    Striping.DivMod(v / P, P, 0);
    if v % P + 1 < P {
      Striping.DivMod(v / P, P, v % P + 1);
    } else {
      assert (v / P + 1) * P == v + 1;
      Striping.DivMod(v / P + 1, P, 0);
    }
  }

  // ----- saving the misc metadata -----

  ghost predicate AllMaps(c: Conf, flash: seq<seq<Block>>, misc: seq<Misc>) {
    forall k: nat, i: nat {:trigger MapOk(c, flash, misc, k, i)} :: k < c.NB && i < c.MB ==> MapOk(c, flash, misc, k, i)
  }

  /** The misc page of bank k is about to be programmed. */
  ghost predicate MiscReady(c: Conf, flash: seq<seq<Block>>, misc: seq<Misc>, k: nat) {
    && k < |flash| && k < |misc| && MISCBLK_VBN < |flash[k]| && 0 < c.P == |flash[k][MISCBLK_VBN]|
    && BlkOf(misc[k].miscVpn, c.P) == MISCBLK_VBN && OffOf(misc[k].miscVpn, c.P) < c.P
    && BlankFrom(flash[k][MISCBLK_VBN], OffOf(misc[k].miscVpn, c.P))
  }

  ghost function MiscMoved(misc: seq<Misc>, k: nat, v: nat): seq<Misc>
    requires k < |misc|
  {
    misc[k := misc[k].(miscVpn := v)]
  }

  /** What happens in a misc block leaves the map blocks alone. */
  lemma MiscApart(c: Conf, T: seq<nat>, flash: seq<seq<Block>>, misc: seq<Misc>, k: nat, v: nat, blk: Block, m: nat)
    requires ConfOk(c) && |flash| == |misc| == c.NB && k < c.NB && MISCBLK_VBN < |flash[k]|
    requires AllMaps(c, flash, misc) && Held(c, T, flash, misc, m)
    ensures var f, s := MapLogged(flash, k, MISCBLK_VBN, blk), MiscMoved(misc, k, v);
            AllMaps(c, f, s) && Held(c, T, f, s, m)
  {
    var f, s := MapLogged(flash, k, MISCBLK_VBN, blk), MiscMoved(misc, k, v);
    forall l: nat, i: nat | l < c.NB && i < c.MB ensures MapOk(c, f, s, l, i) { assert MapOk(c, flash, misc, l, i); }
    forall n: nat | n < m ensures ChunkHeld(c, T, f, s, n) { assert ChunkHeld(c, T, flash, misc, n); }
  }

  class Store {
    const c: Conf
    var flash: seq<seq<Block>> // [bank][vblock][page]
    var misc: seq<Misc>        // g_misc_meta
    var table: seq<nat>        // the page map, rounded up
    var vcount: seq<nat>       // the memory from VCOUNT_ADDR on

    ghost predicate Valid()
      reads this
    {
      Ok(c, table, vcount, flash, misc)
    }

    /** What format leaves, as far as the metadata area goes: erased blocks, and init_metadata_sram's write pointers. */
    constructor (c: Conf, flash: seq<seq<Block>>, misc: seq<Misc>, table: seq<nat>, vcount: seq<nat>)
      requires Sized(c, table, vcount, flash, misc)
      requires forall k :: 0 <= k < c.NB ==> Fresh(c, flash[k], misc[k], k)
      ensures Valid() && this.c == c
    {
      this.c, this.flash, this.misc, this.table, this.vcount := c, flash, misc, table, vcount;
      new;
      FreshOk(c, table, vcount, flash, misc);
    }

    method NandPageProgram(k: nat, vpn: nat, page: Page)
      requires k < |flash| && 0 < c.P && BlkOf(vpn, c.P) < |flash[k]| && |flash[k][BlkOf(vpn, c.P)]| == c.P
      requires BlankFrom(flash[k][BlkOf(vpn, c.P)], OffOf(vpn, c.P))
      modifies `flash
      ensures flash == MapLogged(old(flash), k, BlkOf(vpn, c.P),
              old(flash)[k][BlkOf(vpn, c.P)][OffOf(vpn, c.P) := page])
      ensures |flash| == |old(flash)|
    {
      var blk := flash[k][BlkOf(vpn, c.P)][OffOf(vpn, c.P) := page];
      flash := flash[k := flash[k][BlkOf(vpn, c.P) := blk]];
    }

    method NandBlockErase(k: nat, b: nat)
      requires k < |flash| && b < |flash[k]|
      modifies `flash
      ensures flash == MapLogged(old(flash), k, b, ErasedBlock(c.P))
    {
      flash := flash[k := flash[k][b := ErasedBlock(c.P)]];
    }

    /** The write pointer of map block i of bank k moves to the next page; a full block is erased first. */
    method AdvanceMap(k: nat, i: nat) returns (vpn: nat, ghost blk: Block)
      requires 2 <= c.P && MapOk(c, flash, misc, k, i)
      modifies `flash, `misc
      ensures var b := c.mapBlk[k][i];
              && BlkOf(vpn, c.P) == b && |blk| == c.P && OffOf(vpn, c.P) < c.P && BlankFrom(blk, OffOf(vpn, c.P))
              && k < |old(flash)| && b < |old(flash[k])| && k < |old(misc)| && i < |old(misc[k]).mapVpn|
              && flash == MapLogged(old(flash), k, b, blk) && misc == MapMoved(old(misc), k, i, vpn)
    {
      hide BlkOf, OffOf, FirstVpn;
      NextVpn(misc[k].mapVpn[i], c.P);
      blk := flash[k][c.mapBlk[k][i]];
      assert flash[k][c.mapBlk[k][i] := blk] == flash[k] && flash[k := flash[k]] == flash;
      vpn := misc[k].mapVpn[i] + 1;
      if OffOf(vpn, c.P) == 0 {
        NandBlockErase(k, BlkOf(vpn - 1, c.P));
        vpn := FirstVpn(vpn - 1, c.P);
        blk := ErasedBlock(c.P);
      }
      misc := misc[k := misc[k].(mapVpn := misc[k].mapVpn[i := vpn])];
    }

    /** One round of logging_pmap_table: chunk n goes to the next page of its map block. */
    method LogChunk(k: nat, i: nat, words: seq<nat>, ghost n: nat)
      requires Valid() && Place(c, n, k, i)
      requires words == Chunk(c, table, n) && Held(c, table, flash, misc, n)
      modifies `flash, `misc
      ensures Valid() && Held(c, table, flash, misc, n + 1) && SameData(old(misc), misc)
    {
      hide Ok, Held, ErasedBlock, Chunk, BlkOf, OffOf, FirstVpn, Place;
      Places(c, n, k, i);
      ghost var f, s := flash, misc;
      OkMap(c, table, vcount, f, s, k, i);
      var vpn;
      ghost var blk;
      vpn, blk := AdvanceMap(k, i);
      NandPageProgram(k, vpn, MapPage(words));
      LoggedTwice(f, k, c.mapBlk[k][i], blk, blk[OffOf(vpn, c.P) := MapPage(words)]);
      blk := blk[OffOf(vpn, c.P) := MapPage(words)];
      LoggedOk(c, table, vcount, f, s, k, i, vpn, blk, words);
      LoggedHeld(c, table, f, s, n, k, i, vpn, blk);
    }

    /** logging_pmap_table. */
    method LoggingPmapTable()
      requires Valid()
      modifies `flash, `misc
      ensures Valid() && Held(c, table, flash, misc, Chunks(c)) && SameData(old(misc), misc)
    {
      hide Ok, Held, Chunk, Chunks, Lo, Place, RoundUp;
      OkSizes(c, table, vcount, flash, misc);
      HeldNone(c, table, flash, misc);
      var addr, words, finished := 0, c.PG(), false;
      LoNext(c, 0);
      ghost var n := 0;
      var lbn := 0;
      while lbn < c.MB && !finished
        invariant lbn <= c.MB && Valid() && SameData(old(misc), misc)
        invariant Held(c, table, flash, misc, if finished then Chunks(c) else n)
        invariant !finished ==> addr == Lo(c, n) && n == lbn * c.NB && words == c.PG()
        decreases c.MB - lbn
      {
        var bank := 0;
        while bank < c.NB && !finished
          invariant bank <= c.NB && Valid() && SameData(old(misc), misc)
          invariant Held(c, table, flash, misc, if finished then Chunks(c) else n)
          invariant !finished ==> addr == Lo(c, n) && n == lbn * c.NB + bank && words == c.PG()
          decreases c.NB - bank, !finished
        {
          ChunksEnd(c, n);
          if addr >= c.RT() {
            finished := true;
            HeldLess(c, table, flash, misc, Chunks(c), n);
          } else {
            ChunkEnds(c, n);
            if addr + c.PG() >= c.RT() {
              finished := true;
              words := RoundUp(c.RT() - addr, c.SE);
            }
            PlaceOf(c, n, bank, lbn);
            ChunkWords(c, table, n, words);
            LogChunk(bank, lbn, table[addr..addr + words], n);
            addr := addr + words;
            LoNext(c, n);
            n := n + 1;
            if finished { HeldLess(c, table, flash, misc, Chunks(c), n); }
            bank := bank + 1;
          }
        }
        lbn := lbn + 1;
        assert lbn * c.NB == (lbn - 1) * c.NB + c.NB;
      }
      if !finished {
        AllChunks(c);
        HeldLess(c, table, flash, misc, Chunks(c), n);
      }
    }

    /** The write pointer of bank k's misc block moves to the next page; a full block is erased first. */
    method AdvanceMisc(k: nat) returns (ghost v: nat, ghost blk: Block)
      requires 2 <= c.P && MiscOk(c, flash, misc, k)
      modifies `flash, `misc
      ensures k < |old(misc)| && k < |old(flash)| && MISCBLK_VBN < |old(flash)[k]|
      ensures misc == MiscMoved(old(misc), k, v) && flash == MapLogged(old(flash), k, MISCBLK_VBN, blk)
      ensures MiscReady(c, flash, misc, k) && |flash| == |old(flash)| && |misc| == |old(misc)|
    {
      hide BlkOf, OffOf, ErasedBlock;
      MiscNext(c, misc[k].miscVpn);
      blk := flash[k][MISCBLK_VBN];
      assert flash[k][MISCBLK_VBN := blk] == flash[k] && flash[k := flash[k]] == flash;
      misc := misc[k := misc[k].(miscVpn := misc[k].miscVpn + 1)];
      if BlkOf(misc[k].miscVpn, c.P) != MISCBLK_VBN {
        NandBlockErase(k, MISCBLK_VBN);
        blk := ErasedBlock(c.P);
        misc := misc[k := misc[k].(miscVpn := MISCBLK_VBN * c.P)];
      }
      v := misc[k].miscVpn;
    }

    /** The first loop of logging_misc_metadata: pages are found and buffers filled. */
    method FillBuffers() returns (bufs: seq<Page>)
      requires Valid() && Held(c, table, flash, misc, Chunks(c))
      modifies `flash, `misc
      ensures |flash| == |misc| == c.NB && |bufs| == c.NB && SameData(old(misc), misc)
      ensures AllMaps(c, flash, misc) && Held(c, table, flash, misc, Chunks(c)) &&
              Filled(c, vcount, flash, misc, bufs, c.NB)
    {
      hide Ok, Held, Chunk, Chunks, AllMaps, Filled, MiscReady, MiscOk, BlkOf, OffOf, MapLogged, MiscMoved,
        SliceAddr, SameData;
      SameDataRefl(misc);
      OkSizes(c, table, vcount, flash, misc);
      FilledNone(c, table, vcount, flash, misc);
      bufs := [];
      var addr: nat := 0;
      for bank := 0 to c.NB
        invariant |bufs| == bank && |flash| == |misc| == c.NB && SameData(old(misc), misc)
        invariant AllMaps(c, flash, misc) && Held(c, table, flash, misc, Chunks(c))
        invariant Filled(c, vcount, flash, misc, bufs, bank)
        invariant SliceAddr(c, addr, bank)
      {
        ghost var f, s := flash, misc;
        FilledAt(c, vcount, f, s, bufs, bank);
        ghost var v, blk;
        v, blk := AdvanceMisc(bank);
        MiscApart(c, table, f, s, bank, v, blk, Chunks(c));
        MovedData(old(misc), s, bank, v);
        SliceNext(c, addr, bank, |vcount|);
        var page;
        if addr <= c.B {
          page := MiscPage(misc[bank], vcount[addr..addr + c.R]);
          addr := addr + c.R;
        } else {
          page := MiscPage(misc[bank], []);
        }
        FilledNext(c, vcount, f, s, bufs, bank, v, blk, page);
        bufs := bufs + [page];
      }
    }

    /** logging_misc_metadata. */
    method LoggingMiscMetadata()
      requires Valid() && Held(c, table, flash, misc, Chunks(c))
      modifies `flash, `misc
      ensures Valid() && OnFlash(c, table, vcount, flash, misc) && SameData(old(misc), misc)
    {
      hide Ok, Held, Chunk, Chunks, AllMaps, Filled, Programmed, MiscReady, MiscOk, BlkOf, OffOf, MapLogged;
      OkSizes(c, table, vcount, flash, misc);
      var bufs := FillBuffers();
      ProgrammedNone(c, vcount, flash, misc, bufs);
      for bank := 0 to c.NB
        modifies `flash
        invariant |flash| == |misc| == c.NB && |bufs| == c.NB
        invariant AllMaps(c, flash, misc) && Held(c, table, flash, misc, Chunks(c))
        invariant Programmed(c, vcount, flash, misc, bufs, bank)
      {
        ghost var f := flash;
        ProgrammedAt(c, vcount, f, misc, bufs, bank);
        NandPageProgram(bank, misc[bank].miscVpn, bufs[bank]);
        ghost var blk := f[bank][MISCBLK_VBN][OffOf(misc[bank].miscVpn, c.P) := bufs[bank]];
        assert misc == MiscMoved(misc, bank, misc[bank].miscVpn);
        MiscApart(c, table, f, misc, bank, misc[bank].miscVpn, blk, Chunks(c));
        ProgrammedNext(c, vcount, f, misc, bufs, bank);
      }
      ProgrammedAll(c, table, vcount, flash, misc, bufs);
    }

    /** ftl_flush. */
    method FtlFlush()
      requires Valid()
      modifies `flash, `misc
      ensures Valid() && OnFlash(c, table, vcount, flash, misc) && SameData(old(misc), misc)
    {
      LoggingPmapTable();
      LoggingMiscMetadata();
    }

    /** load_misc_metadata: the last page of each misc block that is not erased is the newest. */
    method LoadMiscMetadata(ghost V: seq<nat>, ghost M: seq<Misc>)
      requires ConfOk(c) && |M| == c.NB && |vcount| == |V| && c.NB * c.R <= |V| && MiscSaved(c, V, flash, M)
      modifies `misc, `vcount
      ensures misc == M && |vcount| == |V| && forall q :: 0 <= q < c.B ==> vcount[q] == V[q]
    {
      hide Scanned, MiscIs, OffOf, BlkOf, MiscSaved;
      var bufs := NoPages(c.NB);
      var loaded: set<nat>, loadCnt: nat := {}, 0;
      ScanStarts(c, V, flash, M, bufs);
      var page := c.P - 1;
      while page >= 0
        modifies {}
        invariant -1 <= page < c.P && |bufs| == |M| == c.NB && |loaded| == loadCnt
        invariant if page >= 0 then Scanned(c, V, M, bufs, loaded, page, 0) else Scanned(c, V, M, bufs, loaded, 0, c.NB)
      {
        for bank := 0 to c.NB
          invariant |bufs| == c.NB && |loaded| == loadCnt
          invariant Scanned(c, V, M, bufs, loaded, page, bank)
        {
          ScanBank(c, V, flash, M, bufs, loaded, page, bank);
          if bank !in loaded {
            bufs := bufs[bank := flash[bank][MISCBLK_VBN][page]];
            if bufs[bank] != Erased {
              loaded := loaded + {bank};
              loadCnt := loadCnt + 1;
            }
          }
        }
        if page > 0 { ScanPage(c, V, M, bufs, loaded, page); }
        page := page - 1;
      }
      ScanEnds(c, V, M, bufs, loaded);
      assert loadCnt == c.NB;
      CopyMisc(bufs, V, M);
    }

    /** The first inner loop of load_pmap_table: the pages of map blocks lbn of all banks come into the buffers. */
    method ReadChunks(lbn: nat, start: nat, ghost T: seq<nat>) returns (bufs: seq<seq<nat>>, addr: nat, finished: bool)
      requires ConfOk(c) && |T| == c.RT() && lbn < c.MB && start == Lo(c, lbn * c.NB)
      requires Held(c, T, flash, misc, Chunks(c))
      ensures |bufs| <= c.NB && Buffered(c, T, bufs, lbn * c.NB)
      ensures !finished ==> |bufs| == c.NB && addr == Lo(c, lbn * c.NB + c.NB)
      ensures finished ==> Chunks(c) <= lbn * c.NB + |bufs|
    {
      hide Held, Chunk, Chunks, Lo, Place, RoundUp, BlkOf, OffOf, Buffered;
      bufs, addr, finished := [], start, false;
      var words, bank := c.PG(), 0;
      BufferedNone(c, T, lbn * c.NB);
      while bank < c.NB && !finished
        invariant |bufs| <= bank <= c.NB && Buffered(c, T, bufs, lbn * c.NB)
        invariant !finished ==> |bufs| == bank && addr == Lo(c, lbn * c.NB + bank) && words == c.PG()
        invariant finished ==> Chunks(c) <= lbn * c.NB + |bufs|
        decreases c.NB - bank, !finished
      {
        ghost var n := lbn * c.NB + bank;
        ChunksEnd(c, n);
        ChunkEnds(c, n);
        if addr >= c.NL {
          finished := true;
        } else {
          if addr + c.PG() >= c.NL {
            finished := true;
            words := RoundUp(c.NL - addr, c.SE);
          }
          PlaceOf(c, n, bank, lbn);
          ChunkWords(c, T, n, words);
          HeldPage(c, T, flash, misc, n, bank, lbn);
          var vpn := misc[bank].mapVpn[lbn];
          var page := flash[bank][BlkOf(vpn, c.P)][OffOf(vpn, c.P)];
          BufferedNext(c, T, bufs, lbn * c.NB, page.words[..words]);
          bufs := bufs + [page.words[..words]];
          addr := addr + words;
          LoNext(c, n);
          bank := bank + 1;
        }
      }
    }

    /** The second inner loop: the buffers are copied into the page map. */
    method CopyChunks(bufs: seq<seq<nat>>, n0: nat, start: nat, finished: bool, ghost T: seq<nat>)
      requires ConfOk(c) && |table| == |T| == c.RT() && start == Lo(c, n0)
      requires |bufs| <= c.NB && Buffered(c, T, bufs, n0) && (!finished ==> |bufs| == c.NB) &&
               (finished ==> Chunks(c) <= n0 + |bufs|)
      requires Restored(table, T, start)
      modifies `table
      ensures |table| == |T| && Restored(table, T, if finished then |T| else Lo(c, n0 + c.NB))
    {
      hide Chunk, Chunks, Lo, RoundUp, Buffered, Restored;
      var temp: nat, words: nat, bank: nat, stop := start, c.PG(), 0, false;
      while bank < c.NB && !stop
        invariant bank <= c.NB && |table| == |T| && Restored(table, T, temp)
        invariant temp == Lo(c, n0 + bank) || c.RT() <= temp
        invariant stop ==> c.RT() <= temp
        invariant words == c.PG() || c.RT() <= temp
        decreases c.NB - bank, !stop
      {
        ghost var n := n0 + bank;
        ChunksEnd(c, n);
        ChunkEnds(c, n);
        RoundUpLeast(c.NL, c.SE);
        if temp >= c.NL {
          stop := true;
        } else {
          if temp + c.PG() >= c.NL {
            words := RoundUp(c.NL - temp, c.SE);
          }
          ChunkWords(c, T, n, words);
          BufferedAt(c, T, bufs, n0, bank);
          RestoredNext(table, T, temp, bufs[bank]);
          table := table[..temp] + bufs[bank] + table[temp + words..];
          temp := temp + words;
          LoNext(c, n);
          bank := bank + 1;
        }
      }
      ChunksEnd(c, n0 + c.NB);
      RestoredEnd(c, table, T, temp, n0, |bufs|, finished, stop);
    }

    /** load_pmap_table. */
    method LoadPmapTable(ghost T: seq<nat>)
      requires ConfOk(c) && |table| == |T| == c.RT() && Held(c, T, flash, misc, Chunks(c))
      modifies `table
      ensures table == T
    {
      hide Held, Chunks, Lo, Buffered, Restored;
      RestoredNone(table, T);
      LoNext(c, 0);
      var addr, finished, lbn: nat := 0, false, 0;
      while lbn < c.MB && !finished
        invariant lbn <= c.MB && |table| == |T| && Restored(table, T, if finished then |T| else addr)
        invariant !finished ==> addr == Lo(c, lbn * c.NB)
        decreases c.MB - lbn, !finished
      {
        var start := addr;
        var bufs;
        bufs, addr, finished := ReadChunks(lbn, start, T);
        CopyChunks(bufs, lbn * c.NB, start, finished, T);
        assert (lbn + 1) * c.NB == lbn * c.NB + c.NB;
        lbn := lbn + 1;
      }
      RestoredAll(c, table, T, addr, finished);
    }

    /** load_metadata. */
    method LoadMetadata(ghost T: seq<nat>, ghost V: seq<nat>, ghost M: seq<Misc>)
      requires Sized(c, table, vcount, flash, M) && |T| == |table| && |V| == |vcount| && OnFlash(c, T, V, flash, M)
      modifies `table, `vcount, `misc
      ensures table == T && misc == M && |vcount| == |V| && forall q :: 0 <= q < c.B ==> vcount[q] == V[q]
    {
      hide Held, MiscHeld;
      SavedMisc(c, T, V, flash, M);
      LoadMiscMetadata(V, M);
      LoadPmapTable(T);
    }

    /** The power is off: what was in memory is lost. */
    method LoseMemory()
      modifies `table, `vcount, `misc
      ensures |table| == |old(table)| && |vcount| == |old(vcount)|
    {
      var t: seq<nat> :| |t| == |table|;
      var v: seq<nat> :| |v| == |vcount|;
      table, vcount, misc := t, v, *;
    }

    /** Flushed, switched off and opened again, the device knows what it knew. */
    method PowerCycle()
      requires Valid()
      modifies `flash, `table, `vcount, `misc
      ensures Valid() && table == old(table) && SameData(old(misc), misc)
      ensures |vcount| == |old(vcount)| && forall q :: 0 <= q < c.B ==> vcount[q] == old(vcount)[q]
    {
      hide OnFlash, SameData;
      FtlFlush();
      ghost var T, V, M := table, vcount, misc;
      LoseMemory();
      LoadMetadata(T, V, M);
      OkAnyCounts(c, T, V, vcount, flash, misc);
    }

    /** Between flushes the FTL changes the tables and its own part of the misc metadata. */
    method UpdateMemory(t: seq<nat>, v: seq<nat>, ms: seq<Misc>)
      requires Valid() && |t| == |table| && |v| == |vcount| && |ms| == |misc|
      requires forall k :: 0 <= k < |ms| ==> ms[k].miscVpn == misc[k].miscVpn && ms[k].mapVpn == misc[k].mapVpn
      modifies `table, `vcount, `misc
      ensures Valid() && table == t && vcount == v && misc == ms
    {
      OkAnyMemory(c, table, vcount, flash, misc, t, v, ms);
      table, vcount, misc := t, v, ms;
    }

    /** The last loop of load_misc_metadata. */
    method CopyMisc(bufs: seq<Page>, ghost V: seq<nat>, ghost M: seq<Misc>)
      requires ConfOk(c) && |bufs| == |M| == c.NB && c.NB * c.R <= |V| == |vcount|
      requires forall k: nat :: k < c.NB ==> MiscIs(bufs[k], M[k], c, V, k)
      modifies `misc, `vcount
      ensures misc == M && |vcount| == |V| && forall q :: 0 <= q < c.B ==> vcount[q] == V[q]
    {
      hide SliceAddr;
      misc := [];
      var addr: nat := 0;
      SliceStarts(c);
      for bank := 0 to c.NB
        invariant misc == M[..bank] && |vcount| == |V| && SliceAddr(c, addr, bank)
        invariant addr <= |V| && forall q :: 0 <= q < addr ==> vcount[q] == V[q]
      {
        SliceNext(c, addr, bank, |V|);
        assert MiscIs(bufs[bank], M[bank], c, V, bank);
        misc := misc + [bufs[bank].misc];
        if addr <= c.B {
          vcount := vcount[..addr] + bufs[bank].vcount + vcount[addr + c.R..];
          addr := addr + c.R;
        }
      }
      SliceEnds(c, addr);
    }
  }

  /** The buffers of the first j banks are filled, and their misc pages wait to be programmed. */
  ghost predicate Filled(c: Conf, V: seq<nat>, flash: seq<seq<Block>>, misc: seq<Misc>, bufs: seq<Page>, j: nat) {
    && j <= |bufs| && |misc| == c.NB
    && (forall k: nat {:trigger MiscReady(c, flash, misc, k)} :: k < j && k < c.NB ==>
      MiscReady(c, flash, misc, k) && MiscIs(bufs[k], misc[k], c, V, k))
    && (forall k: nat {:trigger MiscOk(c, flash, misc, k)} :: j <= k < c.NB ==> MiscOk(c, flash, misc, k))
  }

  lemma FilledNone(c: Conf, T: seq<nat>, V: seq<nat>, flash: seq<seq<Block>>, misc: seq<Misc>)
    requires Ok(c, T, V, flash, misc)
    ensures Filled(c, V, flash, misc, [], 0) && AllMaps(c, flash, misc) && SliceAddr(c, 0, 0)
  {
    forall k: nat | k < c.NB ensures MiscOk(c, flash, misc, k) {}
    forall k: nat, i: nat | k < c.NB && i < c.MB ensures MapOk(c, flash, misc, k, i) {}
  }

  lemma FilledAt(c: Conf, V: seq<nat>, flash: seq<seq<Block>>, misc: seq<Misc>, bufs: seq<Page>, j: nat)
    requires Filled(c, V, flash, misc, bufs, j) && j < c.NB
    ensures MiscOk(c, flash, misc, j) && j < |flash| && MISCBLK_VBN < |flash[j]|
  {
    assert MiscOk(c, flash, misc, j);
  }

  lemma FilledNext(c: Conf, V: seq<nat>, flash: seq<seq<Block>>, misc: seq<Misc>, bufs: seq<Page>, j: nat, v: nat,
      blk: Block, page: Page)
    requires Filled(c, V, flash, misc, bufs, j) && |bufs| == j < c.NB == |flash| && MISCBLK_VBN < |flash[j]|
    requires var f, s := MapLogged(flash, j, MISCBLK_VBN, blk), MiscMoved(misc, j, v);
             MiscReady(c, f, s, j) && MiscIs(page, s[j], c, V, j)
    ensures Filled(c, V, MapLogged(flash, j, MISCBLK_VBN, blk), MiscMoved(misc, j, v), bufs + [page], j + 1)
  {
    var f, s := MapLogged(flash, j, MISCBLK_VBN, blk), MiscMoved(misc, j, v);
    forall k: nat | k < j
      ensures MiscReady(c, f, s, k) &&
              MiscIs((bufs + [page])[k], s[k], c, V, k) { assert MiscReady(c, flash, misc, k); }
    forall k: nat | j < k < c.NB ensures MiscOk(c, f, s, k) { assert MiscOk(c, flash, misc, k); }
  }

  /** The slices go along the memory until they pass the end of vcount. */
  ghost predicate SliceAddr(c: Conf, addr: nat, k: nat) {
    if k * c.R <= c.B then addr == k * c.R else c.B < addr
  }

  lemma SliceNext(c: Conf, addr: nat, k: nat, size: nat)
    requires SliceAddr(c, addr, k) && k < c.NB && c.NB * c.R <= size
    ensures addr <= c.B <==> k * c.R <= c.B
    ensures addr <= c.B ==> addr == k * c.R && addr + c.R <= size
    ensures SliceAddr(c, if addr <= c.B then addr + c.R else addr, k + 1)
  {
    assert (k + 1) * c.R == k * c.R + c.R;
    MulOrder(k + 1, c.NB, c.R);
  }

  /** The misc pages of the first j banks are programmed. */
  ghost predicate Programmed(c: Conf, V: seq<nat>, flash: seq<seq<Block>>, misc: seq<Misc>, bufs: seq<Page>, j: nat) {
    && |bufs| == |misc| == c.NB
    && (forall k: nat {:trigger MiscHeld(c, V, flash, misc, k)} :: k < j && k < c.NB ==> MiscHeld(c, V, flash, misc, k))
    && (forall k: nat {:trigger MiscReady(c, flash, misc, k)} :: j <= k < c.NB ==>
      MiscReady(c, flash, misc, k) && MiscIs(bufs[k], misc[k], c, V, k))
  }

  lemma ProgrammedNone(c: Conf, V: seq<nat>, flash: seq<seq<Block>>, misc: seq<Misc>, bufs: seq<Page>)
    requires Filled(c, V, flash, misc, bufs, c.NB) && |bufs| == c.NB
    ensures Programmed(c, V, flash, misc, bufs, 0)
  {
    forall k: nat | k < c.NB
      ensures MiscReady(c, flash, misc, k) && MiscIs(bufs[k], misc[k], c, V, k) { assert MiscReady(c, flash, misc, k); }
  }

  lemma ProgrammedAt(c: Conf, V: seq<nat>, flash: seq<seq<Block>>, misc: seq<Misc>, bufs: seq<Page>, j: nat)
    requires Programmed(c, V, flash, misc, bufs, j) && j < c.NB
    ensures MiscReady(c, flash, misc, j)
    ensures j < |flash| && MISCBLK_VBN < |flash[j]| && 0 < c.P == |flash[j][MISCBLK_VBN]| && j < |bufs| == |misc|
    ensures BlkOf(misc[j].miscVpn, c.P) == MISCBLK_VBN && OffOf(misc[j].miscVpn, c.P) < c.P
    ensures BlankFrom(flash[j][MISCBLK_VBN], OffOf(misc[j].miscVpn, c.P))
  {
    assert MiscReady(c, flash, misc, j);
  }

  lemma ProgrammedNext(c: Conf, V: seq<nat>, flash: seq<seq<Block>>, misc: seq<Misc>, bufs: seq<Page>, j: nat)
    requires Programmed(c, V, flash, misc, bufs, j) && j < c.NB == |flash| && MiscReady(c, flash, misc, j)
    ensures var f := MapLogged(flash, j, MISCBLK_VBN, flash[j][MISCBLK_VBN][OffOf(misc[j].miscVpn, c.P) := bufs[j]]);
            Programmed(c, V, f, misc, bufs, j + 1)
  {
    var f := MapLogged(flash, j, MISCBLK_VBN, flash[j][MISCBLK_VBN][OffOf(misc[j].miscVpn, c.P) := bufs[j]]);
    VpnParts(misc[j].miscVpn, c.P);
    forall k: nat | k < j + 1 ensures MiscHeld(c, V, f, misc, k) {
      if k < j { assert MiscHeld(c, V, flash, misc, k); }
    }
    forall k: nat | j < k < c.NB
      ensures MiscReady(c, f, misc, k) && MiscIs(bufs[k], misc[k], c, V, k) { assert MiscReady(c, flash, misc, k); }
  }

  lemma VpnParts(v: nat, P: nat)
    requires 0 < P
    ensures v == BlkOf(v, P) * P + OffOf(v, P)
  {
  }

  lemma ProgrammedAll(c: Conf, T: seq<nat>, V: seq<nat>, flash: seq<seq<Block>>, misc: seq<Misc>, bufs: seq<Page>)
    requires Sized(c, T, V, flash, misc) && Programmed(c, V, flash, misc, bufs, c.NB)
    requires AllMaps(c, flash, misc) && Held(c, T, flash, misc, Chunks(c))
    ensures Ok(c, T, V, flash, misc) && OnFlash(c, T, V, flash, misc)
  {
    forall k: nat, i: nat | k < c.NB && i < c.MB ensures MapOk(c, flash, misc, k, i) {}
    forall k: nat | k < c.NB ensures MiscOk(c, flash, misc, k) { assert MiscHeld(c, V, flash, misc, k); }
  }

  lemma MiscNext(c: Conf, v: nat)
    requires 2 <= c.P && (v + 1 == MISCBLK_VBN * c.P || BlkOf(v, c.P) == MISCBLK_VBN)
    ensures BlkOf(MISCBLK_VBN * c.P, c.P) == MISCBLK_VBN && OffOf(MISCBLK_VBN * c.P, c.P) == 0
    ensures BlkOf(v + 1, c.P) == MISCBLK_VBN ==> OffOf(v + 1, c.P) == v + 1 - MISCBLK_VBN * c.P < c.P
  {
    Striping.DivMod(MISCBLK_VBN, c.P, 0);
    assert v + 1 == (v + 1) / c.P * c.P + (v + 1) % c.P;
  }

  // ----- loading the page map -----

  /** The buffers hold the chunks from n0 on. */
  ghost predicate Buffered(c: Conf, T: seq<nat>, bufs: seq<seq<nat>>, n0: nat) {
    forall b :: 0 <= b < |bufs| ==> bufs[b] == Chunk(c, T, n0 + b)
  }

  lemma BufferedNone(c: Conf, T: seq<nat>, n0: nat)
    ensures Buffered(c, T, [], n0)
  {
  }

  lemma BufferedNext(c: Conf, T: seq<nat>, bufs: seq<seq<nat>>, n0: nat, buf: seq<nat>)
    requires Buffered(c, T, bufs, n0) && buf == Chunk(c, T, n0 + |bufs|)
    ensures Buffered(c, T, bufs + [buf], n0)
  {
  }

  lemma BufferedAt(c: Conf, T: seq<nat>, bufs: seq<seq<nat>>, n0: nat, b: nat)
    requires Buffered(c, T, bufs, n0) && b < |bufs|
    ensures bufs[b] == Chunk(c, T, n0 + b)
  {
  }

  lemma HeldPage(c: Conf, T: seq<nat>, flash: seq<seq<Block>>, misc: seq<Misc>, n: nat, k: nat, i: nat)
    requires 0 < c.SE && 0 < c.SP && Held(c, T, flash, misc, Chunks(c)) && n < Chunks(c) && Place(c, n, k, i)
    ensures k < |flash| && k < |misc| && i < |misc[k].mapVpn| && 0 < c.P
    ensures var vpn := misc[k].mapVpn[i];
            && BlkOf(vpn, c.P) < |flash[k]| && OffOf(vpn, c.P) < |flash[k][BlkOf(vpn, c.P)]|
            && flash[k][BlkOf(vpn, c.P)][OffOf(vpn, c.P)] == MapPage(Chunk(c, T, n))
  {
    assert ChunkHeld(c, T, flash, misc, n);
  }

  /** The first n words of the page map are back. */
  ghost predicate Restored(table: seq<nat>, T: seq<nat>, n: nat) {
    forall q :: 0 <= q < n && q < |table| && q < |T| ==> table[q] == T[q]
  }

  lemma RestoredNext(table: seq<nat>, T: seq<nat>, n: nat, words: seq<nat>)
    requires |table| == |T| && Restored(table, T, n) && n + |words| <= |T| && words == T[n..n + |words|]
    ensures var u := table[..n] + words + table[n + |words|..];
            |u| == |T| && Restored(u, T, n + |words|)
  {
  }

  lemma RestoredEnd(c: Conf, table: seq<nat>, T: seq<nat>, temp: nat, n0: nat, m: nat, finished: bool, stop: bool)
    requires ConfOk(c) && |table| == |T| == c.RT() && Restored(table, T, temp)
    requires temp == Lo(c, n0 + c.NB) || c.RT() <= temp
    requires m <= c.NB && (finished ==> Chunks(c) <= n0 + m)
    ensures Restored(table, T, if finished then |T| else Lo(c, n0 + c.NB))
  {
    ChunksEnd(c, n0 + c.NB);
  }

  lemma RestoredNone(table: seq<nat>, T: seq<nat>)
    ensures Restored(table, T, 0)
  {
  }

  lemma RestoredAll(c: Conf, table: seq<nat>, T: seq<nat>, addr: nat, finished: bool)
    requires ConfOk(c) && |table| == |T| == c.RT() && Restored(table, T, if finished then |T| else addr)
    requires !finished ==> addr == Lo(c, c.MB * c.NB)
    ensures table == T
  {
    assert c.MB * c.NB * c.PG() >= c.RT();
  }

  lemma SavedMisc(c: Conf, T: seq<nat>, V: seq<nat>, flash: seq<seq<Block>>, M: seq<Misc>)
    requires ConfOk(c) && OnFlash(c, T, V, flash, M)
    ensures MiscSaved(c, V, flash, M) && Held(c, T, flash, M, Chunks(c))
  {
    forall k: nat | k < c.NB ensures MiscHeld(c, V, flash, M, k) {}
  }

  // ----- loading the misc metadata -----

  function NoPages(n: nat): (r: seq<Page>)
    ensures |r| == n
  {
    if n == 0 then [] else NoPages(n - 1) + [Erased]
  }

  /** Every bank's newest misc page is on flash. */
  ghost predicate MiscSaved(c: Conf, V: seq<nat>, flash: seq<seq<Block>>, M: seq<Misc>) {
    && |M| == c.NB && 0 < c.P
    && forall k: nat {:trigger MiscHeld(c, V, flash, M, k)} :: k < c.NB ==> MiscHeld(c, V, flash, M, k)
  }

  /**
   The pages above page have been looked at, in the first j banks page itself too: bank k is
   loaded just when its newest page is among them.
   */
  ghost predicate Loaded(c: Conf, V: seq<nat>, M: seq<Misc>, bufs: seq<Page>, loaded: set<nat>, page: nat, j: nat,
      k: nat) {
    && k < |M| && k < |bufs| && 0 < c.P
    && (k in loaded <==> page < OffOf(M[k].miscVpn, c.P) || (k < j && page == OffOf(M[k].miscVpn, c.P)))
    && (k in loaded ==> MiscIs(bufs[k], M[k], c, V, k))
  }

  ghost predicate Scanned(c: Conf, V: seq<nat>, M: seq<Misc>, bufs: seq<Page>, loaded: set<nat>, page: nat, j: nat) {
    && |M| == c.NB == |bufs| && (forall k :: k in loaded ==> k < c.NB)
    && forall k: nat {:trigger Loaded(c, V, M, bufs, loaded, page, j, k)} :: k < c.NB ==>
      Loaded(c, V, M, bufs, loaded, page, j, k)
  }

  lemma ScanStarts(c: Conf, V: seq<nat>, flash: seq<seq<Block>>, M: seq<Misc>, bufs: seq<Page>)
    requires MiscSaved(c, V, flash, M) && |bufs| == c.NB
    ensures Scanned(c, V, M, bufs, {}, c.P - 1, 0)
  {
    var top := c.P - 1;
    forall k: nat | k < c.NB ensures Loaded(c, V, M, bufs, {}, top, 0, k) {
      assert MiscHeld(c, V, flash, M, k);
    }
  }

  /** One page of one bank. */
  lemma ScanBank(c: Conf, V: seq<nat>, flash: seq<seq<Block>>, M: seq<Misc>, bufs: seq<Page>, loaded: set<nat>,
      page: nat, j: nat)
    requires MiscSaved(c, V, flash, M) && Scanned(c, V, M, bufs, loaded, page, j) && j < c.NB && page < c.P
    ensures j < |flash| && MISCBLK_VBN < |flash[j]| && |flash[j][MISCBLK_VBN]| == c.P
    ensures var p := flash[j][MISCBLK_VBN][page];
            if j in loaded then Scanned(c, V, M, bufs, loaded, page, j + 1)
            else if p == Erased then Scanned(c, V, M, bufs[j := p], loaded, page, j + 1)
            else Scanned(c, V, M, bufs[j := p], loaded + {j}, page, j + 1)
  {
    assert MiscHeld(c, V, flash, M, j) && Loaded(c, V, M, bufs, loaded, page, j, j);
    VpnParts(M[j].miscVpn, c.P);
    var p := flash[j][MISCBLK_VBN][page];
    var bufs' := if j in loaded then bufs else bufs[j := p];
    var loaded' := if j in loaded || p == Erased then loaded else loaded + {j};
    var next := j + 1;
    forall k: nat | k < c.NB ensures Loaded(c, V, M, bufs', loaded', page, next, k) {
      assert Loaded(c, V, M, bufs, loaded, page, j, k);
    }
  }

  /** One page of all banks. */
  lemma ScanPage(c: Conf, V: seq<nat>, M: seq<Misc>, bufs: seq<Page>, loaded: set<nat>, page: nat)
    requires 0 < page && Scanned(c, V, M, bufs, loaded, page, c.NB)
    ensures Scanned(c, V, M, bufs, loaded, page - 1, 0)
  {
    var next := page - 1;
    forall k: nat | k < c.NB ensures Loaded(c, V, M, bufs, loaded, next, 0, k) {
      assert Loaded(c, V, M, bufs, loaded, page, c.NB, k);
    }
  }

  lemma ScanEnds(c: Conf, V: seq<nat>, M: seq<Misc>, bufs: seq<Page>, loaded: set<nat>)
    requires Scanned(c, V, M, bufs, loaded, 0, c.NB)
    ensures |loaded| == c.NB && forall k: nat :: k < c.NB ==> MiscIs(bufs[k], M[k], c, V, k)
  {
    forall k: nat | k < c.NB ensures k in loaded && MiscIs(bufs[k], M[k], c, V, k) {
      assert Loaded(c, V, M, bufs, loaded, 0, c.NB, k);
    }
    FirstSize(loaded, c.NB);
  }

  lemma {:induction false} FirstSize(s: set<nat>, n: nat)
    requires forall k: nat :: k in s <==> k < n
    ensures |s| == n
  {
    if n == 0 {
      assert s == {};
    } else {
      FirstSize(s - {n - 1}, n - 1);
    }
  }

  lemma SliceStarts(c: Conf)
    ensures SliceAddr(c, 0, 0)
  {
  }

  lemma SliceEnds(c: Conf, addr: nat)
    requires SliceAddr(c, addr, c.NB) && c.B <= c.NB * c.R
    ensures c.B <= addr
  {
  }

  lemma OkSizes(c: Conf, T: seq<nat>, vc: seq<nat>, flash: seq<seq<Block>>, misc: seq<Misc>)
    requires Ok(c, T, vc, flash, misc)
    ensures Sized(c, T, vc, flash, misc)
  {
  }

  lemma HeldNone(c: Conf, T: seq<nat>, flash: seq<seq<Block>>, misc: seq<Misc>)
    ensures Held(c, T, flash, misc, 0)
  {
  }

  lemma HeldLess(c: Conf, T: seq<nat>, flash: seq<seq<Block>>, misc: seq<Misc>, m: nat, n: nat)
    requires m <= n && Held(c, T, flash, misc, n)
    ensures Held(c, T, flash, misc, m)
  {
    forall k: nat | k < m ensures ChunkHeld(c, T, flash, misc, k) {}
  }

  /** What the loops copy at chunk n. */
  lemma ChunkWords(c: Conf, T: seq<nat>, n: nat, words: nat)
    requires ConfOk(c) && |T| == c.RT() && Lo(c, n) < c.RT()
    requires words == if Lo(c, n) + c.PG() >= c.RT() then c.RT() - Lo(c, n) else c.PG()
    ensures Lo(c, n) + words <= |T| && Chunk(c, T, n) == T[Lo(c, n)..Lo(c, n) + words]
  {
  }

  lemma AllChunks(c: Conf)
    requires ConfOk(c)
    ensures Chunks(c) <= c.MB * c.NB
  {
    ChunksEnd(c, c.MB * c.NB);
  }

  lemma LoggedTwice(flash: seq<seq<Block>>, k: nat, b: nat, x: Block, y: Block)
    requires k < |flash| && b < |flash[k]|
    ensures MapLogged(MapLogged(flash, k, b, x), k, b, y) == MapLogged(flash, k, b, y)
  {
    assert flash[k][b := x][b := y] == flash[k][b := y];
  }

  lemma Places(c: Conf, n: nat, k: nat, i: nat)
    requires Place(c, n, k, i)
    ensures k < c.NB && i < c.MB
  {
  }

  ghost predicate Fresh(c: Conf, blocks: seq<Block>, m: Misc, k: nat)
    requires ConfOk(c) && k < c.NB
  {
    && MISCBLK_VBN < |blocks| && |blocks[MISCBLK_VBN]| == c.P && BlankFrom(blocks[MISCBLK_VBN], 0)
    && m.miscVpn == MISCBLK_VBN * c.P - 1 && |m.mapVpn| == c.MB
    && forall i :: 0 <= i < c.MB ==>
         var b := c.mapBlk[k][i];
         b < |blocks| && |blocks[b]| == c.P && BlankFrom(blocks[b], 0) && m.mapVpn[i] == b * c.P
  }

  lemma FreshOk(c: Conf, table: seq<nat>, vc: seq<nat>, flash: seq<seq<Block>>, misc: seq<Misc>)
    requires Sized(c, table, vc, flash, misc)
    requires forall k :: 0 <= k < c.NB ==> Fresh(c, flash[k], misc[k], k)
    ensures Ok(c, table, vc, flash, misc)
  {
    forall k: nat, i: nat | k < c.NB && i < c.MB ensures MapOk(c, flash, misc, k, i) {
      assert Fresh(c, flash[k], misc[k], k);
      Striping.DivMod(c.mapBlk[k][i], c.P, 0);
    }
    forall k: nat | k < c.NB ensures MiscOk(c, flash, misc, k) {
      assert Fresh(c, flash[k], misc[k], k);
    }
  }

  lemma SameDataRefl(s: seq<Misc>)
    ensures SameData(s, s)
  {
  }

  lemma MovedData(s: seq<Misc>, t: seq<Misc>, k: nat, v: nat)
    requires SameData(s, t) && k < |t|
    ensures SameData(s, MiscMoved(t, k, v))
  {
  }

  lemma OkAnyCounts(c: Conf, T: seq<nat>, V: seq<nat>, V': seq<nat>, flash: seq<seq<Block>>, misc: seq<Misc>)
    requires Ok(c, T, V, flash, misc) && |V'| == |V|
    ensures Ok(c, T, V', flash, misc)
  {
  }

  lemma OkAnyMemory(c: Conf, T: seq<nat>, V: seq<nat>, flash: seq<seq<Block>>, misc: seq<Misc>, T': seq<nat>,
      V': seq<nat>, misc': seq<Misc>)
    requires Ok(c, T, V, flash, misc) && |T'| == |T| && |V'| == |V| && |misc'| == |misc|
    requires forall k :: 0 <= k < |misc| ==> misc'[k].miscVpn == misc[k].miscVpn && misc'[k].mapVpn == misc[k].mapVpn
    ensures Ok(c, T', V', flash, misc')
  {
    forall k: nat, i: nat | k < c.NB && i < c.MB
      ensures MapOk(c, flash, misc', k, i) { assert MapOk(c, flash, misc, k, i); }
    forall k: nat | k < c.NB ensures MiscOk(c, flash, misc', k) { assert MiscOk(c, flash, misc, k); }
  }

  lemma OkMap(c: Conf, T: seq<nat>, vc: seq<nat>, flash: seq<seq<Block>>, misc: seq<Misc>, k: nat, i: nat)
    requires Ok(c, T, vc, flash, misc) && k < c.NB && i < c.MB
    ensures ConfOk(c) && MapOk(c, flash, misc, k, i) && |flash| == |misc| == c.NB
  {
    assert MapOk(c, flash, misc, k, i);
  }
}
