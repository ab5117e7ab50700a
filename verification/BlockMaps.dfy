/**
 The block mapping tables of a FASTer bank: which physical block plays which part.
 A ghost owner map gives every physical block of the bank exactly one part, which is
 what keeps the tables and the free ring pairwise disjoint.
 */
module BlockMaps {
  import opened Common
  import opened Nand
  import opened FasterState

  /** (UINT16)-1, in log block mapping entries lost to bad blocks. */
  const NO_BLOCK: nat := 0xFFFF

  datatype Slot = DataSlot(i: nat) | LogSlot(i: nat) | IsolSlot(i: nat) | FreeSlot | Taken

  /** The tables, and beside each the contents of the blocks its entries name. */
  datatype Maps = Maps(
    fl: seq<Block>,
    data: seq<nat>, log: seq<nat>, isol: seq<nat>, free: seq<nat>,
    dataPic: seq<Block>, logPic: seq<Block>, isolPic: seq<Block>)

  type Owners = map<nat, Slot>

  /** Block v really is where own says it is. */
  ghost predicate InPlace(g: Geo, m: Maps, own: Owners, v: nat)
  {
    && v in own && v < |m.fl| && v < NO_BLOCK
    && match own[v]
       case DataSlot(i) => i < |m.data| && m.data[i] == v
       case LogSlot(i) => i < g.K <= |m.log| && m.log[i] == v
       case IsolSlot(i) => i < |m.isol| && m.isol[i] == v
       case FreeSlot => v in m.free
       case Taken => v !in m.free
  }

  ghost predicate DataAt(m: Maps, own: Owners, i: int)
  {
    && 0 <= i < |m.data| && i < |m.dataPic|
    && m.data[i] < |m.fl| && m.data[i] in own && own[m.data[i]] == DataSlot(i)
    && m.dataPic[i] == m.fl[m.data[i]]
  }

  ghost predicate LogAt(m: Maps, own: Owners, i: int)
  {
    && 0 <= i < |m.log| && i < |m.logPic|
    && m.log[i] < |m.fl| && m.log[i] in own && own[m.log[i]] == LogSlot(i)
    && m.logPic[i] == m.fl[m.log[i]]
  }

  ghost predicate IsolAt(m: Maps, own: Owners, i: int)
  {
    && 0 <= i < |m.isol| && i < |m.isolPic|
    && m.isol[i] < |m.fl| && m.isol[i] in own && own[m.isol[i]] == IsolSlot(i)
    && m.isolPic[i] == m.fl[m.isol[i]]
  }

  /** The blocks of the ring are erased. */
  ghost predicate FreeAt(g: Geo, m: Maps, own: Owners, i: int)
  {
    && 0 <= i < |m.free|
    && m.free[i] < |m.fl| && m.free[i] in own && own[m.free[i]] == FreeSlot
    && m.fl[m.free[i]] == ErasedBlock(g.P)
  }

  ghost predicate Owned(g: Geo, m: Maps, own: Owners)
  {
    && |m.data| == |m.dataPic| == g.D
    && |m.log| == g.LOG >= g.K == |m.logPic|
    && |m.isol| == |m.isolPic| == g.ISOL
    && |m.free| <= 2 && (|m.free| == 2 ==> m.free[0] != m.free[1])
    && (forall v :: 0 <= v < |m.fl| ==> |m.fl[v]| == g.P)
    && (forall i {:trigger DataAt(m, own, i)} :: 0 <= i < g.D ==> DataAt(m, own, i))
    && (forall i {:trigger LogAt(m, own, i)} :: 0 <= i < g.K ==> LogAt(m, own, i))
    && (forall i {:trigger IsolAt(m, own, i)} :: 0 <= i < g.ISOL ==> IsolAt(m, own, i))
    && (forall i {:trigger FreeAt(g, m, own, i)} :: 0 <= i < |m.free| ==> FreeAt(g, m, own, i))
    && (forall v {:trigger InPlace(g, m, own, v)} :: v in own ==> InPlace(g, m, own, v))
    && (forall i :: g.K <= i < g.LOG ==> m.log[i] == NO_BLOCK)
  }


  /** Only blocks that own calls free are in the ring. */
  lemma NotFree(g: Geo, m: Maps, own: Owners, v: nat)
    requires Owned(g, m, own) && v in own && own[v] != FreeSlot
    ensures v !in m.free
  {
    forall i | 0 <= i < |m.free| ensures m.free[i] != v { assert FreeAt(g, m, own, i); }
  }

  // ----- rewriting a block where it is -----

  /** Rewriting the block in one slot changes that slot's picture and nothing else. */
  ghost function LogRewritten(m: Maps, b: nat, blk: Block): Maps
    requires b < |m.log| && b < |m.logPic| && m.log[b] < |m.fl|
  {
    m.(fl := m.fl[m.log[b] := blk], logPic := m.logPic[b := blk])
  }

  lemma RewriteLog(g: Geo, m: Maps, own: Owners, b: nat, blk: Block)
    requires Owned(g, m, own) && b < g.K && |blk| == g.P
    ensures LogAt(m, own, b) && Owned(g, LogRewritten(m, b, blk), own)
  {
    assert LogAt(m, own, b);
    var m' := LogRewritten(m, b, blk);
    forall i | 0 <= i < g.D ensures DataAt(m', own, i) { assert DataAt(m, own, i); }
    forall i | 0 <= i < g.K ensures LogAt(m', own, i) { assert LogAt(m, own, i); }
    forall i | 0 <= i < g.ISOL ensures IsolAt(m', own, i) { assert IsolAt(m, own, i); }
    forall i | 0 <= i < |m'.free| ensures FreeAt(g, m', own, i) { assert FreeAt(g, m, own, i); }
    forall u | u in own ensures InPlace(g, m', own, u) { assert InPlace(g, m, own, u); }
  }

  ghost function IsolRewritten(m: Maps, b: nat, blk: Block): Maps
    requires b < |m.isol| && b < |m.isolPic| && m.isol[b] < |m.fl|
  {
    m.(fl := m.fl[m.isol[b] := blk], isolPic := m.isolPic[b := blk])
  }

  lemma RewriteIsol(g: Geo, m: Maps, own: Owners, b: nat, blk: Block)
    requires Owned(g, m, own) && b < g.ISOL && |blk| == g.P
    ensures IsolAt(m, own, b) && Owned(g, IsolRewritten(m, b, blk), own)
  {
    assert IsolAt(m, own, b);
    var m' := IsolRewritten(m, b, blk);
    forall i | 0 <= i < g.D ensures DataAt(m', own, i) { assert DataAt(m, own, i); }
    forall i | 0 <= i < g.K ensures LogAt(m', own, i) { assert LogAt(m, own, i); }
    forall i | 0 <= i < g.ISOL ensures IsolAt(m', own, i) { assert IsolAt(m, own, i); }
    forall i | 0 <= i < |m'.free| ensures FreeAt(g, m', own, i) { assert FreeAt(g, m, own, i); }
    forall u | u in own ensures InPlace(g, m', own, u) { assert InPlace(g, m, own, u); }
  }

  /** A block taken from the ring and not yet installed is in no picture. */
  lemma RewriteTaken(g: Geo, m: Maps, own: Owners, v: nat, blk: Block)
    requires Owned(g, m, own) && v in own && own[v] == Taken && |blk| == g.P
    ensures v < |m.fl| && v < NO_BLOCK && Owned(g, m.(fl := m.fl[v := blk]), own)
  {
    assert InPlace(g, m, own, v);
    var m' := m.(fl := m.fl[v := blk]);
    forall i | 0 <= i < g.D ensures DataAt(m', own, i) { assert DataAt(m, own, i); }
    forall i | 0 <= i < g.K ensures LogAt(m', own, i) { assert LogAt(m, own, i); }
    forall i | 0 <= i < g.ISOL ensures IsolAt(m', own, i) { assert IsolAt(m, own, i); }
    forall i | 0 <= i < |m'.free| ensures FreeAt(g, m', own, i) { assert FreeAt(g, m, own, i); }
    forall u | u in own ensures InPlace(g, m', own, u) { assert InPlace(g, m, own, u); }
  }

  // ----- the ring -----

  lemma TakeFree(g: Geo, m: Maps, own: Owners)
    requires Owned(g, m, own) && m.free != []
    ensures FreeAt(g, m, own, 0) && Owned(g, m.(free := m.free[1..]), own[m.free[0] := Taken])
  {
    var v := m.free[0];
    var m', own' := m.(free := m.free[1..]), own[v := Taken];
    assert FreeAt(g, m, own, 0) && InPlace(g, m, own, v);
    forall i | 0 <= i < g.D ensures DataAt(m', own', i) { assert DataAt(m, own, i); }
    forall i | 0 <= i < g.K ensures LogAt(m', own', i) { assert LogAt(m, own, i); }
    forall i | 0 <= i < g.ISOL ensures IsolAt(m', own', i) { assert IsolAt(m, own, i); }
    forall i | 0 <= i < |m'.free| ensures FreeAt(g, m', own', i) { assert FreeAt(g, m, own, i + 1); }
    forall u | u in own' ensures InPlace(g, m', own', u) { assert InPlace(g, m, own, u); }
  }

  /** An erased block that plays no part goes back to the ring. */
  lemma ReturnFree(g: Geo, m: Maps, own: Owners, v: nat)
    requires Owned(g, m, own) && |m.free| < 2 && v in own && own[v] == Taken
    requires v < |m.fl| && m.fl[v] == ErasedBlock(g.P)
    ensures Owned(g, m.(free := m.free + [v]), own[v := FreeSlot])
  {
    var m', own' := m.(free := m.free + [v]), own[v := FreeSlot];
    assert InPlace(g, m, own, v);
    assert m'.free[|m.free|] == v && forall i :: 0 <= i < |m.free| ==> m'.free[i] == m.free[i];
    forall i | 0 <= i < g.D ensures DataAt(m', own', i) { assert DataAt(m, own, i); }
    forall i | 0 <= i < g.K ensures LogAt(m', own', i) { assert LogAt(m, own, i); }
    forall i | 0 <= i < g.ISOL ensures IsolAt(m', own', i) { assert IsolAt(m, own, i); }
    forall i | 0 <= i < |m'.free| ensures FreeAt(g, m', own', i) { assert i < |m.free| ==> FreeAt(g, m, own, i); }
    forall u | u in own' ensures InPlace(g, m', own', u) { assert InPlace(g, m, own, u); }
  }

  /** A taken block is erased and returned to the ring. */
  ghost function Retired(g: Geo, m: Maps, v: nat): Maps
    requires v < |m.fl|
  {
    m.(fl := m.fl[v := ErasedBlock(g.P)], free := m.free + [v])
  }

  lemma Retire(g: Geo, m: Maps, own: Owners, v: nat)
    requires Owned(g, m, own) && |m.free| < 2 && v in own && own[v] == Taken
    ensures v < |m.fl| && Owned(g, Retired(g, m, v), own[v := FreeSlot])
  {
    RewriteTaken(g, m, own, v, ErasedBlock(g.P));
    ReturnFree(g, m.(fl := m.fl[v := ErasedBlock(g.P)]), own, v);
  }

  // ----- installing a taken block in a slot; the block that was there becomes the taken one -----

  lemma InstallData(g: Geo, m: Maps, own: Owners, L: nat, v: nat)
    requires Owned(g, m, own) && L < g.D && v in own && own[v] == Taken
    ensures v < |m.fl| && DataAt(m, own, L)
    ensures Owned(g, m.(data := m.data[L := v], dataPic := m.dataPic[L := m.fl[v]]),
            own[m.data[L] := Taken][v := DataSlot(L)])
  {
    assert InPlace(g, m, own, v) && DataAt(m, own, L) && InPlace(g, m, own, m.data[L]);
    NotFree(g, m, own, m.data[L]);
    var m' := m.(data := m.data[L := v], dataPic := m.dataPic[L := m.fl[v]]);
    var own': Owners := own[m.data[L] := Taken][v := DataSlot(L)];
    forall i | 0 <= i < g.D ensures DataAt(m', own', i) { assert DataAt(m, own, i); }
    forall i | 0 <= i < g.K ensures LogAt(m', own', i) { assert LogAt(m, own, i); }
    forall i | 0 <= i < g.ISOL ensures IsolAt(m', own', i) { assert IsolAt(m, own, i); }
    forall i | 0 <= i < |m'.free| ensures FreeAt(g, m', own', i) { assert FreeAt(g, m, own, i); }
    forall u | u in own' ensures InPlace(g, m', own', u) { assert InPlace(g, m, own, u); }
  }

  lemma InstallLog(g: Geo, m: Maps, own: Owners, b: nat, v: nat)
    requires Owned(g, m, own) && b < g.K && v in own && own[v] == Taken
    ensures v < |m.fl| && LogAt(m, own, b)
    ensures Owned(g, m.(log := m.log[b := v], logPic := m.logPic[b := m.fl[v]]),
            own[m.log[b] := Taken][v := LogSlot(b)])
  {
    assert InPlace(g, m, own, v) && LogAt(m, own, b) && InPlace(g, m, own, m.log[b]);
    NotFree(g, m, own, m.log[b]);
    var m' := m.(log := m.log[b := v], logPic := m.logPic[b := m.fl[v]]);
    var own': Owners := own[m.log[b] := Taken][v := LogSlot(b)];
    forall i | 0 <= i < g.D ensures DataAt(m', own', i) { assert DataAt(m, own, i); }
    forall i | 0 <= i < g.K ensures LogAt(m', own', i) { assert LogAt(m, own, i); }
    forall i | 0 <= i < g.ISOL ensures IsolAt(m', own', i) { assert IsolAt(m, own, i); }
    forall i | 0 <= i < |m'.free| ensures FreeAt(g, m', own', i) { assert FreeAt(g, m, own, i); }
    forall u | u in own' ensures InPlace(g, m', own', u) { assert InPlace(g, m, own, u); }
  }

  lemma InstallIsol(g: Geo, m: Maps, own: Owners, b: nat, v: nat)
    requires Owned(g, m, own) && b < g.ISOL && v in own && own[v] == Taken
    ensures v < |m.fl| && IsolAt(m, own, b)
    ensures Owned(g, m.(isol := m.isol[b := v], isolPic := m.isolPic[b := m.fl[v]]),
            own[m.isol[b] := Taken][v := IsolSlot(b)])
  {
    assert InPlace(g, m, own, v) && IsolAt(m, own, b) && InPlace(g, m, own, m.isol[b]);
    NotFree(g, m, own, m.isol[b]);
    var m' := m.(isol := m.isol[b := v], isolPic := m.isolPic[b := m.fl[v]]);
    var own': Owners := own[m.isol[b] := Taken][v := IsolSlot(b)];
    forall i | 0 <= i < g.D ensures DataAt(m', own', i) { assert DataAt(m, own, i); }
    forall i | 0 <= i < g.K ensures LogAt(m', own', i) { assert LogAt(m, own, i); }
    forall i | 0 <= i < g.ISOL ensures IsolAt(m', own', i) { assert IsolAt(m, own, i); }
    forall i | 0 <= i < |m'.free| ensures FreeAt(g, m', own', i) { assert FreeAt(g, m, own, i); }
    forall u | u in own' ensures InPlace(g, m', own', u) { assert InPlace(g, m, own, u); }
  }

  // ----- the tables as the FTL knows them: some assignment of parts exists -----

  /** The tables and the ring hold exactly the physical blocks in blocks, each once. */
  ghost predicate WellMapped(g: Geo, m: Maps, blocks: set<nat>)
  {
    exists own: Owners :: own.Keys == blocks && Owned(g, m, own)
  }

  /** The same while block v is being filled: v is loose, or it is the SW log block. */
  ghost predicate Filling(g: Geo, m: Maps, blocks: set<nat>, v: nat)
  {
    exists own: Owners :: own.Keys == blocks && Owned(g, m, own) && v in own && own[v] in {Taken, LogSlot(0)}
  }

  /** The same with v in no table. */
  ghost predicate Loose(g: Geo, m: Maps, blocks: set<nat>, v: nat)
  {
    exists own: Owners :: own.Keys == blocks && Owned(g, m, own) && v in own && own[v] == Taken
  }

  /** Following a table entry leads to a block in range, with the contents its picture shows. */
  lemma FollowData(g: Geo, m: Maps, blocks: set<nat>, i: nat)
    requires WellMapped(g, m, blocks) && i < g.D
    ensures i < |m.data| && i < |m.dataPic| && m.data[i] < |m.fl| && m.data[i] != 0xFFFF
    ensures m.dataPic[i] == m.fl[m.data[i]] && |m.fl[m.data[i]]| == g.P && m.data[i] in blocks
  {
    var own: Owners :| own.Keys == blocks && Owned(g, m, own);
    assert DataAt(m, own, i) && InPlace(g, m, own, m.data[i]);
  }

  lemma FollowLog(g: Geo, m: Maps, blocks: set<nat>, i: nat)
    requires WellMapped(g, m, blocks) && i < g.K
    ensures i < |m.log| && i < |m.logPic| && m.log[i] < |m.fl| && m.log[i] != NO_BLOCK
    ensures m.logPic[i] == m.fl[m.log[i]] && |m.fl[m.log[i]]| == g.P && m.log[i] in blocks
  {
    var own: Owners :| own.Keys == blocks && Owned(g, m, own);
    assert LogAt(m, own, i) && InPlace(g, m, own, m.log[i]);
  }

  lemma FollowIsol(g: Geo, m: Maps, blocks: set<nat>, i: nat)
    requires WellMapped(g, m, blocks) && i < g.ISOL
    ensures i < |m.isol| && i < |m.isolPic| && m.isol[i] < |m.fl|
    ensures m.isolPic[i] == m.fl[m.isol[i]] && |m.fl[m.isol[i]]| == g.P && m.isol[i] in blocks
  {
    var own: Owners :| own.Keys == blocks && Owned(g, m, own);
    assert IsolAt(m, own, i) && InPlace(g, m, own, m.isol[i]);
  }

  /** One on, going round. */
  function Round(c: nat, n: nat): (r: nat)
    requires c < n
    ensures r == if c + 1 < n then c + 1 else 0
  {
    (c + 1) % n
  }

  /** Exactly the log entries that no good block serves are marked. */
  lemma NoBlockMarked(g: Geo, m: Maps, blocks: set<nat>)
    requires WellMapped(g, m, blocks)
    ensures |m.log| == g.LOG && forall i :: 0 <= i < g.LOG ==> (m.log[i] == NO_BLOCK <==> g.K <= i)
  {
    forall i | 0 <= i < g.K ensures i < |m.log| && m.log[i] != NO_BLOCK { FollowLog(g, m, blocks, i); }
  }

  /** The block being filled is not the one that any other table entry names. */
  lemma FillingElsewhere(g: Geo, m: Maps, blocks: set<nat>, v: nat)
    requires Filling(g, m, blocks, v)
    ensures WellMapped(g, m, blocks)
    ensures |m.data| == g.D && |m.log| >= g.K && |m.isol| == g.ISOL
    ensures forall i :: 0 <= i < g.D ==> m.data[i] != v
    ensures forall i :: 0 < i < g.K ==> m.log[i] != v
    ensures forall i :: 0 <= i < g.ISOL ==> m.isol[i] != v
    ensures Loose(g, m, blocks, v) && 0 < g.K ==> m.log[0] != v
  {
    var own: Owners :| own.Keys == blocks && Owned(g, m, own) && v in own && own[v] in {Taken, LogSlot(0)};
    forall i | 0 <= i < g.D ensures m.data[i] != v { assert DataAt(m, own, i); }
    forall i | 0 < i < g.K ensures m.log[i] != v { assert LogAt(m, own, i); }
    forall i | 0 <= i < g.ISOL ensures m.isol[i] != v { assert IsolAt(m, own, i); }
    if Loose(g, m, blocks, v) && 0 < g.K {
      var own1: Owners :| own1.Keys == blocks && Owned(g, m, own1) && v in own1 && own1[v] == Taken;
      assert LogAt(m, own1, 0);
    }
  }

  /** A loose block is not log block b. */
  lemma LooseIsMapped(g: Geo, m: Maps, blocks: set<nat>, v: nat, b: nat)
    requires Loose(g, m, blocks, v) && b < g.K
    ensures WellMapped(g, m, blocks) && b < |m.log| && m.log[b] != v
  {
    var own: Owners :| own.Keys == blocks && Owned(g, m, own) && v in own && own[v] == Taken;
    assert LogAt(m, own, b);
  }

  lemma SwFilling(g: Geo, m: Maps, blocks: set<nat>)
    requires WellMapped(g, m, blocks) && 0 < g.K
    ensures 0 < |m.log| && Filling(g, m, blocks, m.log[0])
  {
    var own: Owners :| own.Keys == blocks && Owned(g, m, own);
    assert LogAt(m, own, 0);
  }

  /** Rewriting a log or isolation block where it is changes its picture and nothing else. */
  lemma RewriteLogBlock(g: Geo, m: Maps, blocks: set<nat>, b: nat, blk: Block)
    requires WellMapped(g, m, blocks) && b < g.K && |blk| == g.P
    ensures b < |m.log| && b < |m.logPic| && m.log[b] < |m.fl|
    ensures WellMapped(g, LogRewritten(m, b, blk), blocks)
  {
    var own: Owners :| own.Keys == blocks && Owned(g, m, own);
    RewriteLog(g, m, own, b, blk);
  }

  /** Rewriting an isolation block leaves a loose block loose. */
  lemma RewriteIsolBeside(g: Geo, m: Maps, blocks: set<nat>, b: nat, blk: Block, v: nat)
    requires Loose(g, m, blocks, v) && b < g.ISOL && |blk| == g.P
    ensures b < |m.isol| && b < |m.isolPic| && m.isol[b] < |m.fl| && m.isol[b] != v
    ensures m.isolPic[b] == m.fl[m.isol[b]]
    ensures Loose(g, IsolRewritten(m, b, blk), blocks, v)
  {
    var own: Owners :| own.Keys == blocks && Owned(g, m, own) && v in own && own[v] == Taken;
    assert IsolAt(m, own, b);
    RewriteIsol(g, m, own, b, blk);
  }

  /**
   A switch or partial merge: log block 0 becomes data block L, the next free block becomes
   log block 0, and the old data block goes to the ring, erased.
   */
  ghost function SwInstalled(g: Geo, m: Maps, L: nat): Maps
    requires L < |m.data| && L < |m.dataPic| && 0 < |m.log| && 0 < |m.logPic| && m.free != [] && m.data[L] < |m.fl|
  {
    m.(data := m.data[L := m.log[0]], log := m.log[0 := m.free[0]],
       fl := m.fl[m.data[L] := ErasedBlock(g.P)], free := m.free[1..] + [m.data[L]],
       dataPic := m.dataPic[L := m.logPic[0]], logPic := m.logPic[0 := ErasedBlock(g.P)])
  }

  lemma SwInstall(g: Geo, m: Maps, blocks: set<nat>, L: nat)
    requires WellMapped(g, m, blocks) && L < g.D && 0 < g.K && m.free != []
    ensures L < |m.data| && L < |m.dataPic| && 0 < |m.log| && 0 < |m.logPic| && m.data[L] < |m.fl|
    ensures WellMapped(g, SwInstalled(g, m, L), blocks)
  {
    var own: Owners :| own.Keys == blocks && Owned(g, m, own);
    assert DataAt(m, own, L) && LogAt(m, own, 0) && FreeAt(g, m, own, 0);
    assert InPlace(g, m, own, m.data[L]) && InPlace(g, m, own, m.log[0]);
    TakeFree(g, m, own);
    var m1, own1: Owners := m.(free := m.free[1..]), own[m.free[0] := Taken];
    InstallLog(g, m1, own1, 0, m.free[0]);
    var m2 := m1.(log := m.log[0 := m.free[0]], logPic := m.logPic[0 := ErasedBlock(g.P)]);
    var own2: Owners := own1[m.log[0] := Taken][m.free[0] := LogSlot(0)];
    InstallData(g, m2, own2, L, m.log[0]);
    var m3 := m2.(data := m.data[L := m.log[0]], dataPic := m.dataPic[L := m.logPic[0]]);
    var own3: Owners := own2[m.data[L] := Taken][m.log[0] := DataSlot(L)];
    Retire(g, m3, own3, m.data[L]);
    assert own3[m.data[L] := FreeSlot].Keys == blocks;
  }

  /** The next free block is taken from the ring, to be filled. */
  lemma TakeLoose(g: Geo, m: Maps, blocks: set<nat>)
    requires WellMapped(g, m, blocks) && m.free != []
    ensures m.free[0] < |m.fl| && m.fl[m.free[0]] == ErasedBlock(g.P)
    ensures Loose(g, m.(free := m.free[1..]), blocks, m.free[0])
    ensures Filling(g, m.(free := m.free[1..]), blocks, m.free[0])
  {
    var own: Owners :| own.Keys == blocks && Owned(g, m, own);
    TakeFree(g, m, own);
    assert FreeAt(g, m, own, 0);
    var own': Owners := own[m.free[0] := Taken];
    assert own'.Keys == blocks && own'[m.free[0]] == Taken && Owned(g, m.(free := m.free[1..]), own');
  }

  /** A loose block, filled with blk, takes over data block L; the old one goes to the ring, erased. */
  ghost function DataInstalled(g: Geo, m: Maps, L: nat, v: nat, blk: Block): Maps
    requires L < |m.data| && L < |m.dataPic| && m.data[L] < |m.fl| && v < |m.fl|
  {
    m.(data := m.data[L := v], dataPic := m.dataPic[L := blk],
       fl := m.fl[v := blk][m.data[L] := ErasedBlock(g.P)], free := m.free + [m.data[L]])
  }

  lemma DataInstall(g: Geo, m: Maps, blocks: set<nat>, L: nat, v: nat, blk: Block)
    requires Loose(g, m, blocks, v) && L < g.D && |m.free| < 2 && |blk| == g.P
    ensures L < |m.data| && L < |m.dataPic| && m.data[L] < |m.fl| && v < |m.fl|
    ensures WellMapped(g, DataInstalled(g, m, L, v, blk), blocks)
  {
    var own: Owners :| own.Keys == blocks && Owned(g, m, own) && v in own && own[v] == Taken;
    assert DataAt(m, own, L) && InPlace(g, m, own, m.data[L]);
    RewriteTaken(g, m, own, v, blk);
    var m1 := m.(fl := m.fl[v := blk]);
    InstallData(g, m1, own, L, v);
    var own1: Owners := own[m.data[L] := Taken][v := DataSlot(L)];
    Retire(g, m1.(data := m.data[L := v], dataPic := m.dataPic[L := blk]), own1, m.data[L]);
    assert own1[m.data[L] := FreeSlot].Keys == blocks;
  }

  /** The same for log block b. */
  ghost function LogInstalled(g: Geo, m: Maps, b: nat, v: nat, blk: Block): Maps
    requires b < |m.log| && b < |m.logPic| && m.log[b] < |m.fl| && v < |m.fl|
  {
    m.(log := m.log[b := v], logPic := m.logPic[b := blk],
       fl := m.fl[v := blk][m.log[b] := ErasedBlock(g.P)], free := m.free + [m.log[b]])
  }

  lemma LogInstall(g: Geo, m: Maps, blocks: set<nat>, b: nat, v: nat, blk: Block)
    requires Loose(g, m, blocks, v) && b < g.K && |m.free| < 2 && |blk| == g.P
    ensures b < |m.log| && b < |m.logPic| && m.log[b] < |m.fl| && v < |m.fl|
    ensures WellMapped(g, LogInstalled(g, m, b, v, blk), blocks)
  {
    var own: Owners :| own.Keys == blocks && Owned(g, m, own) && v in own && own[v] == Taken;
    assert LogAt(m, own, b) && InPlace(g, m, own, m.log[b]);
    RewriteTaken(g, m, own, v, blk);
    var m1 := m.(fl := m.fl[v := blk]);
    InstallLog(g, m1, own, b, v);
    var own1: Owners := own[m.log[b] := Taken][v := LogSlot(b)];
    Retire(g, m1.(log := m.log[b := v], logPic := m.logPic[b := blk]), own1, m.log[b]);
    assert own1[m.log[b] := FreeSlot].Keys == blocks;
  }

  /** Isolation block b is given up, erased, and replaced by the next free block. */
  ghost function IsolRenewed(g: Geo, m: Maps, b: nat): Maps
    requires b < |m.isol| && b < |m.isolPic| && m.isol[b] < |m.fl| && m.free != []
  {
    m.(isol := m.isol[b := m.free[0]], isolPic := m.isolPic[b := ErasedBlock(g.P)],
       fl := m.fl[m.isol[b] := ErasedBlock(g.P)], free := m.free[1..] + [m.isol[b]])
  }

  lemma IsolRenew(g: Geo, m: Maps, blocks: set<nat>, b: nat)
    requires WellMapped(g, m, blocks) && b < g.ISOL && m.free != []
    ensures b < |m.isol| && b < |m.isolPic| && m.isol[b] < |m.fl|
    ensures WellMapped(g, IsolRenewed(g, m, b), blocks)
  {
    var own: Owners :| own.Keys == blocks && Owned(g, m, own);
    assert IsolAt(m, own, b) && FreeAt(g, m, own, 0) && InPlace(g, m, own, m.isol[b]);
    TakeFree(g, m, own);
    var m1, own1: Owners := m.(free := m.free[1..]), own[m.free[0] := Taken];
    InstallIsol(g, m1, own1, b, m.free[0]);
    var own2: Owners := own1[m.isol[b] := Taken][m.free[0] := IsolSlot(b)];
    Retire(g, m1.(isol := m.isol[b := m.free[0]], isolPic := m.isolPic[b := ErasedBlock(g.P)]), own2, m.isol[b]);
    assert own2[m.isol[b] := FreeSlot].Keys == blocks;
  }

  // ----- format -----

  function FormatSlot(g: Geo, i: nat): Slot {
    if i < g.D then DataSlot(i)
    else if i < g.D + 2 then FreeSlot
    else if i < g.D + 2 + g.ISOL then IsolSlot(i - g.D - 2)
    else LogSlot(i - g.D - 2 - g.ISOL)
  }

  ghost predicate Below(s: seq<nat>, i: int, j: int) {
    0 <= i < j < |s| ==> s[i] < s[j]
  }

  ghost predicate Ascending(s: seq<nat>) {
    forall i, j {:trigger Below(s, i, j)} :: Below(s, i, j)
  }

  lemma AscendingDistinct(s: seq<nat>)
    requires Ascending(s)
    ensures forall i, j :: 0 <= i < |s| && 0 <= j < |s| && s[i] == s[j] ==> i == j
  {
    forall i, j | 0 <= i < |s| && 0 <= j < |s| && s[i] == s[j] ensures i == j {
      assert Below(s, i, j) && Below(s, j, i);
    }
  }

  ghost function FormatOwners(g: Geo, good: seq<nat>): Owners
    requires Ascending(good)
  {
    AscendingDistinct(good);
    map i | 0 <= i < |good| :: good[i] := FormatSlot(g, i)
  }

  ghost function FormatMaps(g: Geo, V: nat, good: seq<nat>): Maps
    requires |good| == g.D + 2 + g.ISOL + g.K && g.K <= g.LOG
  {
    Maps(ErasedBlocks(V, g.P), good[..g.D],
         good[g.D + 2 + g.ISOL..] + seq(g.LOG - g.K, _ => NO_BLOCK), good[g.D + 2..g.D + 2 + g.ISOL],
           good[g.D..g.D + 2],
         ErasedBlocks(g.D, g.P), ErasedBlocks(g.K, g.P), ErasedBlocks(g.ISOL, g.P))
  }

  lemma FormatOwned(g: Geo, V: nat, good: seq<nat>)
    requires |good| == g.D + 2 + g.ISOL + g.K && g.K <= g.LOG && V < NO_BLOCK
    requires Ascending(good) && forall i :: 0 <= i < |good| ==> 0 < good[i] < V
    ensures WellMapped(g, FormatMaps(g, V, good), set v | v in good)
  {
    forall i | 0 <= i < |good| ensures OwnerAt(g, good, FormatOwners(g, good), i) {
      FormatOwner(g, good, i);
    }
    forall v | v in FormatOwners(g, good) ensures InPlace(g, FormatMaps(g, V, good), FormatOwners(g, good), v) {
      FormatInPlace(g, V, good, v);
    }
    assert Below(good, g.D, g.D + 1);
    FormatTables(g, V, good, FormatOwners(g, good));
    assert FormatOwners(g, good).Keys == set v | v in good;
  }

  ghost predicate OwnerAt(g: Geo, good: seq<nat>, own: Owners, i: int) {
    0 <= i < |good| && good[i] in own && own[good[i]] == FormatSlot(g, i)
  }

  lemma FormatTables(g: Geo, V: nat, good: seq<nat>, own: Owners)
    requires |good| == g.D + 2 + g.ISOL + g.K && g.K <= g.LOG
    requires forall i :: 0 <= i < |good| ==> 0 < good[i] < V
    requires good[g.D] != good[g.D + 1]
    requires forall i {:trigger OwnerAt(g, good, own, i)} :: 0 <= i < |good| ==> OwnerAt(g, good, own, i)
    requires forall v {:trigger InPlace(g, FormatMaps(g, V, good), own, v)} :: v in own ==>
             InPlace(g, FormatMaps(g, V, good), own, v)
    ensures Owned(g, FormatMaps(g, V, good), own)
  {
    var m := FormatMaps(g, V, good);
    forall i | 0 <= i < g.D ensures DataAt(m, own, i) { assert OwnerAt(g, good, own, i); }
    forall i | 0 <= i < 2 ensures FreeAt(g, m, own, i) { assert OwnerAt(g, good, own, g.D + i); }
    forall i | 0 <= i < g.ISOL ensures IsolAt(m, own, i) { assert OwnerAt(g, good, own, g.D + 2 + i); }
    forall i | 0 <= i < g.K ensures LogAt(m, own, i) { assert OwnerAt(g, good, own, g.D + 2 + g.ISOL + i); }
  }

  lemma FormatOwner(g: Geo, good: seq<nat>, i: nat)
    requires Ascending(good) && i < |good|
    ensures good[i] in FormatOwners(g, good) && FormatOwners(g, good)[good[i]] == FormatSlot(g, i)
  {
    AscendingDistinct(good);
  }

  lemma FormatInPlace(g: Geo, V: nat, good: seq<nat>, v: nat)
    requires |good| == g.D + 2 + g.ISOL + g.K && g.K <= g.LOG && V < NO_BLOCK
    requires Ascending(good) && forall i :: 0 <= i < |good| ==> 0 < good[i] < V
    requires v in FormatOwners(g, good)
    ensures InPlace(g, FormatMaps(g, V, good), FormatOwners(g, good), v)
  {
    var m := FormatMaps(g, V, good);
    var i: nat :| i < |good| && good[i] == v;
    FormatOwner(g, good, i);
    if g.D <= i < g.D + 2 { assert m.free[i - g.D] == v; }
  }

  /** A freshly formatted bank: everything erased, no entries, pointers at their start. */
  ghost function FormatPicture(g: Geo, rwList: seq<Option<Addr>>, isList: seq<Option<Addr>>,
      vtList: seq<Option<Addr>>): Pic
    requires GeoOk(g)
  {
    Pic(ErasedBlocks(g.D, g.P), ErasedBlocks(g.K, g.P), ErasedBlocks(g.ISOL, g.P),
        map[], -1, None, Addr(0, g.P - 1), g.K - 1, rwList, None, None, g.ISOL, isList, vtList, Idle)
  }

  lemma FormatAtRest(g: Geo, a: Pic)
    requires GeoOk(g) && |a.rwList| == |a.isList| == |a.vtList| == g.P
    requires a == FormatPicture(g, a.rwList, a.isList, a.vtList)
    ensures AtRest(g, a)
    ensures forall l :: ViewAt(g, a, l) == BlankData(g.S)
  {
    forall b | 1 <= b < g.K ensures RwBlock(g, a, b) {}
    forall i | 0 <= i < g.ISOL ensures IsBlock(g, a, i) {}
  }
}
