/**
 The greedy FTL with its metadata (ftl_greedy/ftl.c, ftl_open, ftl_flush, ftl_read and ftl_write):
 host commands and power cycles in any order.
 */
module GreedyDevice {
  import opened Common
  import Nand
  import opened GreedyState
  import opened GreedySteps
  import opened GreedyBank
  import opened GreedyFtl
  import opened FlatDisk
  import opened Striping
  import P = GreedyPower

  // ----- tables as words -----

  /** vpn: a page of a bank as a number; NULL stands for none. */
  function VpnOf(ppb: nat, x: Option<Addr>): nat {
    if x.None? then 0 else x.value.blk * ppb + x.value.off
  }

  function PageOf(ppb: nat, v: nat): Option<Addr>
    requires 0 < ppb
  {
    if v == 0 then None else Some(Addr(v / ppb, v % ppb))
  }

  lemma VpnRoundTrip(ppb: nat, x: Option<Addr>)
    requires x.Some? ==> x.value.off < ppb && 0 < x.value.blk
    requires 0 < ppb
    ensures PageOf(ppb, VpnOf(ppb, x)) == x
  {
    if x.Some? {
      DivMod(x.value.blk, ppb, x.value.off);
      MulOrder(1, x.value.blk, ppb);
    }
  }

  function NumberOf(NB: nat, e: Lpn): nat { LpnAt(NB, e.bank, e.l) }

  function EntryOf(NB: nat, v: nat): Lpn
    requires 0 < NB
  {
    Lpn(BankOf(NB, v), LocalOf(NB, v))
  }

  function Numbers(NB: nat, list: seq<Lpn>): (r: seq<nat>)
    ensures |r| == |list| && forall i :: 0 <= i < |list| ==> r[i] == NumberOf(NB, list[i])
  {
    if list == [] then [] else Numbers(NB, list[..|list| - 1]) + [NumberOf(NB, list[|list| - 1])]
  }

  function Entries(NB: nat, words: seq<nat>): (r: seq<Lpn>)
    requires 0 < NB
    ensures |r| == |words| && forall i :: 0 <= i < |words| ==> r[i] == EntryOf(NB, words[i])
  {
    if words == [] then [] else Entries(NB, words[..|words| - 1]) + [EntryOf(NB, words[|words| - 1])]
  }

  lemma ListRoundTrip(NB: nat, list: seq<Lpn>)
    requires 0 < NB && forall i :: 0 <= i < |list| ==> list[i].bank < NB
    ensures Entries(NB, Numbers(NB, list)) == list
  {
    forall i | 0 <= i < |list| ensures EntryOf(NB, NumberOf(NB, list[i])) == list[i] {
      LocalRoundTrip(NB, list[i].bank, list[i].l);
    }
  }

  // ----- the tables of all banks -----

  /** The first n words of the page map: lpns go round the banks. */
  function MapWords(ppb: nat, maps: seq<seq<Option<Addr>>>, n: nat): (r: seq<nat>)
    requires maps != [] && forall w: nat :: w < n ==> MapHas(maps, w)
    ensures |r| == n && forall w: nat :: w < n ==> MapHas(maps, w) && r[w] == VpnOf(ppb, MapAt(maps, w))
  {
    if n == 0 then []
    else
      assert MapHas(maps, n - 1);
      MapWords(ppb, maps, n - 1) + [VpnOf(ppb, MapAt(maps, n - 1))]
  }

  predicate MapHas(maps: seq<seq<Option<Addr>>>, w: nat)
    requires maps != []
  {
    BankOf(|maps|, w) < |maps| && LocalOf(|maps|, w) < |maps[BankOf(|maps|, w)]|
  }

  function MapAt(maps: seq<seq<Option<Addr>>>, w: nat): Option<Addr>
    requires maps != [] && MapHas(maps, w)
  {
    maps[BankOf(|maps|, w)][LocalOf(|maps|, w)]
  }

  /** The first n words of vcount, V to a bank. */
  function CountWords(V: nat, vcs: seq<seq<nat>>, n: nat): (r: seq<nat>)
    requires 0 < V && forall w: nat :: w < n ==> CountHas(V, vcs, w)
    ensures |r| == n && forall w: nat :: w < n ==> CountHas(V, vcs, w) && r[w] == vcs[LocalOf(V, w)][BankOf(V, w)]
  {
    if n == 0 then []
    else
      assert CountHas(V, vcs, n - 1);
      CountWords(V, vcs, n - 1) + [vcs[LocalOf(V, n - 1)][BankOf(V, n - 1)]]
  }

  predicate CountHas(V: nat, vcs: seq<seq<nat>>, w: nat)
    requires 0 < V
  {
    LocalOf(V, w) < |vcs| && BankOf(V, w) < |vcs[LocalOf(V, w)]|
  }

  /** The tables of bank k, from the words. */
  function MapFrom(ppb: nat, NB: nat, k: nat, words: seq<nat>, n: nat): (r: seq<Option<Addr>>)
    requires 0 < ppb && forall l: nat :: l < n ==> LpnAt(NB, k, l) < |words|
    ensures |r| == n && forall l: nat :: l < n ==>
            LpnAt(NB, k, l) < |words| && r[l] == PageOf(ppb, words[LpnAt(NB, k, l)])
  {
    if n == 0 then [] else MapFrom(ppb, NB, k, words, n - 1) + [PageOf(ppb, words[LpnAt(NB, k, n - 1)])]
  }

  function CountsFrom(V: nat, k: nat, words: seq<nat>, n: nat): (r: seq<nat>)
    requires forall b: nat :: b < n ==> LpnAt(V, b, k) < |words|
    ensures |r| == n && forall b: nat :: b < n ==> LpnAt(V, b, k) < |words| && r[b] == words[LpnAt(V, b, k)]
  {
    if n == 0 then [] else CountsFrom(V, k, words, n - 1) + [words[LpnAt(V, n - 1, k)]]
  }

  /** Page l of bank k has its word, and it is its own. */
  lemma MapInside(maps: seq<seq<Option<Addr>>>, N: nat)
    requires maps != [] && forall j :: 0 <= j < |maps| ==> |maps[j]| == N
    ensures forall w: nat :: w < |maps| * N ==> MapHas(maps, w)
    ensures forall k: nat, l: nat :: k < |maps| && l < N ==>
              var w := LpnAt(|maps|, k, l); w < |maps| * N && MapHas(maps, w) && MapAt(maps, w) == maps[k][l]
  {
    var NB := |maps|;
    forall w: nat | w < NB * N ensures MapHas(maps, w) {
      LpnParts(NB, w);
      LessDiv(w, N, NB);
    }
    forall k: nat, l: nat | k < NB && l < N
      ensures var w := LpnAt(NB, k, l); w < NB * N && MapHas(maps, w) && MapAt(maps, w) == maps[k][l] {
      LocalRoundTrip(NB, k, l);
      Below(l, N, NB, k);
    }
  }

  lemma CountInside(V: nat, vcs: seq<seq<nat>>)
    requires 0 < V && forall j :: 0 <= j < |vcs| ==> |vcs[j]| == V
    ensures forall w: nat :: w < |vcs| * V ==> CountHas(V, vcs, w)
    ensures forall k: nat, b: nat :: k < |vcs| && b < V ==>
              var w := LpnAt(V, b, k);
              w < |vcs| * V && CountHas(V, vcs, w) && vcs[LocalOf(V, w)][BankOf(V, w)] == vcs[k][b]
  {
    forall w: nat | w < |vcs| * V ensures CountHas(V, vcs, w) {
      LpnParts(V, w);
      LessDiv(w, |vcs|, V);
    }
    forall k: nat, b: nat | k < |vcs| && b < V
      ensures var w := LpnAt(V, b, k);
              w < |vcs| * V && CountHas(V, vcs, w) && vcs[LocalOf(V, w)][BankOf(V, w)] == vcs[k][b] {
      LocalRoundTrip(V, b, k);
      Below(k, |vcs|, V, b);
    }
  }

  /** The words say what the tables of bank k do. */
  ghost predicate MapKnown(ppb: nat, NB: nat, k: nat, pageMap: seq<Option<Addr>>, words: seq<nat>) {
    forall l: nat :: l < |pageMap| ==>
      LpnAt(NB, k, l) < |words| && words[LpnAt(NB, k, l)] == VpnOf(ppb, pageMap[l])
  }

  ghost predicate CountsKnown(V: nat, k: nat, vcount: seq<nat>, words: seq<nat>) {
    forall b: nat :: b < |vcount| ==> LpnAt(V, b, k) < |words| && words[LpnAt(V, b, k)] == vcount[b]
  }

  lemma MapBack(ppb: nat, NB: nat, k: nat, pageMap: seq<Option<Addr>>, words: seq<nat>)
    requires MapKnown(ppb, NB, k, pageMap, words) && 0 < ppb
    requires forall l :: 0 <= l < |pageMap| && pageMap[l].Some? ==>
             pageMap[l].value.off < ppb && 0 < pageMap[l].value.blk
    ensures forall l: nat :: l < |pageMap| ==> LpnAt(NB, k, l) < |words|
    ensures MapFrom(ppb, NB, k, words, |pageMap|) == pageMap
  {
    hide LpnAt, VpnOf, PageOf;
    var r := MapFrom(ppb, NB, k, words, |pageMap|);
    forall l: nat | l < |pageMap| ensures r[l] == pageMap[l] { VpnRoundTrip(ppb, pageMap[l]); }
  }

  lemma CountsBack(V: nat, k: nat, vcount: seq<nat>, words: seq<nat>)
    requires CountsKnown(V, k, vcount, words)
    ensures forall b: nat :: b < |vcount| ==> LpnAt(V, b, k) < |words|
    ensures CountsFrom(V, k, words, |vcount|) == vcount
  {
    hide LpnAt;
  }

  // ----- the device -----

  /** Nothing that a bank knows has changed. */
  twostate predicate Same(b: Bank)
    reads b, b.lpnList
  {
    && b.pageMap == old(b.pageMap) && b.vcount == old(b.vcount) && b.curWrite == old(b.curWrite)
    && b.gcVblock == old(b.gcVblock) && b.freeBlkCnt == old(b.freeBlkCnt) && b.flash == old(b.flash)
    && b.wrapped == old(b.wrapped) && b.lpnList[..] == old(b.lpnList[..])
  }

  /** What a bank keeps in memory. */
  datatype Tables = Tables(
    pageMap: seq<Option<Addr>>, vcount: seq<nat>, curWrite: Addr, gcVblock: nat, freeBlkCnt: nat, lpnList: seq<Lpn>)

  ghost function TablesOf(b: Bank): Tables
    reads b, b.lpnList
  {
    Tables(b.pageMap, b.vcount, b.curWrite, b.gcVblock, b.freeBlkCnt, b.lpnList[..])
  }

  /** What is in flash has not changed. */
  twostate predicate SameFlash(b: Bank)
    reads b
  {
    b.flash == old(b.flash) && b.wrapped == old(b.wrapped)
  }

  twostate lemma SameBanks(f: Ftl)
    requires old(f.Valid()) && f.disk == old(f.disk) && forall i :: 0 <= i < |f.banks| ==> Same(f.banks[i])
    ensures f.Valid()
  {
    hide Holds;
    forall i | 0 <= i < |f.banks| ensures f.BankOk(i) {
      assert old(f.BankOk(i)) && Same(f.banks[i]);
    }
  }

  lemma LpnAtBelow(V: nat, q: nat, k: nat, NB: nat)
    requires q < V && k < NB
    ensures LpnAt(V, q, k) < NB * V
  {
    Below(k, NB, V, q);
  }

  /** What happens to the device: a host command, or a power cycle between two of them. */
  datatype Step = Host(cmd: Cmd) | PowerOff

  predicate StepOk(s: Step, size: nat) {
    s.Host? ==> InRange(s.cmd, size)
  }

  predicate AllIn(cmds: seq<Cmd>, size: nat) {
    forall i :: 0 <= i < |cmds| ==> InRange(cmds[i], size)
  }

  /** The host commands among the steps. */
  function Hosts(steps: seq<Step>): seq<Cmd> {
    if steps == [] then []
    else
      var before := Hosts(steps[..|steps| - 1]);
      match steps[|steps| - 1]
      case Host(cmd) => before + [cmd]
      case PowerOff => before
  }

  lemma HostsNone()
    ensures Hosts([]) == []
  {
  }

  lemma HostsOn(steps: seq<Step>, i: nat)
    requires i < |steps|
    ensures Hosts(steps[..i + 1]) == Hosts(steps[..i]) + if steps[i].Host? then [steps[i].cmd] else []
    ensures steps[i].Host? ==>
              var cmds := Hosts(steps[..i + 1]);
              cmds != [] && cmds[..|cmds| - 1] == Hosts(steps[..i]) && cmds[|cmds| - 1] == steps[i].cmd &&
              cmds[..|cmds| - 1 + 1] == cmds
  {
    assert steps[..i + 1][..i] == steps[..i];
  }

  lemma HostsIn(steps: seq<Step>, size: nat)
    requires forall i :: 0 <= i < |steps| ==> StepOk(steps[i], size)
    ensures AllIn(Hosts(steps), size)
  {
  }

  /** A host command adds to what the array and the reads are; a power cycle does not. */
  lemma StepRun(d: seq<Sector>, steps: seq<Step>, i: nat)
    requires i < |steps| && forall j :: 0 <= j < |steps| ==> StepOk(steps[j], |d|)
    ensures AllIn(Hosts(steps[..i]), |d|) && AllIn(Hosts(steps[..i + 1]), |d|)
    ensures var (e, outs) := RunFlat(d, Hosts(steps[..i]));
            RunFlat(d, Hosts(steps[..i + 1])) ==
              match steps[i]
              case PowerOff => (e, outs)
              case Host(Write(lba, data)) => (Overwrite(e, lba, data), outs)
              case Host(Read(lba, n)) => (e, outs + [e[lba..lba + n]])
  {
    hide Overwrite, RunFlat, Hosts;
    HostsIn(steps[..i], |d|);
    HostsIn(steps[..i + 1], |d|);
    HostsOn(steps, i);
    var cmds := Hosts(steps[..i + 1]);
    if steps[i].Host? {
      RunFlatOn(d, cmds, |cmds| - 1);
      assert RunFlat(d, cmds[..|cmds| - 1]) == RunFlat(d, Hosts(steps[..i]));
    } else {
      assert cmds == Hosts(steps[..i]);
    }
  }

  /**
   The FTL and its metadata area.  The source keeps one copy of the tables, which the metadata code reads
   and writes as words; here Save and Load convert between those words and the tables of the banks.  Load
   takes nothing from the tables as they were, which are lost with the power.
   */
  class Device {
    const ftl: Ftl
    const store: P.Store
    const ppb: nat // PAGES_PER_BLK
    const V: nat   // VBLKS_PER_BANK

    /** The two halves are of one device, and share nothing. */
    ghost predicate Fit() {
      && 0 < ppb && store.c.NB == ftl.NB && store.c.NL == ftl.NB * ftl.N && store.c.B == ftl.NB * V
      && (forall i :: 0 <= i < |ftl.banks| ==> ftl.banks[i].d.P == ppb && ftl.banks[i].d.V == V)
      && this !in ftl.Repr()
    }

    ghost predicate Valid()
      reads this, store, ftl, ftl.Repr()
    {
      Fit() && ftl.Valid() && store.Valid()
    }

    constructor (ftl: Ftl, store: P.Store, ppb: nat, V: nat)
      requires 0 < ppb && store.c.NB == ftl.NB && store.c.NL == ftl.NB * ftl.N && store.c.B == ftl.NB * V
      requires forall i :: 0 <= i < |ftl.banks| ==> ftl.banks[i].d.P == ppb && ftl.banks[i].d.V == V
      requires ftl.Valid() && store.Valid()
      ensures Valid() && this.ftl == ftl && this.store == store
    {
      this.ftl, this.store, this.ppb, this.V := ftl, store, ppb, V;
    }

    /** These words say what the tables of bank k do. */
    ghost predicate BankKnows(k: nat, table: seq<nat>, vcount: seq<nat>, misc: seq<P.Misc>)
      requires k < |ftl.banks|
      reads ftl.banks[k], ftl.banks[k].lpnList
    {
      var b := ftl.banks[k];
      && MapKnown(ppb, ftl.NB, k, b.pageMap, table) && CountsKnown(V, k, b.vcount, vcount)
      && k < |misc| && MiscKnows(misc[k], misc[k], k)
    }

    /** The words in memory do. */
    ghost predicate Knows(k: nat)
      requires k < |ftl.banks|
      reads store, ftl.banks[k], ftl.banks[k].lpnList
    {
      BankKnows(k, store.table, store.vcount, store.misc)
    }

    /** The tables of all banks, and their metadata with what the banks know. */
    method AllTables() returns (maps: seq<seq<Option<Addr>>>, vcs: seq<seq<nat>>, ms: seq<P.Misc>)
      requires Valid()
      ensures |maps| == |vcs| == |ms| == |ftl.banks| == |store.misc|
      ensures forall j :: 0 <= j < |maps| ==> maps[j] == ftl.banks[j].pageMap && vcs[j] == ftl.banks[j].vcount
      ensures forall j :: 0 <= j < |maps| ==> MiscKnows(store.misc[j], ms[j], j)
    {
      hide Bank.Valid, Holds, P.Ok;
      Sizes();
      maps, vcs, ms := [], [], [];
      for i := 0 to |ftl.banks|
        invariant |maps| == |vcs| == |ms| == i
        invariant forall j :: 0 <= j < i ==> maps[j] == ftl.banks[j].pageMap && vcs[j] == ftl.banks[j].vcount
        invariant forall j :: 0 <= j < i ==> MiscKnows(store.misc[j], ms[j], j)
      {
        var b := ftl.banks[i];
        maps, vcs := maps + [b.pageMap], vcs + [b.vcount];
        ms := ms + [store.misc[i].(curWriteVpn := VpnOf(ppb, Some(b.curWrite)), gcVblock := b.gcVblock,
                                   freeBlkCnt := b.freeBlkCnt, lpnList := Numbers(ftl.NB, b.lpnList[..]))];
      }
    }

    /** The words that the metadata code finds in memory are what the tables of the banks say. */
    method Save()
      requires Valid()
      modifies store`table, store`vcount, store`misc
      ensures Valid() && forall k :: 0 <= k < |ftl.banks| ==> Knows(k)
    {
      hide Bank.Valid, Holds, P.Ok, MapHas, CountHas, MapAt, LpnAt, BankOf, LocalOf, VpnOf, Numbers, MapWords,
        CountWords;
      Sizes();
      var maps, vcs, ms := AllTables();
      var NL, B := store.c.NL, store.c.B;
      MapInside(maps, ftl.N);
      CountInside(V, vcs);
      var t := MapWords(ppb, maps, NL) + store.table[NL..];
      var v := CountWords(V, vcs, B) + store.vcount[B..];
      store.UpdateMemory(t, v, ms);
    }

    /** The metadata of bank k in memory are m0 but for what the bank knows. */
    ghost predicate MiscKnows(m0: P.Misc, m: P.Misc, k: nat)
      requires k < |ftl.banks|
      reads ftl.banks[k], ftl.banks[k].lpnList
    {
      var b := ftl.banks[k];
      m == m0.(curWriteVpn := VpnOf(ppb, Some(b.curWrite)), gcVblock := b.gcVblock, freeBlkCnt := b.freeBlkCnt,
               lpnList := Numbers(ftl.NB, b.lpnList[..]))
    }

    lemma Sizes()
      requires Valid()
      ensures |ftl.banks| == ftl.NB == |store.misc| && 0 < ftl.NB && 1 <= ftl.N && store.c.NL <= |store.table|
      ensures store.c.B <= |store.vcount| && 0 < V
      ensures forall i {:trigger ftl.banks[i]} :: 0 <= i < ftl.NB ==>
                |ftl.banks[i].pageMap| == ftl.N && |ftl.banks[i].vcount| == V && ftl.banks[i].lpnList.Length == ppb
    {
      P.RoundUpLeast(store.c.NL, store.c.SE);
      assert ftl.BankOk(0);
      ftl.banks[0].Bounds();
      forall i {:trigger ftl.banks[i]} | 0 <= i < ftl.NB
        ensures |ftl.banks[i].pageMap| == ftl.N && |ftl.banks[i].vcount| == V && ftl.banks[i].lpnList.Length == ppb {
        assert ftl.BankOk(i);
        ftl.banks[i].Bounds();
      }
    }

    /** What the words say of bank k is t. */
    ghost predicate Tells(k: nat, t: Tables)
      reads store
    {
      && 0 < ppb && 0 < ftl.NB && k < |store.misc|
      && (forall l: nat :: l < |t.pageMap| ==> LpnAt(ftl.NB, k, l) < |store.table|)
      && (forall q: nat :: q < |t.vcount| ==> LpnAt(V, q, k) < |store.vcount|)
      && MapFrom(ppb, ftl.NB, k, store.table, |t.pageMap|) == t.pageMap
      && CountsFrom(V, k, store.vcount, |t.vcount|) == t.vcount
      && PageOf(ppb, store.misc[k].curWriteVpn) == Some(t.curWrite)
      && store.misc[k].gcVblock == t.gcVblock && store.misc[k].freeBlkCnt == t.freeBlkCnt
      && Entries(ftl.NB, store.misc[k].lpnList) == t.lpnList
    }

    /** It is what the bank knows. */
    lemma LoadedSame(k: nat)
      requires Valid() && k < |ftl.banks| && Knows(k) && 0 < ftl.NB
      ensures Tells(k, TablesOf(ftl.banks[k]))
    {
      hide LpnAt, P.Ok, Bank.Valid, Holds, MapKnown, CountsKnown, VpnOf, PageOf, EntryOf, NumberOf;
      var b := ftl.banks[k];
      assert ftl.BankOk(k);
      b.Bounds();
      MapBack(ppb, ftl.NB, k, b.pageMap, store.table);
      CountsBack(V, k, b.vcount, store.vcount);
      VpnRoundTrip(ppb, Some(b.curWrite));
      ListRoundTrip(ftl.NB, b.lpnList[..]);
    }

    /** The tables of bank k come from the words, n lpns and v blocks. */
    method LoadBank(k: nat, n: nat, v: nat, ghost t: Tables)
      requires k < |ftl.banks| && Tells(k, t) && n == |t.pageMap| && v == |t.vcount|
      requires |t.lpnList| == ftl.banks[k].lpnList.Length
      modifies ftl.banks[k], ftl.banks[k].lpnList
      ensures TablesOf(ftl.banks[k]) == t && SameFlash(ftl.banks[k])
    {
      hide MapFrom, CountsFrom, PageOf, Entries, LpnAt;
      var m := store.misc[k];
      ftl.banks[k].Restore(MapFrom(ppb, ftl.NB, k, store.table, n), CountsFrom(V, k, store.vcount, v),
                           PageOf(ppb, m.curWriteVpn).value, m.gcVblock, m.freeBlkCnt, Entries(ftl.NB, m.lpnList));
    }

    /** What the first n banks keep in memory. */
    ghost function TablesUpTo(n: nat): (r: seq<Tables>)
      requires n <= |ftl.banks|
      reads ftl.Repr()
      ensures |r| == n && forall i :: 0 <= i < n ==> r[i] == TablesOf(ftl.banks[i])
    {
      if n == 0 then [] else
        assert forall o :: o in Foot(ftl.banks[n - 1]) ==> o in ftl.Repr();
        TablesUpTo(n - 1) + [TablesOf(ftl.banks[n - 1])]
    }

    /** The tables of all banks are lost with the power. */
    method LoseTables()
      requires ftl.Apart()
      modifies ftl.Repr()
      ensures forall k :: 0 <= k < |ftl.banks| ==> SameFlash(ftl.banks[k])
    {
      for k := 0 to |ftl.banks|
        invariant forall i :: 0 <= i < |ftl.banks| ==> SameFlash(ftl.banks[i])
      {
        ftl.banks[k].Lose();
      }
    }

    /** load_metadata: the words become the tables of the banks again, whatever they were. */
    method Load(ghost ts: seq<Tables>)
      requires ftl.Apart() && |ts| == |ftl.banks| && forall k :: 0 <= k < |ts| ==> Tells(k, ts[k])
      requires forall k :: 0 <= k < |ts| ==> |ts[k].pageMap| == ftl.N && |ts[k].vcount| == V
      requires forall k :: 0 <= k < |ts| ==> |ts[k].lpnList| == ftl.banks[k].lpnList.Length
      modifies ftl.Repr()
      ensures forall k :: 0 <= k < |ts| ==> TablesOf(ftl.banks[k]) == ts[k] && SameFlash(ftl.banks[k])
    {
      hide Tells;
      for k := 0 to |ftl.banks|
        invariant forall i :: 0 <= i < k ==> TablesOf(ftl.banks[i]) == ts[i]
        invariant forall i :: 0 <= i < |ftl.banks| ==> SameFlash(ftl.banks[i])
      {
        LoadBank(k, ftl.N, V, ts[k]);
      }
    }

    /** What the banks know outlives the power: their words are in the tables that come back. */
    lemma Kept(k: nat, table: seq<nat>, vcount: seq<nat>, misc: seq<P.Misc>)
      requires Valid() && k < |ftl.banks|
      requires BankKnows(k, table, vcount, misc)
      requires store.table == table && P.SameData(misc, store.misc)
      requires |store.vcount| == |vcount| && forall q :: 0 <= q < store.c.B ==> store.vcount[q] == vcount[q]
      ensures Knows(k)
    {
      hide Bank.Valid, Holds, P.Ok, LpnAt, VpnOf, Numbers, MapKnown;
      Sizes();
      var b := ftl.banks[k];
      forall q: nat | q < |b.vcount| ensures store.vcount[LpnAt(V, q, k)] == b.vcount[q] {
        LpnAtBelow(V, q, k, ftl.NB);
      }
    }

    /** The words on flash outlive the power; what they say of each bank is what it knew. */
    method FlushAndOff() returns (ghost ts: seq<Tables>)
      requires Valid()
      modifies store
      ensures Valid() && ts == TablesUpTo(|ftl.banks|) && forall k :: 0 <= k < |ts| ==> Tells(k, ts[k])
    {
      hide Bank.Valid, Holds, P.Ok, BankKnows, P.SameData, Tells;
      Save();
      ghost var table, vcount, misc := store.table, store.vcount, store.misc;
      forall k | 0 <= k < |ftl.banks| ensures BankKnows(k, table, vcount, misc) { assert Knows(k); }
      store.PowerCycle();
      Sizes();
      ts := TablesUpTo(|ftl.banks|);
      forall k | 0 <= k < |ts| ensures Tells(k, ts[k]) {
        Kept(k, table, vcount, misc);
        LoadedSame(k);
      }
    }

    /** ftl_flush, the power off and on, and ftl_open: every sector reads as before. */
    method PowerCycle()
      requires Valid()
      modifies ftl.Repr(), store
      ensures Valid() && ftl.disk == old(ftl.disk)
    {
      hide Bank.Valid, Holds, P.Ok, Tells;
      Sizes();
      ghost var ts := FlushAndOff();
      LoseTables();
      Load(ts);
      forall k | 0 <= k < |ftl.banks| ensures Same(ftl.banks[k]) {
        assert TablesOf(ftl.banks[k]) == ts[k] == old(TablesOf(ftl.banks[k]));
      }
      SameBanks(ftl);
    }

    /** A run of host commands and power cycles: every read returns what the flat array would, up to a clash. */
    method Run(steps: seq<Step>) returns (ok: bool, outs: seq<seq<Sector>>, ghost k: nat, ghost vt: nat)
      requires Valid() && forall i :: 0 <= i < |steps| ==> StepOk(steps[i], |ftl.disk|)
      modifies ftl, ftl.Repr(), store
      ensures ok ==> Valid() && AllIn(Hosts(steps), |old(ftl.disk)|) &&
                     (ftl.disk, outs) == RunFlat(old(ftl.disk), Hosts(steps))
      ensures !ok ==> ftl.Clashes(k, vt)
      ensures ftl.NB == 1 ==> ok
    {
      hide Bank.Valid, Holds, P.Ok, RunFlat, Overwrite, Hosts, Clash;
      ok, outs, k, vt := true, [], 0, 0;
      ghost var d := ftl.disk;
      HostsIn(steps, |d|);
      HostsNone();
      RunFlatNone(d);
      for i := 0 to |steps|
        invariant ok && Valid() && |ftl.disk| == |d|
        invariant AllIn(Hosts(steps[..i]), |d|)
        invariant RunFlat(d, Hosts(steps[..i])) == (ftl.disk, outs)
      {
        StepRun(d, steps, i);
        match steps[i]
        case PowerOff => PowerCycle();
        case Host(Write(lba, data)) =>
          ghost var done;
          ok, k, vt, done := ftl.FtlWrite(lba, data);
          if !ok { return; }
        case Host(Read(lba, n)) =>
          var data := ftl.FtlRead(lba, n);
          outs := outs + [data];
      }
      assert steps[..|steps|] == steps;
    }
  }
}
