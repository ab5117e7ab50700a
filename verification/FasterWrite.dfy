/**
 Preparing for a host write and writing, on pictures (ftl_faster/ftl.c, prepare_to_new_write and
 write_to_log_block).
 */
module FasterWrite {
  import opened Common
  import opened Nand
  import opened FasterState
  import opened FasterSteps
  import opened FasterCapacity
  import opened FasterGc
  import opened FasterControl

  lemma InvParts(g: Geo, a: Pic)
    ensures Inv(g, a) <==> Core(g, a) && Behind(g, a)
  {
  }

  lemma InvEntries(g: Geo, a: Pic)
    ensures Inv(g, a) ==> forall l :: l in a.hm ==> InLog(g, a.hm[l])
  {
    EntriesInLog(g, a);
  }

  lemma EntriesOneToOne(g: Geo, a: Pic)
    ensures Core(g, a) || Inv(g, a) ==> OneToOne(g, a.hm) && (a.iv.Some? ==> a.iv.value.off < g.P)
  {
    if Core(g, a) {
      DistinctLogLpns(g, a);
      EntriesInLog(g, a);
    }
  }

  lemma SwPointers(g: Geo, a: Pic)
    ensures Inv(g, a) ==>
            (a.swLbn.None? <==> a.swOff == -1) && -1 <= a.swOff < g.P && (a.swLbn.Some? ==> a.swLbn.value < g.D)
  {
  }

  /**
   The write pointers of picture c have moved on to log address x, for lpn l to be written
   there next; a is c with the pointers not yet moved.
   */
  ghost predicate Targeted(g: Geo, a: Pic, c: Pic, l: Addr, x: Addr)
  {
    && Inv(g, a)
    && if x.blk == 0 then SwNext(g, a, l) && x.off == l.off && c == a.(swOff := l.off, swLbn := Some(l.blk))
       else RwRoom(g, a) && x == Succ(g, a.rw) && c == a.(rw := x)
  }

  /** An open RW log block whose last data page is still to be written has room. */
  lemma OpenNotListed(g: Geo, a: Pic)
    ensures Inv(g, a) && a.phase.Idle? && 0 < a.rwFree && a.rw.off + 2 != g.P ==> RwRoom(g, a) && 1 <= Succ(g, a.rw).blk
  {
  }

  /** Lpn l is programmed at log address x. */
  ghost function HostWritten(c: Pic, l: Addr, x: Addr, p: Page): Pic
    requires x.blk < |c.log| && x.off < |c.log[x.blk]| && x.off < |c.rwList|
  {
    c.(log := Put(c.log, x.blk, x.off, p), hm := c.hm[l := x],
       rwList := if x.blk == 0 then c.rwList else c.rwList[x.off := Some(l)])
  }

  /** The same, field by field. */
  lemma WrittenParts(c: Pic, l: Addr, x: Addr, p: Page)
    requires x.blk < |c.log| && x.off < |c.log[x.blk]| && x.off < |c.rwList|
    ensures HostWritten(c, l, x, p) ==
              c.(log := Put(c.log, x.blk, x.off, p), hm := c.hm[l := x],
                 rwList := if x.blk == 0 then c.rwList else c.rwList[x.off := Some(l)])
  {
  }

  lemma WriteOk(g: Geo, a: Pic, c: Pic, l: Addr, x: Addr, p: Page)
    ensures Targeted(g, a, c, l, x) && l.blk < g.D && l.off < g.P && p.Written? ==>
              && x.blk < g.K <= g.LOG && |c.log| == g.K && |c.log[x.blk]| == |c.rwList| == g.P && x.off < g.P
              && BlankFrom(c.log[x.blk], x.off)
              && Inv(g, HostWritten(c, l, x, p))
              && ViewAt(g, HostWritten(c, l, x, p), l) == p.sects
              && (forall k :: k != l ==> ViewAt(g, HostWritten(c, l, x, p), k) == ViewAt(g, a, k))
  {
    if Targeted(g, a, c, l, x) && l.blk < g.D && l.off < g.P && p.Written? {
      if x.blk == 0 {
        SwWrittenCore(g, a, l, p);
        SwWrittenView(g, a, l, p);
        assert Addr(0, l.off) == x;
      } else {
        RwWrittenCore(g, a, l, p);
        RwWrittenView(g, a, l, p);
      }
      forall k ensures NotBehind(g, HostWritten(c, l, x, p), k) { assert NotBehind(g, a, k); }
    }
  }

  /** The address about to be written is nobody's, so the hash table has room for it. */
  lemma TargetRoom(g: Geo, a: Pic, c: Pic, l: Addr, x: Addr)
    ensures Targeted(g, a, c, l, x) && l.blk < g.D && l.off < g.P ==> |c.hm| < Capacity(g)
  {
    if Targeted(g, a, c, l, x) && l.blk < g.D && l.off < g.P {
      forall k | k in a.hm ensures a.hm[k] != x { assert LocOk(g, a, k); }
      HashRoom(g, a, x);
    }
  }

  // ----- what a write does to the contents -----

  /** Every page of the bank reads as S sectors. */
  ghost predicate FullPages(g: Geo, a: Pic) {
    forall l {:trigger ViewAt(g, a, l)} :: |ViewAt(g, a, l)| == g.S
  }

  /** Lpn l has got data from sector off on, and nothing else has changed. */
  ghost predicate Spliced(g: Geo, a: Pic, b: Pic, l: Addr, off: nat, data: PageData)
  {
    && off + |data| <= |ViewAt(g, a, l)|
    && ViewAt(g, b, l) == Splice(ViewAt(g, a, l), off, data)
    && forall k {:trigger ViewAt(g, b, k)} :: k != l ==> ViewAt(g, b, k) == ViewAt(g, a, k)
  }

  lemma SplicedSame(g: Geo, a: Pic, b: Pic, c: Pic, l: Addr, off: nat, data: PageData)
    ensures Spliced(g, a, b, l, off, data) && SameView(g, b, c) ==> Spliced(g, a, c, l, off, data)
  {
  }

  lemma SplicedAfter(g: Geo, a: Pic, b: Pic, c: Pic, l: Addr, off: nat, data: PageData)
    ensures SameView(g, a, b) && Spliced(g, b, c, l, off, data) ==> Spliced(g, a, c, l, off, data)
  {
  }

  lemma SameFull(g: Geo, a: Pic, b: Pic)
    ensures FullPages(g, a) && SameView(g, a, b) ==> FullPages(g, b)
  {
  }

  /** Before a write the pages read as they did before the pointers moved. */
  lemma TargetEntries(g: Geo, a: Pic, c: Pic, l: Addr, x: Addr)
    ensures Targeted(g, a, c, l, x) ==>
            (forall k :: k in c.hm ==> InLog(g, c.hm[k])) && ViewAt(g, c, l) == ViewAt(g, a, l)
  {
    InvEntries(g, a);
  }

  lemma FewerKeys(m: map<Addr, Addr>, k: Addr)
    ensures |m - {k}| <= |m|
  {
    if k in m {
      assert m == (m - {k})[k := m[k]];
    } else {
      assert m - {k} == m;
    }
  }

  lemma FullAt(g: Geo, a: Pic, l: Addr)
    ensures FullPages(g, a) ==> |ViewAt(g, a, l)| == g.S
  {
  }

  lemma SplicedFull(g: Geo, a: Pic, b: Pic, l: Addr, off: nat, data: PageData)
    requires FullPages(g, a) && off + |data| <= |ViewAt(g, a, l)|
    ensures ViewAt(g, b, l) == Splice(ViewAt(g, a, l), off, data) &&
            (forall k :: k != l ==> ViewAt(g, b, k) == ViewAt(g, a, k)) ==>
              Spliced(g, a, b, l, off, data) && FullPages(g, b)
  {
  }

  lemma BlankFull(g: Geo, a: Pic)
    requires forall l :: ViewAt(g, a, l) == BlankData(g.S)
    ensures FullPages(g, a)
  {
  }
}
