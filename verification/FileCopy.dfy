/**
 Copying a file inside the device: the host turns the file's blocks into extents
 (PCModule2/server/issd_compute.c, postProcess), and the device copies from extents to extents
 through a buffer of bounded size (issd/issd.c, do_issd_backup).
 */
module FileCopy {
  import opened Common
  import opened Nand
  import opened SectorStore
  import opened BankTurns

  /** lbaExt: len sectors from lba on. */
  datatype Extent = Extent(lba: nat, len: nat)

  function Run(lba: nat, len: nat): (r: seq<nat>)
    ensures |r| == len && forall k :: 0 <= k < len ==> r[k] == lba + k
  {
    if len == 0 then [] else Run(lba, len - 1) + [lba + len - 1]
  }

  /** The sectors of a list of extents, in order. */
  function Expand(es: seq<Extent>): seq<nat> {
    if es == [] then [] else Expand(es[..|es| - 1]) + Run(es[|es| - 1].lba, es[|es| - 1].len)
  }

  /** The sectors of a file, in order: its blocks are k sectors each, counted from the start of the partition. */
  function FileSectors(blocks: seq<nat>, k: nat, first: nat): seq<nat> {
    if blocks == [] then []
    else FileSectors(blocks[..|blocks| - 1], k, first) + Run(first + blocks[|blocks| - 1] * k, k)
  }

  // ----- postProcess -----

  /** Block i starts a run of consecutive blocks. */
  predicate Starts(blocks: seq<nat>, i: nat)
    requires i < |blocks|
  {
    i == 0 || blocks[i] != blocks[i - 1] + 1
  }

  /** The number of runs of consecutive blocks. */
  function Runs(blocks: seq<nat>): nat {
    if blocks == [] then 0
    else Runs(blocks[..|blocks| - 1]) + (if Starts(blocks, |blocks| - 1) then 1 else 0)
  }

  /** The extents of a file leave at least one entry of the room for them unused. */
  predicate Fits(blocks: seq<nat>, room: int) { blocks == [] || Runs(blocks) < room }

  lemma RunsMore(blocks: seq<nat>, n: nat)
    requires n < |blocks|
    ensures Runs(blocks[..n + 1]) == Runs(blocks[..n]) + (if Starts(blocks, n) then 1 else 0)
  {
    assert blocks[..n + 1][..n] == blocks[..n];
  }

  lemma {:induction false} RunsPrefix(blocks: seq<nat>, n: nat)
    requires n <= |blocks|
    ensures Runs(blocks[..n]) <= Runs(blocks)
    decreases |blocks| - n
  {
    if n < |blocks| {
      RunsMore(blocks, n);
      RunsPrefix(blocks, n + 1);
    } else {
      assert blocks[..n] == blocks;
    }
  }

  /** n blocks no two of which are consecutive. */
  function Spread(n: nat): (r: seq<nat>)
    ensures |r| == n && forall i :: 0 <= i < n ==> r[i] == 2 * i
  {
    if n == 0 then [] else Spread(n - 1) + [2 * (n - 1)]
  }

  /** Whatever the room is, there is a file that has exactly as many extents and is refused. */
  lemma {:induction false} ExactlyFull(room: nat)
    requires 0 < room
    ensures Runs(Spread(room)) == room && !Fits(Spread(room), room)
  {
    if room > 1 { ExactlyFull(room - 1); } else { assert Spread(1)[..0] == []; }
    assert Spread(room)[..room - 1] == Spread(room - 1);
  }

  lemma RunSplit(lba: nat, a: nat, b: nat)
    ensures Run(lba, a + b) == Run(lba, a) + Run(lba + a, b)
  {
  }

  lemma ExpandMore(es: seq<Extent>, e: Extent)
    ensures Expand(es + [e]) == Expand(es) + Run(e.lba, e.len)
  {
    assert (es + [e])[..|es|] == es;
  }

  lemma FileMore(blocks: seq<nat>, n: nat, k: nat, first: nat)
    requires n < |blocks|
    ensures FileSectors(blocks[..n + 1], k, first) == FileSectors(blocks[..n], k, first) + Run(first + blocks[n] * k, k)
  {
    assert blocks[..n + 1][..n] == blocks[..n];
  }

  /** One more consecutive block continues the run of sectors. */
  lemma RunOn(blocks: seq<nat>, k: nat, first: nat, start: nat, end: nat)
    requires start < end < |blocks| && blocks[end] == blocks[start] + (end - start)
    ensures Run(first + blocks[start] * k, (end + 1 - start) * k) ==
              Run(first + blocks[start] * k, (end - start) * k) + Run(first + blocks[end] * k, k)
  {
    assert (end + 1 - start) * k == (end - start) * k + k;
    assert blocks[end] * k == blocks[start] * k + (end - start) * k;
    RunSplit(first + blocks[start] * k, (end - start) * k, k);
  }

  /** No two neighbouring extents could be one. */
  ghost predicate Maximal(es: seq<Extent>) {
    && (forall i :: 0 <= i < |es| ==> 0 < es[i].len)
    && forall i :: 0 < i < |es| ==> es[i].lba != es[i - 1].lba + es[i - 1].len
  }

  /** The blocks from start to end are one run of sectors. */
  ghost predicate RunSoFar(blocks: seq<nat>, k: nat, first: nat, start: nat, end: nat) {
    && start < end <= |blocks|
    && FileSectors(blocks[..end], k, first) ==
      FileSectors(blocks[..start], k, first) + Run(first + blocks[start] * k, (end - start) * k)
  }

  /** The inner loop of postProcess: on to the end of a run of consecutive blocks. */
  method RunEnd(blocks: seq<nat>, k: nat, first: nat, start: nat) returns (end: nat)
    requires start < |blocks|
    ensures start < end <= |blocks| && (end < |blocks| ==> blocks[end] != blocks[end - 1] + 1)
    ensures blocks[end - 1] == blocks[start] + (end - 1 - start)
    ensures FileSectors(blocks[..end], k, first) ==
            FileSectors(blocks[..start], k, first) + Run(first + blocks[start] * k, (end - start) * k)
    ensures Runs(blocks[..end]) == Runs(blocks[..start]) + (if Starts(blocks, start) then 1 else 0)
  {
    hide FileSectors, Run, Runs;
    end := start;
    while end < |blocks| && (end == start || blocks[end] == blocks[end - 1] + 1)
      invariant start <= end <= |blocks|
      invariant start < end ==> blocks[end - 1] == blocks[start] + (end - 1 - start)
      invariant start < end ==> RunSoFar(blocks, k, first, start, end)
      invariant start < end ==> Runs(blocks[..end]) == Runs(blocks[..start]) + (if Starts(blocks, start) then 1 else 0)
      decreases |blocks| - end
    {
      RunsMore(blocks, end);
      FileMore(blocks, end, k, first);
      if start < end { RunOn(blocks, k, first, start, end); } else { assert (end + 1 - start) * k == k; }
      end := end + 1;
    }
  }

  /**
   postProcess: the blocks of a file as extents.  room is the space left in the extent array;
   using all of it counts as too many.
   */
  method PostProcess(blocks: seq<nat>, k: nat, first: nat, room: nat) returns (ok: bool, es: seq<Extent>)
    requires 0 < k
    ensures ok <==> Fits(blocks, room)
    ensures Maximal(es) && Expand(es) <= FileSectors(blocks, k, first)
    ensures ok ==> Expand(es) == FileSectors(blocks, k, first) && |es| == Runs(blocks)
    ensures !ok ==> |es| == if room == 0 then 1 else room
  {
    hide Expand, FileSectors, Run, Maximal, Runs;
    var start: nat, end: nat := 0, 0;
    es, ok := [], true;
    NoExtents(blocks, k, first);
    while end < |blocks|
      invariant start == end <= |blocks| && Maximal(es) && (es == [] || |es| < room)
      invariant |es| == Runs(blocks[..end]) && (end == 0 <==> es == []) && (end < |blocks| ==> Starts(blocks, end))
      invariant Expand(es) == FileSectors(blocks[..end], k, first)
      invariant Expand(es) <= FileSectors(blocks, k, first)
      invariant end < |blocks| ==> Next(es, first + blocks[end] * k)
      decreases |blocks| - end
    {
      end := RunEnd(blocks, k, first, start);
      var e := Extent(first + blocks[start] * k, (end - start) * k);
      ExpandMore(es, e);
      EndsApart(blocks, k, first, start, end);
      MaximalMore(es, e);
      FilePrefix(blocks, end, k, first);
      RunsPrefix(blocks, end);
      es := es + [e];
      start := end;
      if |es| >= room { return false, es; }
    }
    assert blocks[..|blocks|] == blocks;
  }

  lemma NoExtents(blocks: seq<nat>, k: nat, first: nat)
    ensures Maximal([]) && Expand([]) == FileSectors(blocks[..0], k, first) &&
            Expand([]) <= FileSectors(blocks, k, first)
    ensures Runs(blocks[..0]) == 0
  {
  }

  lemma {:induction false} FilePrefix(blocks: seq<nat>, n: nat, k: nat, first: nat)
    requires n <= |blocks|
    ensures FileSectors(blocks[..n], k, first) <= FileSectors(blocks, k, first)
    decreases |blocks| - n
  {
    if n < |blocks| {
      FileMore(blocks, n, k, first);
      FilePrefix(blocks, n + 1, k, first);
    } else {
      assert blocks[..n] == blocks;
    }
  }

  /** A run from lba on would be an extent of its own. */
  ghost predicate Next(es: seq<Extent>, lba: nat) {
    es != [] ==> lba != es[|es| - 1].lba + es[|es| - 1].len
  }

  lemma MaximalMore(es: seq<Extent>, e: Extent)
    requires Maximal(es) && Next(es, e.lba) && 0 < e.len
    ensures Maximal(es + [e])
  {
  }

  /** An extent that ends before the next block does not touch it. */
  lemma EndsApart(blocks: seq<nat>, k: nat, first: nat, start: nat, end: nat)
    requires 0 < k && start < end <= |blocks| && blocks[end - 1] == blocks[start] + (end - 1 - start)
    ensures 0 < (end - start) * k
    ensures end < |blocks| && blocks[end] != blocks[end - 1] + 1 ==>
            first + blocks[start] * k + (end - start) * k != first + blocks[end] * k
  {
    assert blocks[start] * k + (end - start) * k == (blocks[end - 1] + 1) * k;
    if end < |blocks| && blocks[end] != blocks[end - 1] + 1 { TimesApart(blocks[end], blocks[end - 1] + 1, k); }
  }

  lemma TimesApart(a: nat, b: nat, k: nat)
    requires 0 < k && a != b
    ensures a * k != b * k
  {
  }

  /** The extents of a list of sectors are determined by it. */
  lemma {:induction false} MaximalUnique(es: seq<Extent>, fs: seq<Extent>)
    requires Maximal(es) && Maximal(fs) && Expand(es) == Expand(fs)
    ensures es == fs
    decreases |es|
  {
    hide Expand, Maximal;
    if es == [] || fs == [] {
      LastSector(es);
      LastSector(fs);
    } else {
      var n, m := |es| - 1, |fs| - 1;
      assert es == es[..n] + [es[n]] && fs == fs[..m] + [fs[m]];
      LastSame(es[..n], es[n], fs[..m], fs[m]);
      MaximalUnique(es[..n], fs[..m]);
    }
  }

  lemma LastSame(es: seq<Extent>, e: Extent, fs: seq<Extent>, f: Extent)
    requires Maximal(es + [e]) && Maximal(fs + [f]) && Expand(es + [e]) == Expand(fs + [f])
    ensures e == f && Expand(es) == Expand(fs) && Maximal(es) && Maximal(fs)
  {
    ExpandMore(es, e);
    ExpandMore(fs, f);
    var s := Expand(es) + Run(e.lba, e.len);
    assert 0 < (es + [e])[|es|].len && 0 < (fs + [f])[|fs|].len;
    assert s[|s| - 1] == e.lba + e.len - 1 == f.lba + f.len - 1;
    LongerLast(es, e, fs, f);
    LongerLast(fs, f, es, e);
    assert s[..|s| - e.len] == Expand(es) && s[..|s| - f.len] == Expand(fs);
    MaximalFront(es, e);
    MaximalFront(fs, f);
  }

  lemma MaximalFront(es: seq<Extent>, e: Extent)
    requires Maximal(es + [e])
    ensures Maximal(es) && 0 < e.len && Next(es, e.lba)
  {
    var s := es + [e];
    assert s[|es|] == e;
    forall i | 0 <= i < |es| ensures s[i] == es[i] && 0 < es[i].len {}
    if es != [] { assert s[|es|].lba != s[|es| - 1].lba + s[|es| - 1].len; }
    forall i | 0 < i < |es| ensures es[i].lba != es[i - 1].lba + es[i - 1].len {
      assert s[i].lba != s[i - 1].lba + s[i - 1].len;
    }
  }

  /** With the same last sector, the last extent of one list cannot be longer than that of the other. */
  lemma LongerLast(es: seq<Extent>, e: Extent, fs: seq<Extent>, f: Extent)
    requires Maximal(es + [e]) && Maximal(fs + [f]) && Expand(es + [e]) == Expand(fs + [f]) &&
             e.lba + e.len == f.lba + f.len
    ensures f.len <= e.len
  {
    hide Expand, Maximal;
    MaximalFront(es, e);
    MaximalFront(fs, f);
    ExpandMore(es, e);
    ExpandMore(fs, f);
    LastSector(es);
    if e.len < f.len {
      BeforeLast(Expand(es), Expand(fs), e, f);
    }
  }

  /** Inside the longer of two last extents lies the sector before the shorter one. */
  lemma BeforeLast(xs: seq<nat>, ys: seq<nat>, e: Extent, f: Extent)
    requires xs + Run(e.lba, e.len) == ys + Run(f.lba, f.len) && e.lba + e.len == f.lba + f.len && e.len < f.len
    ensures xs != [] && 0 < e.lba && xs[|xs| - 1] == e.lba - 1
  {
    var s := ys + Run(f.lba, f.len);
    assert |s| == |xs| + e.len == |ys| + f.len;
    var x := |xs| - 1;
    assert s[x] == Run(f.lba, f.len)[x - |ys|];
    assert xs[x] == (xs + Run(e.lba, e.len))[x];
  }

  /** What a list of extents ends with. */
  lemma LastSector(es: seq<Extent>)
    requires Maximal(es)
    ensures es == [] <==> Expand(es) == []
    ensures es != [] ==> 0 < es[|es| - 1].len && Expand(es)[|Expand(es)| - 1] == es[|es| - 1].lba + es[|es| - 1].len - 1
  {
    if es != [] { assert 0 < es[|es| - 1].len; }
  }

  // ----- do_issd_backup -----

  const BYTES_PER_SECTOR: nat := 512

  /** Sectors needed for n bytes. */
  function SectorsFor(n: nat): nat {
    (n + BYTES_PER_SECTOR - 1) / BYTES_PER_SECTOR
  }

  /** That is the least number of sectors that hold n bytes. */
  lemma SectorsMean(n: nat, c: nat)
    ensures c == SectorsFor(n) <==> n <= c * 512 < n + 512
    ensures c < SectorsFor(n) <==> c * BYTES_PER_SECTOR < n
    ensures c <= SectorsFor(n) <==> c * BYTES_PER_SECTOR < n + BYTES_PER_SECTOR
  {
  }

  function Min(a: nat, b: nat): nat { if a <= b then a else b }

  /**
   The first c sectors of the output are written, with what the input held in d0 wherever that
   was readable, and nothing else that was readable has changed.
   */
  ghost predicate Copied(d0: Disk, d: Disk, S: nat, from: seq<nat>, to: seq<nat>, c: nat) {
    && 0 < S && |d| == |d0| && c <= |from| && c <= |to|
    && (forall j :: 0 <= j < c ==>
      Get(d, S, to[j]).Some? && (Get(d0, S, from[j]).Some? ==> Get(d, S, to[j]) == Get(d0, S, from[j])))
    && (forall q: nat :: q !in to[..c] && Get(d0, S, q).Some? ==> Get(d, S, q) == Get(d0, S, q))
  }

  /** The output is apart from the input and does not use a sector twice. */
  ghost predicate Apart(from: seq<nat>, to: seq<nat>) {
    && (forall i, j :: 0 <= i < |from| && 0 <= j < |to| ==> from[i] != to[j])
    && (forall i, j :: 0 <= i < j < |to| ==> to[i] != to[j])
  }

  ghost predicate Inside(es: seq<Extent>, size: nat) {
    forall i :: 0 <= i < |es| ==> es[i].lba + es[i].len <= size
  }

  /** The sectors of extent i, in the list of all sectors. */
  lemma {:induction false} ExpandAt(es: seq<Extent>, i: nat)
    requires i < |es|
    ensures var p := |Expand(es[..i])|;
            && p + es[i].len <= |Expand(es)| && |Expand(es[..i + 1])| == p + es[i].len
            && Expand(es)[p..p + es[i].len] == Run(es[i].lba, es[i].len)
    decreases |es|
  {
    hide Run;
    assert es[..i + 1] == es[..i] + [es[i]];
    ExpandMore(es[..i], es[i]);
    var n := |es| - 1;
    assert es == es[..n] + [es[n]];
    ExpandMore(es[..n], es[n]);
    if i < n {
      ExpandAt(es[..n], i);
      assert es[..n][..i] == es[..i];
      var p := |Expand(es[..i])|;
      assert Expand(es)[p..p + es[i].len] == Expand(es[..n])[p..p + es[i].len];
    }
  }

  lemma WholeExpand(es: seq<Extent>)
    ensures es[..|es|] == es && Expand(es[..|es|]) == Expand(es) && es[..0] == [] && Expand(es[..0]) == []
  {
  }

  /** data is what the sectors hold, those that can be read. */
  ghost predicate Reads(d: Disk, S: nat, sectors: seq<nat>, data: seq<Sector>) {
    0 < S && |sectors| == |data| && forall k :: 0 <= k < |data| ==> Get(d, S, sectors[k]) in {None, Some(data[k])}
  }

  /** One write of n sectors that continue the output. */
  lemma CopiedMore(d0: Disk, d: Disk, d': Disk, S: nat, from: seq<nat>, to: seq<nat>, c: nat, lba: nat,
      data: seq<Sector>)
    requires Copied(d0, d, S, from, to, c) && Apart(from, to) && WrittenAt(d, d', S, lba, data)
    requires c + |data| <= |from| && c + |data| <= |to|
    requires to[c..c + |data|] == Run(lba, |data|) && Reads(d0, S, from[c..c + |data|], data)
    ensures Copied(d0, d', S, from, to, c + |data|)
  {
    hide Get, Run;
    var e := c + |data|;
    forall j | 0 <= j < e
      ensures Get(d', S, to[j]).Some? && (Get(d0, S, from[j]).Some? ==> Get(d', S, to[j]) == Get(d0, S, from[j])) {
      if j < c {
        NotAmong(to, j, c, lba, |data|);
        CopiedSome(d0, d, S, from, to, c, j);
      } else {
        assert to[j] == to[c..e][j - c] && from[j] == from[c..e][j - c];
      }
    }
    forall q: nat | q !in to[..e] && Get(d0, S, q).Some? ensures Get(d', S, q) == Get(d0, S, q) {
      Outside(to, c, lba, |data|, q);
    }
  }

  lemma Outside(to: seq<nat>, c: nat, lba: nat, n: nat, q: nat)
    requires c + n <= |to| && to[c..c + n] == Run(lba, n) && q !in to[..c + n]
    ensures q !in to[..c] && !(lba <= q < lba + n)
  {
    assert to[..c + n] == to[..c] + to[c..c + n];
    var t := to[c..c + n];
    forall x: nat | lba <= x < lba + n ensures x in t {
      assert Run(lba, n)[x - lba] == x;
    }
  }

  /** What has been copied is there. */
  lemma CopiedSome(d0: Disk, d: Disk, S: nat, from: seq<nat>, to: seq<nat>, c: nat, j: nat)
    requires Copied(d0, d, S, from, to, c) && j < c
    ensures Get(d, S, to[j]).Some? && (Get(d0, S, from[j]).Some? ==> Get(d, S, to[j]) == Get(d0, S, from[j]))
  {
  }

  lemma NotAmong(to: seq<nat>, j: nat, c: nat, lba: nat, n: nat)
    requires j < c && c + n <= |to| && (forall i, k :: 0 <= i < k < |to| ==> to[i] != to[k])
    requires to[c..c + n] == Run(lba, n)
    ensures !(lba <= to[j] < lba + n)
  {
    if lba <= to[j] < lba + n { RunHits(to, c, lba, n, to[j]); }
  }

  lemma RunHits(to: seq<nat>, c: nat, lba: nat, n: nat, x: nat)
    requires c + n <= |to| && to[c..c + n] == Run(lba, n) && lba <= x < lba + n
    ensures to[c + (x - lba)] == x
  {
    assert to[c..c + n][x - lba] == to[c + (x - lba)];
  }

  datatype Outcome = Done | TooManyExtents | ReadFailed | OutOfExtents | FlashFull

  /** Sector offset of extent index of es is number c of all its sectors. */
  ghost predicate At(es: seq<Extent>, index: nat, offset: nat, c: nat) {
    && index <= |es| && |Expand(es[..index])| + offset == c
    && (if index < |es| then offset <= es[index].len else offset == 0)
  }

  lemma AtStart(es: seq<Extent>)
    ensures At(es, 0, 0, 0)
  {
  }

  /** Behind the last extent there is nothing left. */
  lemma AtEnd(es: seq<Extent>, index: nat, offset: nat, c: nat)
    requires At(es, index, offset, c)
    ensures c <= |Expand(es)| && (index == |es| ==> c == |Expand(es)|)
  {
    WholeExpand(es);
    if index < |es| { ExpandAt(es, index); }
  }

  /** Going on by n sectors within an extent, and to the next one at its end. */
  lemma AtNext(es: seq<Extent>, index: nat, offset: nat, c: nat, n: nat)
    requires At(es, index, offset, c) && index < |es| && offset + n <= es[index].len
    ensures c + n <= |Expand(es)| && Expand(es)[c..c + n] == Run(es[index].lba + offset, n)
    ensures if offset + n == es[index].len then At(es, index + 1, 0, c + n) else At(es, index, offset + n, c + n)
  {
    hide Run;
    ExpandAt(es, index);
    var p, e := |Expand(es[..index])|, es[index];
    RunPart(e.lba, e.len, offset, n);
    PartOfPart(Expand(es), p, e.len, offset, n);
  }

  lemma RunPart(lba: nat, len: nat, o: nat, n: nat)
    requires o + n <= len
    ensures Run(lba, len)[o..o + n] == Run(lba + o, n)
  {
  }

  lemma PartOfPart<T>(s: seq<T>, p: nat, len: nat, o: nat, n: nat)
    requires o + n <= len && p + len <= |s|
    ensures s[p..p + len][o..o + n] == s[p + o..p + o + n]
  {
    var a, b := s[p..p + len][o..o + n], s[p + o..p + o + n];
    forall k | 0 <= k < n ensures a[k] == b[k] {
      assert a[k] == s[p..p + len][o + k];
    }
  }

  /**
   The inner loop of do_issd_backup: n sectors of the computing buffer, from position p on, go to
   the output extents from (index, offset) on.
   */
  method WriteOut(dev: Store, wr: seq<Extent>, index0: nat, offset0: nat, p0: nat, n: nat,
                  ghost d0: Disk, ghost from: seq<nat>, ghost c: nat)
    returns (r: Outcome, index: nat, offset: nat, ghost e: nat, ghost pages: nat)
    requires dev.Valid() && p0 + n <= dev.computing.Length && Inside(wr, |dev.disk| * dev.S)
    requires At(wr, index0, offset0, c) && Apart(from, Expand(wr)) && Copied(d0, dev.disk, dev.S, from, Expand(wr), c)
    requires c + n <= |from| && Reads(d0, dev.S, from[c..c + n], dev.computing[p0..p0 + n])
    modifies dev`pageMap, dev`targetRow, dev`targetBank, dev`rows, dev`wrBuf, dev`disk
    ensures dev.Valid() && c <= e <= c + n && Copied(d0, dev.disk, dev.S, from, Expand(wr), e)
    ensures r == Done ==> At(wr, index, offset, e) && e == c + n
    ensures r == OutOfExtents ==> e == |Expand(wr)| < c + n
    ensures r == FlashFull ==> e < c + n
    ensures r in {Done, OutOfExtents, FlashFull}
    ensures pages <= e - c
    ensures Spent(old(dev.Left()), old(dev.targetBank), dev.Left(), dev.targetBank, pages, r == FlashFull)
  {
    hide Store.Valid, Store.Sound, Store.Left, Copied, Reads, Apart, Expand, Run, At, WrittenAt, Spent, Takes;
    dev.Sizes();
    SpentNone(dev.Left(), dev.targetBank);
    ghost var full0, t0 := dev.Left(), dev.targetBank;
    var left: nat, p: nat := n, p0;
    index, offset, e, pages := index0, offset0, c, 0;
    ghost var data := dev.computing[p0..p0 + n];
    ghost var buffer := dev.computing[..];
    assert data == buffer[p0..p0 + n];
    while left != 0
      invariant dev.Valid() && left <= n && p == p0 + (n - left) && |dev.disk| == |old(dev.disk)| &&
        dev.computing[..] == buffer
      invariant e == c + (n - left) && At(wr, index, offset, e) && Copied(d0, dev.disk, dev.S, from, Expand(wr), e)
      invariant pages <= e - c && Spent(full0, t0, dev.Left(), dev.targetBank, pages, false)
      decreases left, |wr| - index
    {
      AtEnd(wr, index, offset, e);
      AtBound(wr, index, offset, e);
      if index >= |wr| { return OutOfExtents, index, offset, e, pages; }
      var room: nat := wr[index].len - offset;
      var send: nat := if left >= room then room else left;
      ghost var d := dev.disk;
      var ok;
      ghost var sent, k;
      ghost var full', t' := dev.Left(), dev.targetBank;
      ok, sent, k := dev.IssdWriteSectors(p, wr[index].lba + offset, send);
      AtNext(wr, index, offset, e, sent);
      ReadsPart(d0, dev.S, from, c, data, n - left, sent);
      PartOfPart(buffer, p0, n, n - left, sent);
      assert dev.computing[p..p + sent] == buffer[p..p + sent];
      WrittenSize(d, dev.disk, dev.S, wr[index].lba + offset, dev.computing[p..p + sent]);
      CopiedMore(d0, d, dev.disk, dev.S, from, Expand(wr), e, wr[index].lba + offset, dev.computing[p..p + sent]);
      SpentMore(full0, t0, full', t', pages, dev.Left(), dev.targetBank, k, !ok);
      e, pages := e + sent, pages + k;
      if !ok { return FlashFull, index, offset, e, pages; }
      if left >= room {
        index, offset := index + 1, 0;
      } else {
        offset := offset + send;
      }
      left, p := left - send, p + send;
    }
    r := Done;
  }

  lemma AtBound(es: seq<Extent>, index: nat, offset: nat, c: nat)
    requires At(es, index, offset, c)
    ensures index <= |es| && (index < |es| ==> offset <= es[index].len)
  {
  }

  lemma ReadsPart(d: Disk, S: nat, from: seq<nat>, c: nat, data: seq<Sector>, i: nat, n: nat)
    requires i + n <= |data| && c + |data| <= |from| && Reads(d, S, from[c..c + |data|], data)
    ensures Reads(d, S, from[c + i..c + i + n], data[i..i + n])
  {
    var part := from[c + i..c + i + n];
    forall k | 0 <= k < n ensures Get(d, S, part[k]) in {None, Some(data[i..i + n][k])} {
      assert part[k] == from[c..c + |data|][i + k];
    }
  }

  /**
   What of a file extent is read at once: as much as the buffer holds, from the extent's place in its first
   page on.
   */
  method ChunkSize(S: nat, cnt: nat, lba: nat, num: nat) returns (n: nat)
    requires 0 < S && 1 <= cnt && 0 < num
    ensures 0 < n <= num && Rem(lba, S) + n <= cnt * S
    ensures n == num || Rem(lba, S) + n == cnt * S
  {
    hide Quot, Rem;
    var startPage, endPage := Quot(lba, S), Quot(lba + num + S - 1, S);
    Split(lba, S);
    Split(lba + num + S - 1, S);
    MulOrder(startPage, endPage, S);
    MulOrder(endPage, startPage, S);
    MulOrder(1, cnt, S);
    assert startPage <= endPage;
    var need := endPage - startPage;
    assert endPage * S == startPage * S + need * S;
    MulOrder(cnt, need, S);
    MulOrder(need, cnt, S);
    n := if need > cnt then cnt * S - Rem(lba, S) else num;
  }

  /** r sectors have been read, start bytes of the file are done. */
  ghost predicate Progress(fileSize: nat, r: nat, start: nat, c: nat) {
    start == Min(r * BYTES_PER_SECTOR, fileSize) && c == Min(r, SectorsFor(fileSize))
  }

  /** A chunk of n sectors: all of it is written, except what lies behind the end of the file. */
  lemma ProgressMore(fileSize: nat, r: nat, start: nat, c: nat, n: nat)
    requires Progress(fileSize, r, start, c)
    ensures var end := if start + n * BYTES_PER_SECTOR >= fileSize then fileSize else start + n * BYTES_PER_SECTOR;
            && start <= end && var w := SectorsFor(end - start);
            w <= n && Progress(fileSize, r + n, end, c + w) && (0 < w ==> c == r)
  {
  }

  /** What has just been read is the input, as it was at the start. */
  lemma ReadsInput(d0: Disk, d: Disk, S: nat, from: seq<nat>, to: seq<nat>, c: nat, lba: nat, n: nat,
      buffer: seq<Sector>, p: nat, w: nat)
    requires Copied(d0, d, S, from, to, c) && Apart(from, to) && w <= n && c + n <= |from| && p + n <= |buffer|
    requires from[c..c + n] == Run(lba, n)
    requires forall q: nat :: lba <= q < lba + n ==> Get(d, S, q) == Some(buffer[p + (q - lba)])
    ensures Reads(d0, S, from[c..c + w], buffer[p..p + w])
  {
    hide Get;
    var part, data := from[c..c + w], buffer[p..p + w];
    forall k | 0 <= k < w ensures Get(d0, S, part[k]) in {None, Some(data[k])} {
      assert part[k] == from[c..c + n][k] == lba + k == from[c + k];
      assert data[k] == buffer[p + (part[k] - lba)];
      assert part[k] !in to[..c];
    }
  }

  lemma CopiedNone(d0: Disk, S: nat, from: seq<nat>, to: seq<nat>)
    requires 0 < S
    ensures Copied(d0, d0, S, from, to, 0)
  {
  }

  lemma CopiedBound(d0: Disk, d: Disk, S: nat, from: seq<nat>, to: seq<nat>, c: nat)
    requires Copied(d0, d, S, from, to, c)
    ensures |d| == |d0| && c <= |from| && c <= |to|
  {
  }

  lemma ProgressNone(fileSize: nat)
    ensures Progress(fileSize, 0, 0, 0)
  {
  }

  /** All input read: all of the file that the input covers is copied. */
  lemma ProgressEnd(fileSize: nat, r: nat, start: nat, c: nat)
    requires Progress(fileSize, r, start, c)
    ensures c <= r && c * BYTES_PER_SECTOR < fileSize + BYTES_PER_SECTOR
    ensures c == r || fileSize <= c * BYTES_PER_SECTOR
  {
    SectorsMean(fileSize, c);
  }

  /** No more is copied than the file and the input have. */
  lemma EndOfFile(fileSize: nat, r: nat, start: nat, c: nat, size: nat)
    requires Progress(fileSize, r, start, c) && r <= size
    ensures c <= Min(size, SectorsFor(fileSize))
  {
  }

  lemma ExtentInside(es: seq<Extent>, size: nat, i: nat)
    requires Inside(es, size) && i < |es|
    ensures es[i].lba + es[i].len <= size
  {
  }

  lemma AtOn(es: seq<Extent>, i: nat, o: nat, c: nat, n: nat)
    requires At(es, i, o, c) && i < |es| && o + n <= es[i].len
    ensures At(es, i, o + n, c + n)
  {
  }

  /** The end of an extent is the start of the next one. */
  lemma AtTurn(es: seq<Extent>, i: nat, c: nat)
    requires i < |es| && At(es, i, es[i].len, c)
    ensures At(es, i + 1, 0, c)
  {
    ExpandAt(es, i);
  }

  lemma ReadsNone(d: Disk, S: nat, from: seq<nat>, c: nat, buffer: seq<Sector>, p: nat)
    requires 0 < S && c <= |from| && p <= |buffer|
    ensures Reads(d, S, from[c..c + 0], buffer[p..p + 0])
  {
  }

  /** One of these input sectors had never been written. */
  ghost predicate NeverWritten(d: Disk, S: nat, from: seq<nat>, lo: nat, hi: nat) {
    0 < S && exists j {:trigger from[j]} :: lo <= j < hi && j < |from| && Get(d, S, from[j]).None?
  }

  /** A sector that cannot be read now could not be read at the start. */
  lemma Unreadable(d0: Disk, d: Disk, S: nat, from: seq<nat>, to: seq<nat>, c: nat, r: nat, lba: nat, n: nat, m: nat)
    requires Copied(d0, d, S, from, to, c) && Apart(from, to) && r + n <= |from| && from[r..r + n] == Run(lba, n) &&
             n <= m
    requires exists q: nat :: lba <= q < lba + n && Get(d, S, q).None?
    ensures NeverWritten(d0, S, from, r, r + m)
  {
    hide Get;
    var q: nat :| lba <= q < lba + n && Get(d, S, q).None?;
    assert from[r + (q - lba)] == from[r..r + n][q - lba] == q;
    assert q in from && q !in to[..c];
  }

  lemma NeverWithin(d: Disk, S: nat, from: seq<nat>, lo: nat, hi: nat, end: nat)
    requires hi <= end
    ensures NeverWritten(d, S, from, lo, hi) ==> NeverWritten(d, S, from, lo, end)
  {
  }

  /**
   One round of do_issd_backup: n sectors from lba on, those of the input from number done on, are read, and
   those of them that the file has are written to the output extents from (index0, offset0) on.
   */
  method CopyChunk(dev: Store, lba: nat, n: nat, wr: seq<Extent>, index0: nat, offset0: nat, fileSize: nat,
                   start0: nat, ghost d0: Disk, ghost from: seq<nat>, ghost done: nat, ghost c: nat)
    returns (r: Outcome, index: nat, offset: nat, start: nat, ghost e: nat, ghost pages: nat)
    requires dev.Valid() && Rem(lba, dev.S) + n <= dev.computing.Length && lba + n <= |dev.disk| * dev.S
    requires Inside(wr, |dev.disk| * dev.S) && At(wr, index0, offset0, c) && Apart(from, Expand(wr))
    requires Copied(d0, dev.disk, dev.S, from, Expand(wr), c) && Progress(fileSize, done, start0, c)
    requires done + n <= |from| && from[done..done + n] == Run(lba, n)
    modifies dev, dev.computing
    ensures dev.Valid() && c <= e <= |from| && Copied(d0, dev.disk, dev.S, from, Expand(wr), e)
    ensures r in {Done, OutOfExtents, FlashFull, ReadFailed} && e * BYTES_PER_SECTOR < fileSize + BYTES_PER_SECTOR
    ensures r == Done ==> At(wr, index, offset, e) && Progress(fileSize, done + n, start, e)
    ensures r == OutOfExtents || r == FlashFull ==> e < |from| && e * BYTES_PER_SECTOR < fileSize
    ensures r == OutOfExtents ==> e == |Expand(wr)|
    ensures r == ReadFailed ==> e == c <= done && (c == done || fileSize <= c * BYTES_PER_SECTOR)
                                && NeverWritten(d0, dev.S, from, done, done + n)
    ensures pages <= e - c
    ensures Spent(old(dev.Left()), old(dev.targetBank), dev.Left(), dev.targetBank, pages, r == FlashFull)
  {
    hide Store.Valid, Store.Sound, Store.Left, Copied, Reads, Apart, Expand, Run, At, Progress, SectorsFor, Inside,
      Rem, NeverWritten, Spent, Takes;
    dev.Sizes();
    SpentNone(dev.Left(), dev.targetBank);
    index, offset, start, e, pages := index0, offset0, start0, c, 0;
    ghost var to := Expand(wr);
    CopiedBound(d0, dev.disk, dev.S, from, to, c);
    ProgressEnd(fileSize, done, start, c);
    var p := Rem(lba, dev.S);
    var ok := dev.IssdReadSectors(lba, n);
    if !ok {
      Unreadable(d0, dev.disk, dev.S, from, to, c, done, lba, n, n);
      r := ReadFailed;
      return;
    }
    ProgressMore(fileSize, done, start, c, n);
    start := if start + n * BYTES_PER_SECTOR >= fileSize then fileSize else start + n * BYTES_PER_SECTOR;
    var w := SectorsFor(start - start0);
    if w > 0 {
      ReadsInput(d0, dev.disk, dev.S, from, to, c, lba, n, dev.computing[..], p, w);
    } else {
      ReadsNone(d0, dev.S, from, c, dev.computing[..], p);
    }
    assert dev.computing[p..p + w] == dev.computing[..][p..p + w];
    EndOfFile(fileSize, done + n, start, c + w, |from|);
    r, index, offset, e, pages := WriteOut(dev, wr, index, offset, p, w, d0, from, c);
    SectorsMean(fileSize, e);
  }

  /**
   do_issd_backup: the sectors of the input extents, as far as the file goes, are copied in order
   to the sectors of the output extents, through a buffer of cnt pages.  Whatever happens, the first c
   of them have been copied and nothing else has changed.  It fails to read only where one of the next
   input sectors, those of a buffer from number done on, was never written; it runs out of extents only
   when all output sectors hold their copies.
   */
  method DoIssdBackup(dev: Store, cnt: nat, rd: seq<Extent>, wr: seq<Extent>, fileSize: nat)
    returns (r: Outcome, ghost done: nat, ghost c: nat, ghost pages: nat)
    requires dev.Valid() && 1 <= cnt && dev.computing.Length == cnt * dev.S
    requires Inside(rd, |dev.disk| * dev.S) && Inside(wr, |dev.disk| * dev.S) && Apart(Expand(rd), Expand(wr))
    modifies dev, dev.computing
    ensures dev.Valid() && r != TooManyExtents && Copied(old(dev.disk), dev.disk, dev.S, Expand(rd), Expand(wr), c)
    ensures c <= |Expand(rd)| && c * BYTES_PER_SECTOR < fileSize + BYTES_PER_SECTOR
    ensures r == Done ==> c == |Expand(rd)| || fileSize <= c * BYTES_PER_SECTOR
    ensures r == OutOfExtents || r == FlashFull ==> c < |Expand(rd)| && c * BYTES_PER_SECTOR < fileSize
    ensures r == OutOfExtents ==> c == |Expand(wr)|
    ensures pages <= c && Spent(old(dev.Left()), old(dev.targetBank), dev.Left(), dev.targetBank, pages, r == FlashFull)
    ensures r == ReadFailed ==> c <= done && (c == done || fileSize <= c * BYTES_PER_SECTOR)
                                && NeverWritten(old(dev.disk), dev.S, Expand(rd), done, done + cnt * dev.S)
  {
    hide Store.Valid, Store.Sound, Store.Left, Copied, Reads, Apart, Expand, Run, At, Progress, SectorsFor, Inside,
      Rem, NeverWritten, Spent, Takes;
    ghost var d0, from, to := dev.disk, Expand(rd), Expand(wr);
    dev.Sizes();
    ghost var left0, t0 := dev.Left(), dev.targetBank;
    SpentNone(left0, t0);
    AtStart(rd);
    AtStart(wr);
    CopiedNone(d0, dev.S, from, to);
    ProgressNone(fileSize);
    var index: nat, offset: nat, start: nat := 0, 0, 0;
    done, c, pages := 0, 0, 0;
    for i := 0 to |rd|
      invariant dev.Valid() && |dev.disk| == |d0| && At(rd, i, 0, done)
      invariant At(wr, index, offset, c) && Copied(d0, dev.disk, dev.S, from, to, c) &&
        Progress(fileSize, done, start, c)
      invariant pages <= c && Spent(left0, t0, dev.Left(), dev.targetBank, pages, false)
    {
      ExtentInside(rd, |d0| * dev.S, i);
      var lba: nat, num: nat := rd[i].lba, rd[i].len;
      while num != 0
        invariant num <= rd[i].len && lba == rd[i].lba + (rd[i].len - num)
        invariant dev.Valid() && |dev.disk| == |d0| && At(rd, i, rd[i].len - num, done)
        invariant At(wr, index, offset, c) && Copied(d0, dev.disk, dev.S, from, to, c) &&
          Progress(fileSize, done, start, c)
        invariant pages <= c && Spent(left0, t0, dev.Left(), dev.targetBank, pages, false)
        decreases num
      {
        var n := ChunkSize(dev.S, cnt, lba, num);
        AtNext(rd, i, rd[i].len - num, done, n);
        ghost var left', t', k := dev.Left(), dev.targetBank, 0;
        r, index, offset, start, c, k :=
          CopyChunk(dev, lba, n, wr, index, offset, fileSize, start, d0, from, done, c);
        SpentMore(left0, t0, left', t', pages, dev.Left(), dev.targetBank, k, r == FlashFull);
        pages := pages + k;
        if r != Done {
          NeverWithin(d0, dev.S, from, done, done + n, done + cnt * dev.S);
          return;
        }
        CopiedBound(d0, dev.disk, dev.S, from, to, c);
        AtOn(rd, i, rd[i].len - num, done, n);
        done := done + n;
        lba, num := lba + n, num - n;
      }
      AtTurn(rd, i, done);
    }
    AtEnd(rd, |rd|, 0, done);
    CopiedBound(d0, dev.disk, dev.S, from, to, c);
    ProgressEnd(fileSize, done, start, c);
    r := Done;
  }

  // ----- host and device together -----

  lemma {:induction false} FileLength(blocks: seq<nat>, k: nat, first: nat)
    ensures |FileSectors(blocks, k, first)| == |blocks| * k
  {
    if blocks != [] {
      var n := |blocks| - 1;
      FileLength(blocks[..n], k, first);
      assert (n + 1) * k == n * k + k;
    }
  }

  /** Sector j of block i of a file is sector j of its block on the device. */
  lemma {:induction false} FileSectorAt(blocks: seq<nat>, k: nat, first: nat, i: nat, j: nat)
    requires i < |blocks| && j < k
    ensures i * k + j < |FileSectors(blocks, k, first)|
    ensures FileSectors(blocks, k, first)[i * k + j] == first + blocks[i] * k + j
  {
    var n := |blocks| - 1;
    hide Run;
    FileLength(blocks[..n], k, first);
    MulOrder(i, n, k);
    if i < n {
      FileSectorAt(blocks[..n], k, first, i, j);
    } else {
      assert FileSectors(blocks, k, first)[n * k + j] == Run(first + blocks[n] * k, k)[j] by {
        assert |Run(first + blocks[n] * k, k)| == k;
      }
      RunAt(first + blocks[n] * k, k, j);
    }
  }

  lemma RunAt(lba: nat, len: nat, k: nat)
    requires k < len
    ensures Run(lba, len)[k] == lba + k
  {
  }

  /** The blocks of a file of fileSize bytes, as get_nr_blocks counts them, cover its sectors. */
  lemma BlocksCover(fileSize: nat, k: nat, blocks: seq<nat>, first: nat)
    requires 0 < k && |blocks| == (fileSize + k * BYTES_PER_SECTOR - 1) / (k * BYTES_PER_SECTOR)
    ensures var n := |FileSectors(blocks, k, first)|;
            fileSize <= n * BYTES_PER_SECTOR < fileSize + k * BYTES_PER_SECTOR
  {
    FileLength(blocks, k, first);
    CeilTimes(fileSize, k * BYTES_PER_SECTOR);
    Regroup(|blocks|, k, BYTES_PER_SECTOR);
  }

  lemma CeilTimes(n: nat, b: nat)
    requires 0 < b
    ensures n <= (n + b - 1) / b * b < n + b
  {
    assert n + b - 1 == (n + b - 1) / b * b + (n + b - 1) % b;
  }

  lemma Regroup(m: nat, k: nat, c: nat)
    ensures m * (k * c) == m * k * c
  {
  }

  /** Extents whose sectors are all on the device are on the device. */
  lemma ExtentsInside(es: seq<Extent>, size: nat)
    requires Maximal(es) && forall x :: x in Expand(es) ==> x < size
    ensures Inside(es, size)
  {
    hide Expand;
    forall i | 0 <= i < |es| ensures es[i].lba + es[i].len <= size {
      LastIn(es, i);
    }
  }

  lemma LastIn(es: seq<Extent>, i: nat)
    requires i < |es| && 0 < es[i].len
    ensures es[i].lba + es[i].len - 1 in Expand(es)
  {
    hide Expand;
    ExpandAt(es, i);
    var p, n := |Expand(es[..i])|, es[i].len;
    assert Expand(es)[p..p + n] == Run(es[i].lba, n);
    SliceIn(Expand(es), p, n, n - 1);
  }

  lemma SliceIn(s: seq<nat>, p: nat, n: nat, k: nat)
    requires p + n <= |s| && k < n
    ensures s[p..p + n][k] in s
  {
    assert s[p..p + n][k] == s[p + k];
  }

  /**
   A file copy: the host finds the extents of both files, those of the output behind those of the input in
   one array of room entries, and the device copies the file's sectors, in order, to those of the output
   file.
   */
  method CopyFile(dev: Store, cnt: nat, input: seq<nat>, output: seq<nat>, k: nat, first: nat, room: nat, fileSize: nat)
    returns (r: Outcome, ghost done: nat, ghost c: nat, ghost pages: nat)
    requires dev.Valid() && 1 <= cnt && dev.computing.Length == cnt * dev.S
    requires 0 < k && |input| == |output| == (fileSize + k * BYTES_PER_SECTOR - 1) / (k * BYTES_PER_SECTOR)
    requires forall x :: x in FileSectors(input, k, first) || x in FileSectors(output, k, first) ==>
             x < |dev.disk| * dev.S
    requires Apart(FileSectors(input, k, first), FileSectors(output, k, first))
    modifies dev, dev.computing
    ensures r == TooManyExtents <==> !(Fits(input, room) && Fits(output, room - Runs(input)))
    ensures dev.Valid() &&
            Copied(old(dev.disk), dev.disk, dev.S, FileSectors(input, k, first), FileSectors(output, k, first), c)
    ensures r == TooManyExtents ==> dev.disk == old(dev.disk)
    ensures c * BYTES_PER_SECTOR < fileSize + BYTES_PER_SECTOR
    ensures r == Done ==> fileSize <= c * BYTES_PER_SECTOR
    // the banks had the pages written, in turn, and when the flash is full they had not one more
    ensures pages <= c && Takes(old(dev.Left()), old(dev.targetBank), pages)
    ensures r == FlashFull ==>
              && c * BYTES_PER_SECTOR < fileSize
              && forall m: nat :: pages < m ==> !Takes(old(dev.Left()), old(dev.targetBank), m)
    ensures r == ReadFailed ==> c <= done && (c == done || fileSize <= c * BYTES_PER_SECTOR)
                                && NeverWritten(old(dev.disk), dev.S, FileSectors(input, k, first), done,
                                  done + cnt * dev.S)
    ensures r != OutOfExtents
  {
    hide Store.Valid, Store.Sound, Store.Left, Copied, Apart, Expand, FileSectors, Maximal, Inside, SectorsFor, Runs,
      NeverWritten, Spent, Takes;
    done, c, pages := 0, 0, 0;
    dev.Sizes();
    ghost var left0, t0 := dev.Left(), dev.targetBank;
    SpentNone(left0, t0);
    SpentTakes(left0, t0, left0, t0, 0, false, 0);
    CopiedNone(dev.disk, dev.S, FileSectors(input, k, first), FileSectors(output, k, first));
    BlocksCover(fileSize, k, input, first);
    BlocksCover(fileSize, k, output, first);
    NoRuns(input);
    var ok, rd, wr;
    ok, rd := PostProcess(input, k, first, room);
    if !ok { return TooManyExtents, 0, 0, 0; }
    ok, wr := PostProcess(output, k, first, room - |rd|);
    if !ok { return TooManyExtents, 0, 0, 0; }
    ExtentsInside(rd, |dev.disk| * dev.S);
    ExtentsInside(wr, |dev.disk| * dev.S);
    r, done, c, pages := DoIssdBackup(dev, cnt, rd, wr, fileSize);
    SpentTakes(left0, t0, dev.Left(), dev.targetBank, pages, r == FlashFull, pages);
    forall m: nat | r == FlashFull && pages < m ensures !Takes(left0, t0, m) {
      SpentTakes(left0, t0, dev.Left(), dev.targetBank, pages, true, m);
    }
  }

  lemma NoRuns(blocks: seq<nat>)
    ensures blocks == [] ==> Runs(blocks) == 0
  {
  }
}
