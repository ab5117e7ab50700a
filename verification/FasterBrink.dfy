/**
 From a bank of which one isolation block is in use, and whose merges are far off, to the brink: three isolation
 blocks are left, the write pointer is at the end of one of them, and the next blocks to be collected have one cold
 page each, and all other pages live.
 */
module FasterBrink {
  import opened Common
  import opened FasterState
  import opened FasterSteps
  import opened FasterGc
  import opened FasterControl
  import opened FasterRuns
  import opened FasterRows
  import opened FasterLaps

  // ----- which lpns are written to which block -----

  /** The lpns for block b, all at even offsets: the pages of two data blocks. */
  function Own(P: nat, b: nat, j: nat): Addr {
    if 2 * j < P then Addr(2 * b, 2 * j) else Addr(2 * b + 1, 2 * j - P)
  }

  function Owns(P: nat, b: nat, j: nat, n: nat): (r: seq<Addr>)
    ensures |r| == n && forall i :: 0 <= i < n ==> r[i] == Own(P, b, j + i)
  {
    if n == 0 then [] else Owns(P, b, j, n - 1) + [Own(P, b, j + n - 1)]
  }

  predicate OwnedBy(b: nat, l: Addr) { 2 * b <= l.blk <= 2 * b + 1 }

  predicate Mine(rows: seq<Line>) {
    forall b, i :: 1 <= b < |rows| && 0 <= i < |rows[b].f| ==> OwnedBy(b, rows[b].f[i])
  }

  lemma OwnUnused(g: Geo, rows: seq<Line>, b: nat, j: nat)
    requires Mine(rows) && 1 <= b < |rows| && j < g.P
    requires rows[b].f == Owns(g.P, b, 0, |rows[b].f|) && |rows[b].f| <= j
    ensures Unused(rows, Own(g.P, b, j))
  {
    forall c, k | 1 <= c < |rows| && 0 <= k < |rows[c].f| ensures rows[c].f[k] != Own(g.P, b, j) {
      assert OwnedBy(c, rows[c].f[k]);
    }
  }

  lemma OwnsFresh(g: Geo, s: Board, b: nat, j: nat, n: nat)
    requires GeoOk(g) && Mine(s.rows) && 1 <= b < |s.rows| && j + n <= g.P
    requires s.rows[b].f == Owns(g.P, b, 0, |s.rows[b].f|) && |s.rows[b].f| <= j
    ensures Writable(g, s, Owns(g.P, b, j, n))
  {
    hide Mine, Unused;
    var w := Owns(g.P, b, j, n);
    assert g.P % 2 == 0;
    forall i | 0 <= i < n ensures w[i] != IDLE && Plain(g, s.c, w[i]) && Unused(s.rows, w[i]) {
      OwnUnused(g, s.rows, b, j + i);
    }
  }

  function Content(g: Geo): seq<Addr>
    requires 0 < g.P
  {
    Owns(g.P, 1, 0, g.P - 1)
  }

  /** The first block can be filled. */
  lemma ContentFresh(g: Geo, s: Board)
    requires GeoOk(g) && 2 <= |s.rows| && Mine(s.rows[1 := DEAD])
    ensures Writable(g, s.(rows := s.rows[1 := DEAD]), Content(g)) && |Content(g)| + 1 == g.P
  {
    OwnsFresh(g, s.(rows := s.rows[1 := DEAD]), 1, 0, g.P - 1);
  }

  // ----- rounds -----

  function Rounds(g: Geo, n: nat): seq<Addr>
    requires 0 < g.P && 2 <= g.K
  {
    if n == 0 then [] else Rounds(g, n - 1) + RoundRun(g, Content(g))
  }

  /** The isolation write pointer is at the end of block i, and isolFree isolation blocks are free. */
  predicate AtEdge(g: Geo, s: Board, i: nat, isolFree: nat) {
    2 <= g.P && s.c.ic == Some(Addr(i, g.P - 2)) && s.c.isolFree == isolFree
  }

  /** n rounds move the pages of n - 1 blocks. */
  lemma {:induction false} RoundsOn(g: Geo, no: nat, s: Board, i: nat, n: nat, end: nat) returns (q: Board)
    requires GeoOk(g) && Ended(g, s) && Empty(g, s) && AtEdge(g, s, i, g.ISOL - 1) && 1 <= n && n + 3 < g.ISOL
    requires Sound(g, no, s) && Calm(no, s, end) && |s.ls| + |Rounds(g, n)| <= end && 1 <= i && i + n < g.ISOL
    ensures Sound(g, no, q) && Ended(g, q) && Calm(no, q, end) && q.rows == s.rows[1 := Cold(Content(g))]
    ensures q.ls == s.ls + Rounds(g, n) && AtEdge(g, q, i + n - 1, g.ISOL - n) && q.c.iv == s.c.iv
  {
    hide Sound, Calm, RoundRun, Content, Writable, FirstThen;
    var p := s;
    if n == 1 {
      assert Rounds(g, 0) == [] && s.ls + [] == s.ls;
    } else {
      p := RoundsOn(g, no, s, i, n - 1, end);
    }
    ContentFresh(g, p);
    assert p.ls + RoundRun(g, Content(g)) == s.ls + Rounds(g, n);
    q := Round(g, no, p, Content(g), end);
    assert p.rows[1 := Cold(Content(g))] == s.rows[1 := Cold(Content(g))];
  }
  // ----- the last blocks get one page each that stays live -----

  /** In a lap before the last: the first page of each of the last blocks is kept. */
  function Xs(g: Geo, b: nat): seq<Addr>
    requires 2 <= g.P
    decreases g.K - b
  {
    if g.K <= b then [] else [Own(g.P, b, 0)] + Rep(g.P - 2) + Xs(g, b + 1)
  }

  function Lone(g: Geo, b: nat): Line { Line(Owns(g.P, b, 0, 1), 0) }

  predicate AllLone(g: Geo, rows: seq<Line>, b: nat, e: nat) {
    e <= |rows| && forall i :: b <= i < e ==> rows[i] == Lone(g, i)
  }

  /** The rows of the blocks before b are the same. */
  predicate SameUpTo(rows: seq<Line>, rows': seq<Line>, b: nat) {
    |rows'| == |rows| && forall i :: 0 <= i < b && i < |rows| ==> rows'[i] == rows[i]
  }

  lemma XBlock(g: Geo, no: nat, s: Board, b: nat, end: nat) returns (q: Board)
    requires GeoOk(g) && Turns(g, s.c, b) && b < |s.rows| && s.rows[b] == DEAD && s.idle != b && Ahead(g, s.c.ic)
    requires Sound(g, no, s) && Mine(s.rows) && Safe(g, no, s, end, g.P - 1)
    ensures Sound(g, no, q) && Running(g, q.c) && Same(s, q) && Calm(no, q, end) && Mine(q.rows)
    ensures q.ls == s.ls + ([Own(g.P, b, 0)] + Rep(g.P - 2)) && q.rows == s.rows[b := Lone(g, b)] && q.idle == b
    ensures q.c.rw == Addr(b, g.P - 2)
  {
    hide Sound, Calm, Unused;
    var l := Own(g.P, b, 0);
    OwnsFresh(g, s, b, 0, 1);
    assert Owns(g.P, b, 0, 1)[0] == l && Owns(g.P, b, 0, 1) == [l];
    q := EnterDead(g, no, s, b, l, end);
    q := FillIdle(g, no, q, g.P - 2, end);
    assert s.ls + [l] + Rep(g.P - 2) == s.ls + ([l] + Rep(g.P - 2));
  }

  lemma {:induction false} XBlocks(g: Geo, no: nat, s: Board, b: nat, end: nat) returns (q: Board)
    requires GeoOk(g) && Turns(g, s.c, b) && AllDead(s.rows, b, g.K) && s.idle != b && Ahead(g, s.c.ic)
    requires Sound(g, no, s) && |s.rows| == g.K && Mine(s.rows) && Safe(g, no, s, end, |Xs(g, b)|)
    ensures Sound(g, no, q) && Running(g, q.c) && Same(s, q) && Calm(no, q, end) && Mine(q.rows)
    ensures q.ls == s.ls + Xs(g, b) && SameUpTo(s.rows, q.rows, b) && AllLone(g, q.rows, b, g.K)
    ensures q.c.rw == Addr(g.K - 1, g.P - 2) && q.idle + 1 == g.K
    decreases g.K - b
  {
    hide Sound, Calm, Mine;
    q := XBlock(g, no, s, b, end);
    if b + 1 < g.K {
      q := XBlocks(g, no, q, b + 1, end);
    }
    assert s.ls + ([Own(g.P, b, 0)] + Rep(g.P - 2)) + Xs(g, b + 1) == s.ls + Xs(g, b);
  }

  // ----- and then other pages -----

  function Ws(g: Geo, b: nat): seq<Addr>
    requires 2 <= g.P
    decreases g.K - b
  {
    if g.K <= b then [] else Owns(g.P, b, 1, g.P - 2) + Ws(g, b + 1)
  }

  /** One page is cold, and all are live. */
  function Mixed(g: Geo, b: nat): Line
    requires 0 < g.P
  {
    Line(Owns(g.P, b, 0, g.P - 1), 1)
  }

  predicate AllMixed(g: Geo, rows: seq<Line>, b: nat, e: nat)
    requires 0 < g.P
  {
    e <= |rows| && forall i :: b <= i < e ==> rows[i] == Mixed(g, i)
  }

  lemma MineRow(g: Geo, rows: seq<Line>, b: nat, n: nat, cold: nat)
    requires Mine(rows) && 1 <= b < |rows|
    ensures Mine(rows[b := Line(Owns(g.P, b, 0, n), cold)])
  {
  }

  lemma WBlock(g: Geo, no: nat, s: Board, b: nat, end: nat) returns (q: Board)
    requires GeoOk(g) && Turns(g, s.c, b) && s.c.rwFree == 1 && s.c.rw.off + 2 == g.P && Ahead(g, s.c.ic)
    requires Sound(g, no, s) && b < |s.rows| == g.K && s.rows[b] == Lone(g, b) && s.idle != b
    requires Mine(s.rows) && Safe(g, no, s, end, g.P - 2)
    ensures Sound(g, no, q) && Running(g, q.c) && Same(s, q) && Calm(no, q, end) && Mine(q.rows)
    ensures q.ls == s.ls + Owns(g.P, b, 1, g.P - 2) && q.rows == s.rows[b := Mixed(g, b)] && q.idle == s.idle
    ensures q.c.rw == Addr(b, g.P - 2) && q.c.rwFree == 1
  {
    hide Sound, Calm, Unused, Own, Mine;
    MineRow(g, s.rows, b, 2, 1);
    MineRow(g, s.rows, b, g.P - 1, 1);
    var x, l, w := Own(g.P, b, 0), Own(g.P, b, 1), Owns(g.P, b, 1, g.P - 2);
    assert Owns(g.P, b, 0, 1) == [x];
    OwnsFresh(g, s, b, 1, 1);
    assert Owns(g.P, b, 1, 1)[0] == l;
    var p := EnterLone(g, no, s, b, x, l, end);
    assert Owns(g.P, b, 0, 2) == [x, l];
    OwnsFresh(g, p, b, 2, g.P - 3);
    q := FillWith(g, no, p, Owns(g.P, b, 2, g.P - 3), end);
    assert [x, l] + Owns(g.P, b, 2, g.P - 3) == Owns(g.P, b, 0, g.P - 1);
    assert s.ls + [l] + Owns(g.P, b, 2, g.P - 3) == s.ls + w;
    assert q.rows == s.rows[b := Mixed(g, b)];
  }

  lemma {:induction false} WBlocks(g: Geo, no: nat, s: Board, b: nat, end: nat) returns (q: Board)
    requires GeoOk(g) && Turns(g, s.c, b) && s.c.rwFree == 1 && s.c.rw.off + 2 == g.P && Ahead(g, s.c.ic)
    requires Sound(g, no, s) && |s.rows| == g.K && AllLone(g, s.rows, b, g.K) && s.idle < b
    requires Mine(s.rows) && Safe(g, no, s, end, |Ws(g, b)|)
    ensures Sound(g, no, q) && Running(g, q.c) && Same(s, q) && Calm(no, q, end) && Mine(q.rows)
    ensures q.ls == s.ls + Ws(g, b) && SameUpTo(s.rows, q.rows, b) && AllMixed(g, q.rows, b, g.K)
    ensures q.c.rw == Addr(g.K - 1, g.P - 2) && q.idle == s.idle && q.c.rwFree == 1
    decreases g.K - b
  {
    hide Sound, Calm, Mine, Mixed, Lone;
    q := WBlock(g, no, s, b, end);
    if b + 1 < g.K {
      q := WBlocks(g, no, q, b + 1, end);
    }
    assert s.ls + Owns(g.P, b, 1, g.P - 2) + Ws(g, b + 1) == s.ls + Ws(g, b);
  }
  // ----- the descent -----

  /** The last m blocks are the ones that get these pages. */
  function DescentRun(g: Geo, m: nat): seq<Addr>
    requires GeoOk(g) && m + 4 <= g.K
  {
    Rounds(g, g.ISOL - 5) + LastRound(g, g.K - m) + EndRun(g, g.K - m)
  }

  /** The round before the last block is moved. */
  function LastRound(g: Geo, e: nat): seq<Addr>
    requires 2 <= g.P && 2 <= e && 2 <= g.K
  {
    Content(g) + Rep(Pages(g, g.K - 2)) + Rep(Pages(g, e - 2)) + Xs(g, e)
  }

  function EndRun(g: Geo, e: nat): seq<Addr>
    requires 2 <= g.P && 2 <= e
  {
    Content(g) + Rep(Pages(g, e - 2)) + Ws(g, e) + Rep(Pages(g, e - 2))
  }

  lemma LastRoundOn(g: Geo, no: nat, s: Board, e: nat, i: nat, isolFree: nat, end: nat) returns (q: Board)
    requires GeoOk(g) && Ended(g, s) && s.rows[1] == Cold(Content(g)) && 4 <= e < g.K && Mine(s.rows)
    requires AtEdge(g, s, i, isolFree) && i + 2 < g.ISOL && 3 < isolFree
    requires Sound(g, no, s) && Calm(no, s, end) && |s.ls| + |LastRound(g, e)| <= end
    ensures Sound(g, no, q) && Running(g, q.c) && Calm(no, q, end) && Mine(q.rows) && Edge(g, q.c)
    ensures q.ls == s.ls + LastRound(g, e) && AtEdge(g, q, i + 1, isolFree - 1) && q.c.iv == s.c.iv
    ensures |q.rows| == g.K && q.rows[1] == Cold(Content(g)) && AllDead(q.rows, 2, e) && AllLone(g, q.rows, e, g.K)
    ensures q.c.rw == Addr(g.K - 1, g.P - 2) && q.idle + 1 == g.K && q.c.rwFree == 1
  {
    hide Sound, Calm, Content, Writable, FirstThen, Mine, Xs;
    ContentMine(g, s.rows);
    ContentFresh(g, s);
    var p := Heat(g, no, s, Content(g), g.K, end);
    EdgeShifted(g, s, p);
    p := Pass(g, no, p, e, end);
    assert s.rows[1 := Line(Content(g), 0)][1 := Cold(Content(g))] == s.rows;
    q := XBlocks(g, no, p, e, end);
    assert s.ls + Content(g) + Rep(Pages(g, g.K - 2)) + Rep(Pages(g, e - 2)) + Xs(g, e) == s.ls + LastRound(g, e);
  }

  lemma ContentMine(g: Geo, rows: seq<Line>)
    requires GeoOk(g) && 2 <= |rows| && Mine(rows)
    ensures Mine(rows[1 := DEAD]) && forall c: nat :: Mine(rows[1 := Line(Content(g), c)])
  {
  }
  /** The brink. */
  ghost predicate Brink(g: Geo, no: nat, s: Board, m: nat) {
    && GeoOk(g) && m + 4 <= g.K == |s.rows| && Mine(s.rows) && s.c.isolFree == 3 && Edge(g, s.c)
    && s.rows[1] == Cold(Content(g)) && AllMixed(g, s.rows, g.K - m, g.K) && s.c.rwFree == 1
    && s.c.rw == Addr(g.K - m - 1, g.P - 2) && s.idle < g.K - m && s.idle != 1 && Sound(g, no, s)
  }

  lemma EndOn(g: Geo, no: nat, s: Board, e: nat, i: nat, end: nat) returns (q: Board)
    requires GeoOk(g) && 4 <= e < g.K == |s.rows| && Mine(s.rows) && AtEdge(g, s, i, 4) && i + 2 < g.ISOL
    requires s.rows[1] == Cold(Content(g)) && AllDead(s.rows, 2, e) && AllLone(g, s.rows, e, g.K)
    requires s.c.rw == Addr(g.K - 1, g.P - 2) && s.idle + 1 == g.K && s.c.rwFree == 1
    requires Sound(g, no, s) && Calm(no, s, end) && |s.ls| + |EndRun(g, e)| <= end
    ensures Brink(g, no, q, g.K - e) && q.ls == s.ls + EndRun(g, e) && AtEdge(g, q, i + 1, 3) && q.c.iv == s.c.iv
  {
    hide Sound, Calm, Content, Writable, FirstThen, Mine, Ws;
    ContentMine(g, s.rows);
    ContentFresh(g, s);
    var p := Heat(g, no, s, Content(g), e, end);
    EdgeShifted(g, s, p);
    p := WBlocks(g, no, p, e, end);
    assert p.rows[1] == Line(Content(g), 0);
    ContentMine(g, p.rows);
    q := Pass(g, no, p, e, end);
    assert s.ls + Content(g) + Rep(Pages(g, e - 2)) + Ws(g, e) + Rep(Pages(g, e - 2)) == s.ls + EndRun(g, e);
  }

  /** From a bank without live pages in the log to the brink. */
  lemma Descend(g: Geo, no: nat, s: Board, m: nat, i: nat) returns (q: Board)
    requires GeoOk(g) && 1 <= m && m + 4 <= g.K && Ended(g, s) && Empty(g, s) && 1 <= i <= 2
    requires AtEdge(g, s, i, g.ISOL - 1) && Sound(g, no, s) && Calm(no, s, |s.ls| + |DescentRun(g, m)|)
    ensures Brink(g, no, q, m) && q.ls == s.ls + DescentRun(g, m) && AtEdge(g, q, i + g.ISOL - 4, 3)
    ensures q.c.iv == s.c.iv
  {
    hide Sound, Calm, Content, Mine, Rounds, LastRound, EndRun, Brink;
    var e, end := g.K - m, |s.ls| + |DescentRun(g, m)|;
    var p := RoundsOn(g, no, s, i, g.ISOL - 5, end);
    DeadMine(g, s);
    p := LastRoundOn(g, no, p, e, i + g.ISOL - 6, 5, end);
    q := EndOn(g, no, p, e, i + g.ISOL - 5, end);
    assert s.ls + Rounds(g, g.ISOL - 5) + LastRound(g, e) + EndRun(g, e) == s.ls + DescentRun(g, m);
  }

  lemma DeadMine(g: Geo, s: Board)
    requires GeoOk(g) && 2 <= |s.rows| == g.K && Empty(g, s)
    ensures Mine(s.rows[1 := Cold(Content(g))])
  {
  }
}
