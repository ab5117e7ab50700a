/** Laps round the RW log of a FASTer bank. */
module FasterLaps {
  import opened Common
  import opened FasterState
  import opened FasterSteps
  import opened FasterGc
  import opened FasterControl
  import opened FasterRuns
  import opened FasterRows

  const DEAD := Line([], 0)

  function Rep(n: nat): (r: seq<Addr>)
    ensures |r| == n && forall i :: 0 <= i < n ==> r[i] == IDLE
  {
    if n == 0 then [] else Rep(n - 1) + [IDLE]
  }

  lemma RepSum(n: nat, m: nat)
    ensures Rep(n) + Rep(m) == Rep(n + m) && Rep(1) == [IDLE]
  {
  }

  /** What writes to the RW log without moves and merges leave alone. */
  predicate Same(s: Board, q: Board) {
    && q.c.ic == s.c.ic && q.c.iv == s.c.iv && q.c.isolFree == s.c.isolFree && q.c.swLbn == s.c.swLbn
    && q.c.swOff == s.c.swOff && (s.c.rwFree == 1 ==> q.c.rwFree == 1)
  }

  /** n writes make no merge. */
  predicate Safe(g: Geo, no: nat, s: Board, end: nat, n: nat) {
    && RESERV_ISOL_BLK < s.c.isolFree && Calm(no, s, end) && (g.ISOL - 1 <= s.c.isolFree || |s.ls| + n <= end)
  }

  /** In the first lap blocks are opened one after the other, later they are collected. */
  predicate Running(g: Geo, c: Ctl) {
    c.rw.blk < g.K && 1 <= c.rwFree && (c.rwFree == 1 || (1 <= c.rw.blk && c.rwFree + c.rw.blk == g.K))
  }

  /** The current block is full, and block b is next. */
  predicate Turns(g: Geo, c: Ctl, b: nat) {
    1 <= b < g.K &&
    if c.rw.off + 1 == g.P then c.rw.blk == 0 && b == 1 && c.rwFree + 1 == g.K
    else Running(g, c) && c.rw.off + 2 == g.P && RwVictim(g, c.rw) == b
  }

  // ----- in a block -----

  lemma {:induction false} FillIdle(g: Geo, no: nat, s: Board, n: nat, end: nat) returns (q: Board)
    requires Sound(g, no, s) && Running(g, s.c) && 1 <= s.c.rw.blk && s.c.rw.off + n + 1 < g.P
    requires Safe(g, no, s, end, n)
    ensures Sound(g, no, q) && Running(g, q.c) && Same(s, q) && Calm(no, q, end)
    ensures q.ls == s.ls + Rep(n) && q.rows == s.rows && q.first == s.first
    ensures q.idle == (if n == 0 then s.idle else s.c.rw.blk) && q.c.rw == Addr(s.c.rw.blk, s.c.rw.off + n)
    ensures q.c.rwFree == s.c.rwFree
  {
    hide Sound, Calm;
    SoundParts(g, no, s);
    if n == 0 {
      q := s;
      assert s.ls + Rep(0) == s.ls;
    } else {
      q := FillIdle(g, no, s, n - 1, end);
      SoundParts(g, no, q);
      if q.c.isolFree < g.ISOL - 1 { CalmDue(no, q, end); }
      assert q.rows[s.c.rw.blk := q.rows[s.c.rw.blk]] == q.rows && q.first - {IDLE} == q.first;
      assert q.ls + [IDLE] == s.ls + Rep(n);
      q := Fill(g, no, q, IDLE, end);
    }
  }

  lemma SoundParts(g: Geo, no: nat, s: Board)
    requires Sound(g, no, s)
    ensures GeoOk(g) && 128 <= g.P && |s.rows| == g.K && Tame(g, s.c) && IDLE !in s.first && Plain(g, s.c, IDLE)
    ensures forall b :: 1 <= b < g.K ==> s.rows[b].cold <= |s.rows[b].f| < g.P
    ensures IDLE in s.c.hm ==> s.c.hm[IDLE].blk == s.idle
    ensures forall b :: s.idle != b ==> Elsewhere(s.c.hm, IDLE, b)
    ensures AllRows(g, s.c.hm, s.c.sc, s.rows)
  {
    forall b | 1 <= b < g.K ensures s.rows[b].cold <= |s.rows[b].f| < g.P {
      assert RowIs(g, s.c.hm, s.c.sc, b, s.rows[b]);
    }
  }

  lemma CalmDue(no: nat, s: Board, end: nat)
    requires Calm(no, s, end) && |s.ls| < end
    ensures !Due(no, s.c.tune)
  {
  }

  /** The lpns of w can go to block b. */
  predicate Writable(g: Geo, s: Board, w: seq<Addr>) {
    && (forall i :: 0 <= i < |w| ==> w[i] != IDLE && Plain(g, s.c, w[i]) && Unused(s.rows, w[i]))
    && forall i, j :: 0 <= i < j < |w| ==> w[i] != w[j]
  }

  /** Row b with the lpns of w behind it. */
  function Longer(rows: seq<Line>, b: nat, w: seq<Addr>): seq<Line>
    requires b < |rows|
  {
    rows[b := rows[b].(f := rows[b].f + w)]
  }

  lemma {:induction false} FillWith(g: Geo, no: nat, s: Board, w: seq<Addr>, end: nat) returns (q: Board)
    requires Sound(g, no, s) && Running(g, s.c) && 1 <= s.c.rw.blk && s.c.rw.off + |w| + 1 < g.P
    requires Safe(g, no, s, end, |w|) && Writable(g, s, w) && |s.rows[s.c.rw.blk].f| == s.c.rw.off + 1
    ensures Sound(g, no, q) && Running(g, q.c) && Same(s, q) && Calm(no, q, end)
    ensures q.ls == s.ls + w && s.c.rw.blk < |s.rows| && q.rows == Longer(s.rows, s.c.rw.blk, w)
    ensures q.idle == s.idle && q.first == s.first - (set l | l in w)
    ensures q.c.rw == Addr(s.c.rw.blk, s.c.rw.off + |w|) && q.c.rwFree == s.c.rwFree
  {
    hide Sound, Calm, Due, Tuned;
    SoundParts(g, no, s);
    var b := s.c.rw.blk;
    if w == [] {
      q := s;
      assert s.ls + w == s.ls && s.rows[b].f + w == s.rows[b].f;
      assert s.first - {} == s.first;
    } else {
      var v, l := w[..|w| - 1], w[|w| - 1];
      q := FillWith(g, no, s, v, end);
      SoundParts(g, no, q);
      if q.c.isolFree < g.ISOL - 1 { CalmDue(no, q, end); }
      StillUnused(s.rows, b, v, l);
      assert s.rows[b].f + v + [l] == s.rows[b].f + w && v + [l] == w;
      assert q.ls + [l] == s.ls + w;
      assert (set k | k in w) == (set k | k in v) + {l};
      q := Fill(g, no, q, l, end);
      assert q.first == s.first - (set k | k in w);
    }
  }

  lemma StillUnused(rows: seq<Line>, b: nat, v: seq<Addr>, l: Addr)
    requires Unused(rows, l) && l !in v && b < |rows|
    ensures Unused(Longer(rows, b, v), l)
  {
  }
  // ----- from block to block -----

  /** A collection that moves nothing has room. */
  lemma RoomyNone(g: Geo, s: Board)
    requires 4 <= g.P && Ahead(g, s.c.ic) && 2 <= s.c.isolFree
    ensures Roomy(g, s, 0) && FreeAfter(g, IsolSucc(g, s.c.ic).off, s.c.isolFree, 0) == s.c.isolFree
    ensures IcPos(g, s.c.ic, 0) == s.c.ic && FirstAfter(g, s, 2, 0) == s.first && Rest(g, DEAD) == DEAD
    ensures Moving(g, DEAD) == 0
  {
  }

  /** Block b, without live pages, is collected, and lpn l is the first one written there. */
  lemma CollectDead(g: Geo, no: nat, s: Board, b: nat, l: Addr, end: nat) returns (q: Board)
    requires 4 <= g.P && RwFull(g, s.c) && RwVictim(g, s.c.rw) == b < |s.rows| == g.K && 1 <= b && s.rows[b] == DEAD
    requires Sound(g, no, s) && s.idle != b && Ahead(g, s.c.ic) && 2 <= s.c.isolFree
    requires Plain(g, s.c, l) && (l == IDLE || Unused(s.rows, l))
    ensures Sound(g, no, q) && q.ls == s.ls + [l] && q.rows == s.rows[b := With(DEAD, l)] && q.c.rw == Addr(b, 0)
    ensures q.idle == (if l == IDLE then b else s.idle) && q.first == s.first - {l} && Same(s, q) && q.c.rwFree == 1
    ensures Calm(no, s, end) ==> Calm(no, q, end)
  {
    hide Sound, Calm, Tuned, AllRows, Turn, Roomy, FreeAfter, IcPos, FirstAfter, Rest, Moving;
    SoundParts(g, no, s);
    RoomyShort(g, s, b);
    assert s.rows[b := DEAD] == s.rows;
    TurnPlain(g, Asked(g, s.c, l), s.rows);
    q := Collect(g, no, s, l, b, s.rows, end);
  }

  /** Lpn l is the first of block b, which has no live pages. */
  lemma EnterDead(g: Geo, no: nat, s: Board, b: nat, l: Addr, end: nat) returns (q: Board)
    requires 4 <= g.P && Turns(g, s.c, b) && b < |s.rows| && s.rows[b] == DEAD && s.idle != b && Ahead(g, s.c.ic)
    requires Plain(g, s.c, l) && (l == IDLE || Unused(s.rows, l)) && Sound(g, no, s) && Safe(g, no, s, end, 1)
    ensures Sound(g, no, q) && Running(g, q.c) && Same(s, q) && Calm(no, q, end)
    ensures q.ls == s.ls + [l] && q.rows == s.rows[b := With(DEAD, l)] && q.c.rw == Addr(b, 0)
    ensures q.idle == (if l == IDLE then b else s.idle) && q.first == s.first - {l}
  {
    hide Sound, Calm, Due, Tuned, AllRows;
    SoundParts(g, no, s);
    if RwFull(g, s.c) {
      q := CollectDead(g, no, s, b, l, end);
    } else {
      if s.c.isolFree < g.ISOL - 1 { CalmDue(no, s, end); }
      q := Fill(g, no, s, l, end);
    }
  }

  /** Lpn l is the second of block b, the first being the one that is live there. */
  lemma EnterLone(g: Geo, no: nat, s: Board, b: nat, x: Addr, l: Addr, end: nat) returns (q: Board)
    requires 4 <= g.P && Turns(g, s.c, b) && s.c.rwFree == 1 && s.c.rw.off + 2 == g.P && Ahead(g, s.c.ic)
    requires Sound(g, no, s) && b < |s.rows| == g.K && s.rows[b] == Line([x], 0) && s.idle != b
    requires Plain(g, s.c, l) && l != IDLE && Unused(s.rows, l) && Safe(g, no, s, end, 1)
    ensures Sound(g, no, q) && Running(g, q.c) && Same(s, q) && Calm(no, q, end) && q.c.rwFree == 1
    ensures q.ls == s.ls + [l] && q.rows == s.rows[b := Line([x, l], 1)] && q.c.rw == Addr(b, 1)
    ensures q.idle == s.idle
  {
    hide Sound, Calm, Due, Tuned, AllRows, Turn, Roomy, FreeAfter, IcPos, FirstAfter;
    SoundParts(g, no, s);
    RoomyShort(g, s, b);
    TurnPlain(g, Asked(g, s.c, l), s.rows);
    assert With(Line([x], 1), l) == Line([x, l], 1);
    q := Collect(g, no, s, l, b, s.rows, end);
  }

  /** Block b, without live pages, is filled up. */
  lemma BlockIdle(g: Geo, no: nat, s: Board, b: nat, end: nat) returns (q: Board)
    requires 4 <= g.P && Turns(g, s.c, b) && b < |s.rows| && s.rows[b] == DEAD && s.idle != b && Ahead(g, s.c.ic)
    requires Sound(g, no, s) && Safe(g, no, s, end, g.P - 1)
    ensures Sound(g, no, q) && Running(g, q.c) && Same(s, q) && Calm(no, q, end)
    ensures q.ls == s.ls + Rep(g.P - 1) && q.rows == s.rows && q.idle == b && q.first == s.first
    ensures q.c.rw == Addr(b, g.P - 2)
  {
    hide Sound, Calm;
    SoundParts(g, no, s);
    q := EnterDead(g, no, s, b, IDLE, end);
    assert s.rows[b := DEAD] == s.rows && s.first - {IDLE} == s.first;
    q := FillIdle(g, no, q, g.P - 2, end);
    RepSum(1, g.P - 2);
    assert s.ls + Rep(1) + Rep(g.P - 2) == s.ls + (Rep(1) + Rep(g.P - 2));
  }

  /** Blocks b.. up to but not including e have no live pages. */
  predicate AllDead(rows: seq<Line>, b: nat, e: nat) {
    e <= |rows| && forall i :: b <= i < e ==> rows[i] == DEAD
  }

  /** The number of writes that fill n blocks. */
  function Pages(g: Geo, n: nat): nat
    requires 0 < g.P
  {
    if n == 0 then 0 else Pages(g, n - 1) + (g.P - 1)
  }

  lemma {:induction false} PagesSum(g: Geo, n: nat, m: nat)
    requires 0 < g.P
    ensures Pages(g, n + m) == Pages(g, n) + Pages(g, m)
  {
    if m > 0 { PagesSum(g, n, m - 1); }
  }

  /** They are filled up one after the other. */
  lemma {:induction false} BlocksIdle(g: Geo, no: nat, s: Board, b: nat, e: nat, end: nat) returns (q: Board)
    requires 4 <= g.P && Turns(g, s.c, b) && b < e && AllDead(s.rows, b, e) && s.idle != b && Ahead(g, s.c.ic)
    requires Sound(g, no, s) && Safe(g, no, s, end, Pages(g, e - b))
    ensures Sound(g, no, q) && Running(g, q.c) && Same(s, q) && Calm(no, q, end)
    ensures q.ls == s.ls + Rep(Pages(g, e - b)) && q.rows == s.rows && q.idle == e - 1 && q.first == s.first
    ensures q.c.rw == Addr(e - 1, g.P - 2)
    decreases e - b
  {
    hide Sound, Calm;
    SoundParts(g, no, s);
    q := BlockIdle(g, no, s, b, end);
    if b + 1 < e {
      q := BlocksIdle(g, no, q, b + 1, e, end);
      RepSum(g.P - 1, Pages(g, e - b - 1));
      assert s.ls + Rep(g.P - 1) + Rep(Pages(g, e - b - 1)) == s.ls + Rep(Pages(g, e - b));
    }
  }
  // ----- the first block is filled, gets its second chance, and is collected -----

  /** The bits of the block are all set, and all its pages live. */
  function Cold(w: seq<Addr>): Line { Line(w, |w|) }

  /** Nothing of the last isolation block in use is unused but the page for the list. */
  predicate Edge(g: Geo, c: Ctl) {
    c.ic.Some? ==> c.ic.value.off + 2 == g.P && c.ic.value.blk + 1 < g.ISOL
  }

  /** After a block has been moved to the isolation area. */
  predicate Moved(g: Geo, s: Board, q: Board) {
    && 2 <= g.P
    && q.c.ic == Some(Addr(if s.c.ic.None? then 0 else s.c.ic.value.blk + 1, g.P - 2))
    && q.c.isolFree == (if s.c.ic.None? || s.c.isolFree == 0 then s.c.isolFree else s.c.isolFree - 1)
    && q.c.iv == s.c.iv && q.c.swLbn == s.c.swLbn && q.c.swOff == s.c.swOff && q.c.rwFree == 1
  }

  /** The first isolation block is used once. */
  ghost function FirstMoved(s: Board, w: seq<Addr>): map<Addr, nat> {
    if s.c.ic.None? then PagesOf(s.c.hm, 1, |w|) else s.first
  }

  lemma EdgeOn(g: Geo, s: Board)
    requires 4 <= g.P && Edge(g, s.c) && 2 < s.c.isolFree && (s.c.ic.None? ==> s.first == map[])
    ensures Roomy(g, s, g.P - 1) && (Away(g, s.c.ic) <==> s.c.ic.Some?)
    ensures IcPos(g, s.c.ic, g.P - 1) == Some(Addr(if s.c.ic.None? then 0 else s.c.ic.value.blk + 1, g.P - 2))
    ensures FreeAfter(g, IsolSucc(g, s.c.ic).off, s.c.isolFree, g.P - 1) ==
              if s.c.ic.None? then s.c.isolFree else s.c.isolFree - 1
  {
  }

  /** The first block's pages all go to the isolation area, and lpn l comes in their place. */
  lemma Burst(g: Geo, no: nat, s: Board, w: seq<Addr>, l: Addr, end: nat) returns (q: Board)
    requires 4 <= g.P && Turns(g, s.c, 1) && s.c.rw.off + 2 == g.P && s.c.rwFree == 1 && Edge(g, s.c)
    requires Sound(g, no, s) && |w| + 1 == g.P && |s.rows| == g.K && s.rows[1] == Cold(w) && s.idle != 1
    requires 2 < s.c.isolFree && Calm(no, s, end) && (s.c.ic.None? ==> s.first == map[])
    requires Plain(g, s.c, l) && (l == IDLE || Unused(s.rows[1 := DEAD], l))
    ensures Sound(g, no, q) && Running(g, q.c) && Moved(g, s, q) && Calm(no, q, end)
    ensures q.ls == s.ls + [l] && q.rows == s.rows[1 := With(DEAD, l)] && q.c.rw == Addr(1, 0)
    ensures q.idle == (if l == IDLE then 1 else s.idle) && q.first == FirstMoved(s, w) - {l}
    ensures q.c.tune == Tuned(g, s.c.tune.(writes := s.c.tune.writes + 1), q.c.isolFree) && q.c.rwFree == 1
    ensures q.c.corr == Corr(Some(l), 1)
  {
    hide Sound, Calm, Due, Tuned, AllRows, Turn, IcPos, FreeAfter, Roomy;
    SoundParts(g, no, s);
    assert w[|w|..] == [];
    assert Rest(g, Cold(w)) == DEAD && Moving(g, Cold(w)) == g.P - 1;
    TurnPlain(g, Asked(g, s.c, l), s.rows);
    EdgeOn(g, s);
    q := Collect(g, no, s, l, 1, s.rows, end);
  }

  /** The first block is filled with the lpns of w. */
  lemma FillFirst(g: Geo, no: nat, s: Board, w: seq<Addr>, end: nat) returns (q: Board)
    requires 4 <= g.P && s.c.rw == Addr(1, 0) && Running(g, s.c) && |w| + 1 == g.P && |s.rows| == g.K
    requires Sound(g, no, s) && s.rows[1] == Line([w[0]], 0) && Safe(g, no, s, end, g.P - 2)
    requires Writable(g, s, w[1..])
    ensures Sound(g, no, q) && Running(g, q.c) && Same(s, q) && Calm(no, q, end)
    ensures q.ls == s.ls + w[1..] && q.rows == s.rows[1 := Line(w, 0)] && q.c.rw == Addr(1, g.P - 2)
    ensures q.idle == s.idle && q.first == s.first - (set l | l in w[1..])
  {
    hide Sound, Calm;
    assert [w[0]] + w[1..] == w;
    q := FillWith(g, no, s, w[1..], end);
  }
  // ----- laps -----

  /** The first block is next; it has no live pages, or all of them are and have had their second chance. */
  predicate Ready(g: Geo, s: Board) {
    && 4 <= g.P && 4 <= g.ISOL && Turns(g, s.c, 1) && 2 <= |s.rows| == g.K && s.idle != 1 && Edge(g, s.c)
    && (s.rows[1] == DEAD ||
        (|s.rows[1].f| + 1 == g.P && s.rows[1] == Cold(s.rows[1].f) && s.c.rw.off + 2 == g.P && s.c.rwFree == 1 &&
         if s.c.ic.None? then s.first == map[] else s.c.ic.value.blk + 2 < g.ISOL))
  }

  predicate Shifted(g: Geo, s: Board, q: Board)
    requires 2 <= |s.rows|
  {
    if s.rows[1] == DEAD then Same(s, q) else Moved(g, s, q)
  }

  /** The free isolation blocks once the first block has been collected. */
  function FreeThen(s: Board): nat
    requires 2 <= |s.rows|
  {
    if s.rows[1] == DEAD || s.c.ic.None? || s.c.isolFree == 0 then s.c.isolFree else s.c.isolFree - 1
  }

  ghost function FirstThen(s: Board): map<Addr, nat>
    requires 2 <= |s.rows|
  {
    if s.rows[1] == DEAD then s.first else FirstMoved(s, s.rows[1].f)
  }

  /** n writes behind that make no merge. */
  predicate SafeThen(g: Geo, no: nat, s: Board, end: nat, n: nat)
    requires 2 <= |s.rows|
  {
    && RESERV_ISOL_BLK < FreeThen(s) && Calm(no, s, end) && (g.ISOL - 1 <= FreeThen(s) || |s.ls| + n <= end)
  }

  lemma EnterFirst(g: Geo, no: nat, s: Board, l: Addr, end: nat) returns (q: Board)
    requires Ready(g, s) && Sound(g, no, s) && SafeThen(g, no, s, end, 1)
    requires Plain(g, s.c, l) && (l == IDLE || Unused(s.rows[1 := DEAD], l))
    ensures Sound(g, no, q) && Running(g, q.c) && Shifted(g, s, q) && Calm(no, q, end) && q.c.isolFree == FreeThen(s)
    ensures q.ls == s.ls + [l] && q.rows == s.rows[1 := With(DEAD, l)] && q.c.rw == Addr(1, 0)
    ensures q.idle == (if l == IDLE then 1 else s.idle) && q.first == FirstThen(s) - {l}
  {
    hide Sound, Calm, FirstMoved, Tuned;
    if s.rows[1] == DEAD {
      assert s.rows[1 := DEAD] == s.rows;
      q := EnterDead(g, no, s, 1, l, end);
    } else {
      q := Burst(g, no, s, s.rows[1].f, l, end);
    }
  }

  lemma WithoutAll(m: map<Addr, nat>, w: seq<Addr>)
    requires w != []
    ensures m - {w[0]} - (set l | l in w[1..]) == m - (set l | l in w)
  {
    assert w == [w[0]] + w[1..];
    assert (set l | l in w) == {w[0]} + (set l | l in w[1..]);
  }

  /** The first block comes to be live for the lpns of w. */
  lemma Refill(g: Geo, no: nat, s: Board, w: seq<Addr>, end: nat) returns (q: Board)
    requires Ready(g, s) && |w| + 1 == g.P && Writable(g, s.(rows := s.rows[1 := DEAD]), w)
    requires Sound(g, no, s) && SafeThen(g, no, s, end, g.P - 1)
    ensures Sound(g, no, q) && Running(g, q.c) && Shifted(g, s, q) && Calm(no, q, end) && q.c.isolFree == FreeThen(s)
    ensures q.ls == s.ls + w && q.rows == s.rows[1 := Line(w, 0)] && q.c.rw == Addr(1, g.P - 2)
    ensures q.idle == s.idle && q.first == FirstThen(s) - (set l | l in w)
  {
    hide Sound, Calm, FirstThen;
    q := EnterFirst(g, no, s, w[0], end);
    WithoutAll(FirstThen(s), w);
    assert [w[0]] + w[1..] == w;
    assert s.ls + [w[0]] + w[1..] == s.ls + w;
    TailFresh(g, s, q, w);
    q := FillFirst(g, no, q, w, end);
  }

  lemma TailFresh(g: Geo, s: Board, q: Board, w: seq<Addr>)
    requires 2 <= |s.rows| && w != [] && Writable(g, s.(rows := s.rows[1 := DEAD]), w)
    requires q.rows == s.rows[1 := With(DEAD, w[0])] && q.c.swLbn == s.c.swLbn
    ensures Writable(g, q, w[1..])
  {
    forall i | 0 <= i < |w| - 1 ensures w[1..][i] != IDLE && Plain(g, q.c, w[1..][i]) && Unused(q.rows, w[1..][i]) {
      assert w[1..][i] == w[i + 1];
      forall b | 1 <= b < |q.rows| ensures w[i + 1] !in q.rows[b].f {
        assert w[i + 1] !in s.rows[1 := DEAD][b].f;
      }
    }
  }

  /** The first block is warm, and gets its second chance when block 2 is collected. */
  lemma EnterPass(g: Geo, no: nat, s: Board, end: nat) returns (q: Board)
    requires 4 <= g.P && 3 <= g.K == |s.rows| && s.c.rw == Addr(g.K - 1, g.P - 2) && s.c.rwFree == 1
    requires Warm(g, s.rows[1]) && s.rows[2] == DEAD && s.idle != 1 && s.idle != 2 && Ahead(g, s.c.ic)
    requires Sound(g, no, s) && Safe(g, no, s, end, 1)
    ensures Sound(g, no, q) && Running(g, q.c) && Same(s, q) && Calm(no, q, end) && q.c.rwFree == 1
    ensures q.ls == s.ls + [IDLE] && q.rows == s.rows[1 := Cold(s.rows[1].f)]
    ensures q.idle == 2 && q.first == s.first && q.c.rw == Addr(2, 0)
  {
    hide Sound, Calm, Due, Tuned, AllRows, Turn, Roomy, FreeAfter, IcPos, FirstAfter, Rest, Moving, Chance;
    SoundParts(g, no, s);
    var rs := s.rows[1 := Chanced(s.rows[1])];
    TurnChance(g, Asked(g, s.c, IDLE), s.rows);
    RoomyNone(g, s);
    assert rs[2 := DEAD] == rs && s.first - {IDLE} == s.first;
    q := Collect(g, no, s, IDLE, 2, rs, end);
  }

  /** And blocks 2.. below e are filled up. */
  lemma Pass(g: Geo, no: nat, s: Board, e: nat, end: nat) returns (q: Board)
    requires 4 <= g.P && 3 <= e <= g.K == |s.rows| && s.c.rw == Addr(g.K - 1, g.P - 2) && s.c.rwFree == 1
    requires Warm(g, s.rows[1]) && AllDead(s.rows, 2, e) && s.idle != 1 && s.idle != 2 && Ahead(g, s.c.ic)
    requires Sound(g, no, s) && Safe(g, no, s, end, Pages(g, e - 2))
    ensures Sound(g, no, q) && Running(g, q.c) && Same(s, q) && Calm(no, q, end)
    ensures q.ls == s.ls + Rep(Pages(g, e - 2)) && q.rows == s.rows[1 := Cold(s.rows[1].f)]
    ensures q.idle == e - 1 && q.first == s.first && q.c.rw == Addr(e - 1, g.P - 2)
  {
    hide Sound, Calm;
    PagesSum(g, e - 3, 1);
    PagesSum(g, 1, e - 3);
    q := EnterPass(g, no, s, end);
    q := FillIdle(g, no, q, g.P - 2, end);
    RepSum(1, g.P - 2);
    assert s.ls + Rep(1) + Rep(g.P - 2) == s.ls + Rep(g.P - 1);
    if 3 < e {
      q := BlocksIdle(g, no, q, 3, e, end);
      RepSum(g.P - 1, Pages(g, e - 3));
      assert s.ls + Rep(g.P - 1) + Rep(Pages(g, e - 3)) == s.ls + Rep(Pages(g, e - 2));
    }
  }
  // ----- nothing but IDLE is written -----

  predicate Short(g: Geo, rows: seq<Line>) {
    forall b :: 1 <= b < |rows| ==> |rows[b].f| < g.P / 2
  }

  /** No block has many live pages, and the page of IDLE is in the current one. */
  predicate Quiet(g: Geo, s: Board) {
    && 4 <= g.P && 3 <= g.K == |s.rows| && Short(g, s.rows) && s.c.rwFree == 1 && 1 <= s.c.rw.blk < g.K
    && s.c.rw.off + 1 < g.P && s.idle == s.c.rw.blk && Ahead(g, s.c.ic)
  }

  /** Where the next page is written. */
  function NextPos(g: Geo, rows: seq<Line>, x: Addr): Addr
    requires 2 <= g.K == |rows|
  {
    if x.off + 2 == g.P then Addr(RwVictim(g, x), |rows[RwVictim(g, x)].f|) else Addr(x.blk, x.off + 1)
  }

  /** The rows are live for the same lpns as before. */
  predicate SameLpns(rows: seq<Line>, rows': seq<Line>) {
    |rows'| == |rows| && forall b :: 1 <= b < |rows| ==> rows'[b].f == rows[b].f
  }

  lemma IdleOne(g: Geo, no: nat, s: Board) returns (q: Board)
    requires Sound(g, no, s) && Quiet(g, s) && RESERV_ISOL_BLK < s.c.isolFree
    requires RwFull(g, s.c) || g.ISOL - 1 <= s.c.isolFree || !Due(no, s.c.tune)
    ensures Sound(g, no, q) && Quiet(g, q) && Same(s, q) && q.ls == s.ls + [IDLE] && q.first == s.first
    ensures SameLpns(s.rows, q.rows) && q.c.rw == NextPos(g, s.rows, s.c.rw)
    ensures var t := s.c.tune.(writes := s.c.tune.writes + 1);
            q.c.tune == Tuned(g, if RwFull(g, s.c) then t else Ticked(g, t, s.c.isolFree), s.c.isolFree)
  {
    hide Sound, Due, Tuned, AllRows, Turn, Roomy, FreeAfter, IcPos, FirstAfter;
    SoundParts(g, no, s);
    assert s.first - {IDLE} == s.first;
    if RwFull(g, s.c) {
      var b := RwVictim(g, s.c.rw);
      RoomyShort(g, s, b);
      TurnPlain(g, Asked(g, s.c, IDLE), s.rows);
      q := Collect(g, no, s, IDLE, b, s.rows, 0);
    } else {
      q := Fill(g, no, s, IDLE, 0);
    }
  }

  lemma RoomyShort(g: Geo, s: Board, b: nat)
    requires 4 <= g.P && Ahead(g, s.c.ic) && 2 <= s.c.isolFree && b < |s.rows| && |s.rows[b].f| < g.P / 2
    ensures Roomy(g, s, 0) && FreeAfter(g, IsolSucc(g, s.c.ic).off, s.c.isolFree, 0) == s.c.isolFree
    ensures IcPos(g, s.c.ic, 0) == s.c.ic && FirstAfter(g, s, b, 0) == s.first && Moving(g, s.rows[b]) == 0
    ensures s.rows[b].cold <= |s.rows[b].f| ==> Rest(g, s.rows[b]) == Line(s.rows[b].f, |s.rows[b].f|)
    ensures !Warm(g, s.rows[b])
  {
  }

  // ----- the interval between merges grows -----

  /** How far the interval has grown, in writes. */
  function Gauge(g: Geo, t: Tuning): nat { t.interval * (Period(g) + 1) + Least(t.writes, Period(g)) }

  lemma GaugeOn(g: Geo, t: Tuning)
    requires 2 <= g.ISOL && !t.inc
    ensures var u := Tuned(g, t.(writes := t.writes + 1), g.ISOL - 1);
            Gauge(g, u) > Gauge(g, t) && u.trigger == t.trigger && !u.inc
  {
    assert (t.interval + 1) * (Period(g) + 1) == t.interval * (Period(g) + 1) + Period(g) + 1;
  }

  lemma GaugeMeans(g: Geo, t: Tuning, n: nat)
    requires n * (Period(g) + 1) + Period(g) < Gauge(g, t)
    ensures n < t.interval
  {
    MulOrder(t.interval, n, Period(g) + 1);
  }

  /** The position after n pages of blocks without live pages. */
  function Spin(g: Geo, x: Addr, n: nat): Addr {
    if n == 0 then x
    else
      var y := Spin(g, x, n - 1);
      if y.off + 2 == g.P then Addr(RwVictim(g, y), 0) else Addr(y.blk, y.off + 1)
  }

  /** All blocks are without live pages. */
  predicate Empty(g: Geo, s: Board) { AllDead(s.rows, 1, g.K) }

  lemma {:induction false} Grow(g: Geo, no: nat, s: Board, n: nat) returns (q: Board)
    requires Sound(g, no, s) && Quiet(g, s) && Empty(g, s) && s.c.isolFree == g.ISOL - 1 && 4 <= g.ISOL && !s.c.tune.inc
    ensures Sound(g, no, q) && Quiet(g, q) && Empty(g, q) && Same(s, q) && !q.c.tune.inc && q.first == s.first
    ensures q.ls == s.ls + Rep(n) && q.c.rw == Spin(g, s.c.rw, n)
    ensures Gauge(g, q.c.tune) >= Gauge(g, s.c.tune) + n && q.c.tune.trigger == s.c.tune.trigger
  {
    hide Sound, Due, Tuned, Gauge;
    if n == 0 {
      q := s;
      assert s.ls + Rep(0) == s.ls;
    } else {
      var p := Grow(g, no, s, n - 1);
      GaugeOn(g, p.c.tune);
      q := IdleOne(g, no, p);
      assert s.ls + Rep(n - 1) + [IDLE] == s.ls + Rep(n);
      StillEmpty(g, no, p, q);
    }
  }

  lemma StillEmpty(g: Geo, no: nat, s: Board, q: Board)
    requires Empty(g, s) && SameLpns(s.rows, q.rows) && Sound(g, no, q)
    ensures Empty(g, q)
  {
    SoundParts(g, no, q);
    forall b | 1 <= b < g.K ensures q.rows[b] == DEAD { assert q.rows[b].f == s.rows[b].f; }
  }
  lemma {:induction false} SpinSum(g: Geo, x: Addr, n: nat, m: nat)
    ensures Spin(g, Spin(g, x, n), m) == Spin(g, x, n + m)
  {
    if m > 0 { SpinSum(g, x, n, m - 1); }
  }

  /** From the end of a block the next one is filled. */
  lemma {:induction false} SpinBlock(g: Geo, x: Addr, n: nat)
    requires 4 <= g.P && x.off + 2 == g.P && 1 <= n < g.P
    ensures Spin(g, x, n) == Addr(RwVictim(g, x), n - 1)
  {
    if n > 1 { SpinBlock(g, x, n - 1); } else { assert Spin(g, x, 0) == x; }
  }

  lemma {:induction false} SpinBlocks(g: Geo, n: nat)
    requires 4 <= g.P && 2 <= g.K && n < g.K
    ensures Spin(g, Addr(g.K - 1, g.P - 2), Pages(g, n)) == Addr(if n == 0 then g.K - 1 else n, g.P - 2)
  {
    var x := Addr(g.K - 1, g.P - 2);
    if n > 0 {
      SpinBlocks(g, n - 1);
      SpinSum(g, x, Pages(g, n - 1), g.P - 1);
      SpinBlock(g, Spin(g, x, Pages(g, n - 1)), g.P - 1);
    }
  }

  /** The number of writes in n laps round all blocks. */
  function LapPages(g: Geo, n: nat): (r: nat)
    requires 2 <= g.P && 2 <= g.K
    ensures n <= r
  {
    if n == 0 then 0 else assert 1 <= Pages(g, g.K - 1); LapPages(g, n - 1) + Pages(g, g.K - 1)
  }

  lemma {:induction false} SpinLaps(g: Geo, n: nat)
    requires 4 <= g.P && 2 <= g.K
    ensures Spin(g, Addr(g.K - 1, g.P - 2), LapPages(g, n)) == Addr(g.K - 1, g.P - 2)
  {
    if n > 0 {
      SpinLaps(g, n - 1);
      SpinSum(g, Addr(g.K - 1, g.P - 2), LapPages(g, n - 1), Pages(g, g.K - 1));
      SpinBlocks(g, g.K - 1);
    }
  }

  // ----- rounds -----

  function Deads(n: nat): (r: seq<Line>)
    ensures |r| == n && forall i :: 0 <= i < n ==> r[i] == DEAD
  {
    if n == 0 then [] else Deads(n - 1) + [DEAD]
  }

  /** The bank after format. */
  lemma Formatted(g: Geo, no: nat) returns (s: Board)
    requires GeoOk(g)
    ensures Sound(g, no, s) && s == Board([], Fresh(g), Deads(g.K), 0, map[]) && Calm(no, s, 0)
  {
    s := Board([], Fresh(g), Deads(g.K), 0, map[]);
    WritesNone(g, no, Fresh(g));
    forall b | 1 <= b < g.K ensures RowIs(g, s.c.hm, s.c.sc, b, s.rows[b]) {}
  }

  /** A lap is about to begin. */
  predicate Begins(g: Geo, s: Board) {
    Ready(g, s) && 4 <= g.K && AllDead(s.rows, 2, g.K) && s.idle != 2
  }

  /** At the end of a lap. */
  predicate Ended(g: Geo, s: Board) {
    && 4 <= g.P && 4 <= g.K == |s.rows| && AllDead(s.rows, 2, g.K) && s.c.rw == Addr(g.K - 1, g.P - 2)
    && s.c.rwFree == 1 && s.idle + 1 == g.K && Edge(g, s.c)
  }

  /** The first block is filled, one lap later it gets its second chance, and another lap later it is next. */
  function RoundRun(g: Geo, w: seq<Addr>): seq<Addr>
    requires 0 < g.P && 2 <= g.K
  {
    w + Rep(Pages(g, g.K - 2)) + Rep(Pages(g, g.K - 2))
  }

  lemma EdgeShifted(g: Geo, s: Board, q: Board)
    requires Ready(g, s) && Shifted(g, s, q)
    ensures Edge(g, q.c) && Ahead(g, q.c.ic)
  {
  }

  /** The first half of the round. */
  lemma Heat(g: Geo, no: nat, s: Board, w: seq<Addr>, e: nat, end: nat) returns (q: Board)
    requires Ready(g, s) && 3 <= e <= g.K && AllDead(s.rows, 2, e) && s.idle != 2
    requires Sound(g, no, s) && |w| + 1 == g.P && Writable(g, s.(rows := s.rows[1 := DEAD]), w)
    requires SafeThen(g, no, s, end, g.P - 1 + Pages(g, e - 2))
    ensures Sound(g, no, q) && Running(g, q.c) && Shifted(g, s, q) && Calm(no, q, end) && q.c.isolFree == FreeThen(s)
    ensures q.ls == s.ls + w + Rep(Pages(g, e - 2)) && q.rows == s.rows[1 := Line(w, 0)]
    ensures q.c.rw == Addr(e - 1, g.P - 2) && q.idle == e - 1 && q.first == FirstThen(s) - (set l | l in w)
  {
    hide Sound, Calm, FirstThen, Writable;
    var p := Refill(g, no, s, w, end);
    EdgeShifted(g, s, p);
    q := BlocksIdle(g, no, p, 2, e, end);
  }

  lemma Round(g: Geo, no: nat, s: Board, w: seq<Addr>, end: nat) returns (q: Board)
    requires Begins(g, s) && |w| + 1 == g.P && Writable(g, s.(rows := s.rows[1 := DEAD]), w)
    requires Sound(g, no, s) && SafeThen(g, no, s, end, |RoundRun(g, w)|)
    ensures Sound(g, no, q) && Shifted(g, s, q) && Calm(no, q, end) && q.c.isolFree == FreeThen(s)
    ensures q.ls == s.ls + RoundRun(g, w) && q.rows == s.rows[1 := Cold(w)] && Ended(g, q)
    ensures q.first == FirstThen(s) - (set l | l in w)
  {
    hide Sound, Calm, FirstThen, Writable, Pages;
    var p := Heat(g, no, s, w, g.K, end);
    EdgeShifted(g, s, p);
    q := Pass(g, no, p, g.K, end);
    assert s.ls + w + Rep(Pages(g, g.K - 2)) + Rep(Pages(g, g.K - 2)) == s.ls + RoundRun(g, w);
    assert s.rows[1 := Line(w, 0)][1 := Cold(w)] == s.rows[1 := Cold(w)];
  }
}
