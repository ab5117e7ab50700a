/** The arithmetic and the single steps of garbage collection in the RW log (ftl_faster/ftl.c, garbage_collection). */
module FasterGc {
  import opened Common
  import opened Nand
  import opened FasterState
  import opened FasterSteps
  import opened FasterCapacity

  // ----- which pages of a victim are live, and which of them are cold -----

  /** The lpns whose current page is among the first n of log block b. */
  ghost function LiveIn(hm: map<Addr, Addr>, b: nat, n: nat): set<Addr> {
    set l | l in hm && hm[l].blk == b && hm[l].off < n
  }

  /** Those of them whose page carries a second-chance bit. */
  ghost function ColdIn(hm: map<Addr, Addr>, sc: set<Addr>, b: nat, n: nat): set<Addr> {
    set l | l in hm && hm[l].blk == b && hm[l].off < n && hm[l] in sc
  }

  /** The list that the first loop of garbage_collection leaves: the live lpns of block b, by page. */
  ghost predicate LiveList(hm: map<Addr, Addr>, b: nat, list: seq<Option<Addr>>, n: nat) {
    && n <= |list|
    && (forall l :: l in hm && hm[l].blk == b && hm[l].off < n ==> list[hm[l].off] == Some(l))
    && (forall o :: 0 <= o < n && list[o].Some? ==> list[o].value in hm && hm[list[o].value] == Addr(b, o))
  }

  /** One more page of a block counts for at most one live, and at most one cold lpn. */
  lemma LiveNext(hm: map<Addr, Addr>, b: nat, list: seq<Option<Addr>>, n: nat)
    requires LiveList(hm, b, list, n + 1)
    ensures |LiveIn(hm, b, n + 1)| == |LiveIn(hm, b, n)| + (if list[n].Some? then 1 else 0)
  {
    var more: set<Addr> := if list[n].Some? then {list[n].value} else {};
    forall l ensures l in LiveIn(hm, b, n + 1) <==> l in LiveIn(hm, b, n) + more {
      if l in hm && hm[l].blk == b && hm[l].off == n { assert hm[l] == Addr(b, n); }
    }
    assert LiveIn(hm, b, n + 1) == LiveIn(hm, b, n) + more;
  }

  lemma ColdNext(hm: map<Addr, Addr>, sc: set<Addr>, b: nat, list: seq<Option<Addr>>, n: nat)
    requires LiveList(hm, b, list, n + 1)
    ensures |ColdIn(hm, sc, b, n + 1)| == |ColdIn(hm, sc, b, n)| + (if list[n].Some? && Addr(b, n) in sc then 1 else 0)
  {
    var cold: set<Addr> := if list[n].Some? && Addr(b, n) in sc then {list[n].value} else {};
    forall l ensures l in ColdIn(hm, sc, b, n + 1) <==> l in ColdIn(hm, sc, b, n) + cold {
      if l in hm && hm[l].blk == b && hm[l].off == n { assert hm[l] == Addr(b, n); }
    }
    assert ColdIn(hm, sc, b, n + 1) == ColdIn(hm, sc, b, n) + cold;
  }

  lemma {:induction false} LiveBound(hm: map<Addr, Addr>, sc: set<Addr>, b: nat, list: seq<Option<Addr>>, n: nat)
    requires LiveList(hm, b, list, n)
    ensures |ColdIn(hm, sc, b, n)| <= |LiveIn(hm, b, n)| <= n
  {
    if n == 0 {
      assert LiveIn(hm, b, 0) == {} && ColdIn(hm, sc, b, 0) == {};
    } else {
      LiveBound(hm, sc, b, list, n - 1);
      LiveNext(hm, b, list, n - 1);
      ColdNext(hm, sc, b, list, n - 1);
    }
  }

  /** The first loop looks at one more page. */
  lemma MarkNext(hm: map<Addr, Addr>, b: nat, list: seq<Option<Addr>>, n: nat)
    requires LiveList(hm, b, list, n) && n < |list|
    requires forall l :: l in hm && hm[l] == Addr(b, n) ==> list[n] == Some(l)
    ensures var live := list[n].Some? && list[n].value in hm && hm[list[n].value] == Addr(b, n);
            LiveList(hm, b, if live then list else list[n := None], n + 1)
  {
    var live := list[n].Some? && list[n].value in hm && hm[list[n].value] == Addr(b, n);
    var list' := if live then list else list[n := None];
    forall l | l in hm && hm[l].blk == b && hm[l].off < n + 1 ensures list'[hm[l].off] == Some(l) {
      if hm[l].off == n { assert hm[l] == Addr(b, n); }
    }
  }

  /** Pages counted so far are no more than those counted in the end. */
  lemma {:induction false} ColdBound(hm: map<Addr, Addr>, sc: set<Addr>, b: nat, list: seq<Option<Addr>>, o: nat,
      n: nat)
    ensures LiveList(hm, b, list, n) && o <= n ==>
            |ColdIn(hm, sc, b, o)| <= |ColdIn(hm, sc, b, n)| <= |LiveIn(hm, b, n)| <= n
    decreases n - o
  {
    if LiveList(hm, b, list, n) && o <= n {
      if o < n {
        assert LiveList(hm, b, list, o + 1);
        ColdNext(hm, sc, b, list, o);
        ColdBound(hm, sc, b, list, o + 1, n);
      } else {
        LiveBound(hm, sc, b, list, n);
      }
    }
  }

  /**
   The second-chance bits when the pages of block b below o have been dealt with: those of the
   f pages kept are set, in place of the victim's, and all others are those of sc0.
   */
  ghost predicate ScBits(sc0: set<Addr>, sc: set<Addr>, b: nat, f: nat, o: nat) {
    forall x :: x in sc <==> if x.blk == b && x.off < o then x.off < f else x in sc0
  }

  lemma ScNext(sc0: set<Addr>, sc: set<Addr>, b: nat, f: nat, o: nat)
    ensures ScBits(sc0, sc, b, f, o) && f <= o ==>
              && (Addr(b, o) in sc <==> Addr(b, o) in sc0)
              && ScBits(sc0, sc - {Addr(b, o)}, b, f, o + 1)
              && ScBits(sc0, sc - {Addr(b, o)} + {Addr(b, f)}, b, f + 1, o + 1)
  {
    if ScBits(sc0, sc, b, f, o) && f <= o {
      forall x ensures x in sc - {Addr(b, o)} <==> (if x.blk == b && x.off < o + 1 then x.off < f else x in sc0) {
        assert x == Addr(b, o) <==> x.blk == b && x.off == o;
      }
      forall x ensures x in sc - {Addr(b, o)} + {Addr(b, f)} <==>
        (if x.blk == b && x.off < o + 1 then x.off < f + 1 else x in sc0) {
        assert x == Addr(b, o) <==> x.blk == b && x.off == o;
        assert x == Addr(b, f) <==> x.blk == b && x.off == f;
      }
    }
  }

  lemma BitsStart(sc: set<Addr>, b: nat)
    ensures ScBits(sc, sc, b, 0, 0)
  {
  }

  /** With all bits of the block cleared beforehand, there is none to clear at page o. */
  lemma NoBitLeft(g: Geo, sc0: set<Addr>, sc: set<Addr>, b: nat, f: nat, o: nat)
    requires ScBits(sc0, sc, b, f, o) && f <= o < g.P && forall x :: x in sc0 ==> !(x.blk == b && x.off < g.P)
    ensures ScBits(sc0, sc, b, f, o + 1) && ScBits(sc0, sc + {Addr(b, f)}, b, f + 1, o + 1)
  {
    ScNext(sc0, sc, b, f, o);
    assert Addr(b, o) !in sc;
    assert sc - {Addr(b, o)} == sc;
  }

  /** The bits left when those of block b below page n have been cleared, and those of its first f pages set again. */
  ghost function ScAfter(sc: set<Addr>, b: nat, f: nat, n: nat): set<Addr> {
    (set x | x in sc && !(x.blk == b && x.off < n)) + Row(b, f)
  }

  lemma BitsDone(sc0: set<Addr>, sc1: set<Addr>, sc: set<Addr>, b: nat, f: nat, o: nat, n: nat)
    requires ScBits(sc1, sc, b, f, o) && f <= o <= n
    requires forall x :: x in sc1 <==> x in sc0 && !(o < n && x.blk == b && x.off < n)
    ensures sc == ScAfter(sc0, b, f, n)
  {
  }

  /** The first loop has come to page n of a block whose list in flash is list0. */
  ghost predicate Marking(hm: map<Addr, Addr>, b: nat, list0: seq<Option<Addr>>, list: seq<Option<Addr>>, n: nat) {
    && LiveList(hm, b, list, n) && |list| == |list0|
    && (forall q :: n <= q < |list| ==> list[q] == list0[q])
    && forall l :: l in hm && hm[l].blk == b ==> hm[l].off < |list0| && list0[hm[l].off] == Some(l)
  }

  lemma MarkStart(hm: map<Addr, Addr>, sc: set<Addr>, b: nat, list: seq<Option<Addr>>)
    requires forall l :: l in hm && hm[l].blk == b ==> hm[l].off < |list| && list[hm[l].off] == Some(l)
    ensures Marking(hm, b, list, list, 0) && LiveIn(hm, b, 0) == {} && ColdIn(hm, sc, b, 0) == {}
  {
  }

  lemma MarkStep(hm: map<Addr, Addr>, sc: set<Addr>, b: nat, list0: seq<Option<Addr>>, list: seq<Option<Addr>>, n: nat)
    requires Marking(hm, b, list0, list, n) && n < |list|
    ensures var live := list[n].Some? && list[n].value in hm && hm[list[n].value] == Addr(b, n);
            && Marking(hm, b, list0, if live then list else list[n := None], n + 1)
            && |LiveIn(hm, b, n + 1)| == |LiveIn(hm, b, n)| + (if live then 1 else 0)
            && |ColdIn(hm, sc, b, n + 1)| == |ColdIn(hm, sc, b, n)| + (if live && Addr(b, n) in sc then 1 else 0)
  {
    var live := list[n].Some? && list[n].value in hm && hm[list[n].value] == Addr(b, n);
    var list' := if live then list else list[n := None];
    MarkNext(hm, b, list, n);
    LiveNext(hm, b, list', n);
    ColdNext(hm, sc, b, list', n);
  }

  lemma MarkEnd(hm: map<Addr, Addr>, b: nat, list0: seq<Option<Addr>>, list: seq<Option<Addr>>, n: nat)
    requires Marking(hm, b, list0, list, n)
    ensures LiveList(hm, b, list, n)
  {
  }

  // ----- where a collection puts the live pages of its victim -----

  /** The isolation page that follows write pointer ic; the last page of a block is for its lpn list. */
  function IcNext(g: Geo, ic: Option<Addr>): Addr {
    var x := IsolSucc(g, ic);
    if x.off + 1 == g.P then IsolSucc(g, Some(x)) else x
  }

  /** The isolation write pointer after k more pages. */
  function IcAfter(g: Geo, ic: Option<Addr>, k: nat): Option<Addr> {
    if k == 0 then ic else Some(IcNext(g, IcAfter(g, ic, k - 1)))
  }

  /** The log address of an isolation page. */
  function InIsol(g: Geo, x: Addr): Addr {
    Addr(g.LOG + x.blk, x.off)
  }

  /**
   Where a live page x goes when block b is collected: a page of b in moved to the isolation area, behind
   those moved before it; any other page of b to the replacement, behind those kept before it.
   */
  ghost function Place(g: Geo, hm: map<Addr, Addr>, moved: set<Addr>, ic: Option<Addr>, b: nat, x: Addr): Addr {
    if x.blk != b then x
    else if x in moved then InIsol(g, IcNext(g, IcAfter(g, ic, |ColdIn(hm, moved, b, x.off)|)))
    else
      SubsetSize(ColdIn(hm, moved, b, x.off), LiveIn(hm, b, x.off));
      Addr(b, |LiveIn(hm, b, x.off)| - |ColdIn(hm, moved, b, x.off)|)
  }

  /** The entries after block b has been collected. */
  ghost function CollectedMap(g: Geo, hm: map<Addr, Addr>, moved: set<Addr>, ic: Option<Addr>, b: nat): map<Addr,
      Addr> {
    map l | l in hm :: Place(g, hm, moved, ic, b, hm[l])
  }

  /**
   A loop over the pages of a victim has come to page o: the lpns that its list (list0 to begin with) names
   from there on are still where they were in hm0; those below are in their new places.
   */
  ghost predicate Sweep(g: Geo, hm0: map<Addr, Addr>, hm: map<Addr, Addr>, moved: set<Addr>, ic: Option<Addr>, b: nat,
                        list0: seq<Option<Addr>>, list: seq<Option<Addr>>, o: nat, n: nat) {
    && LiveList(hm0, b, list0, n) && |list| == |list0|
    && (forall q :: o <= q < n ==>
      list[q] == list0[q] && (list[q].Some? ==> list[q].value in hm && hm[list[q].value] == Addr(b, q)))
    && hm.Keys == hm0.Keys
    && forall l :: l in hm0 ==> Placed(g, hm0, moved, ic, b, hm0[l], hm[l], o)
  }

  ghost predicate Placed(g: Geo, hm0: map<Addr, Addr>, moved: set<Addr>, ic: Option<Addr>, b: nat, x: Addr, y: Addr,
      o: nat) {
    y == if x.blk == b && x.off < o then Place(g, hm0, moved, ic, b, x) else x
  }

  lemma NoneCollected(g: Geo, hm: map<Addr, Addr>, moved: set<Addr>, ic: Option<Addr>, b: nat, n: nat)
    requires |LiveIn(hm, b, n)| == 0 && forall l :: l in hm && hm[l].blk == b ==> hm[l].off < n
    ensures CollectedMap(g, hm, moved, ic, b) == hm
  {
    forall l | l in hm ensures hm[l].blk != b { assert l !in LiveIn(hm, b, n); }
  }

  lemma SweepStart(g: Geo, hm: map<Addr, Addr>, moved: set<Addr>, ic: Option<Addr>, b: nat, list: seq<Option<Addr>>,
      n: nat)
    requires LiveList(hm, b, list, n)
    ensures Sweep(g, hm, hm, moved, ic, b, list, list, 0, n) && LiveIn(hm, b, 0) == {} &&
            forall sc :: ColdIn(hm, sc, b, 0) == {}
  {
  }

  /** What the loop finds at page o, and what is left when the page is dead. */
  lemma SweepNext(g: Geo, hm0: map<Addr, Addr>, hm: map<Addr, Addr>, moved: set<Addr>, ic: Option<Addr>,
      sc: set<Addr>, b: nat,
                  list0: seq<Option<Addr>>, list: seq<Option<Addr>>, o: nat, n: nat)
    requires Sweep(g, hm0, hm, moved, ic, b, list0, list, o, n) && o < n
    ensures o < |list|
    ensures |LiveIn(hm0, b, o + 1)| == |LiveIn(hm0, b, o)| + (if list[o].Some? then 1 else 0)
    ensures |ColdIn(hm0, sc, b, o + 1)| == |ColdIn(hm0, sc, b, o)| + (if list[o].Some? &&
            Addr(b, o) in sc then 1 else 0)
    ensures list[o].None? ==> Sweep(g, hm0, hm, moved, ic, b, list0, list, o + 1, n)
    ensures list[o].Some? ==> list[o].value in hm && hm[list[o].value] == Addr(b, o)
  {
    hide Place;
    LiveNext(hm0, b, list0, o);
    ColdNext(hm0, sc, b, list0, o);
    if list[o].None? {
      forall l | l in hm0 ensures Placed(g, hm0, moved, ic, b, hm0[l], hm[l], o + 1) {
        assert Placed(g, hm0, moved, ic, b, hm0[l], hm[l], o);
      }
    }
  }

  /** The live page o has gone to its place. */
  lemma SweepOn(g: Geo, hm0: map<Addr, Addr>, hm: map<Addr, Addr>, moved: set<Addr>, ic: Option<Addr>, b: nat,
                list0: seq<Option<Addr>>, list: seq<Option<Addr>>, o: nat, n: nat, d: Addr, f: nat)
    requires Sweep(g, hm0, hm, moved, ic, b, list0, list, o, n) && f <= o < n <= |list| && list[o].Some?
    requires d == Place(g, hm0, moved, ic, b, Addr(b, o))
    ensures Sweep(g, hm0, hm[list[o].value := d], moved, ic, b, list0, list, o + 1, n)
    ensures Sweep(g, hm0, hm[list[o].value := d], moved, ic, b, list0, list[f := list[o]], o + 1, n)
  {
    hide Place;
    var hm' := hm[list[o].value := d];
    assert hm'.Keys == hm0.Keys;
    forall l | l in hm0 ensures Placed(g, hm0, moved, ic, b, hm0[l], hm'[l], o + 1) {
      assert Placed(g, hm0, moved, ic, b, hm0[l], hm[l], o);
      if hm0[l].blk == b && hm0[l].off == o { assert hm0[l] == Addr(b, o) && list0[o] == Some(l); }
    }
  }

  lemma SweepEnd(g: Geo, hm0: map<Addr, Addr>, hm: map<Addr, Addr>, moved: set<Addr>, ic: Option<Addr>, b: nat,
                 list0: seq<Option<Addr>>, list: seq<Option<Addr>>, n: nat)
    requires Sweep(g, hm0, hm, moved, ic, b, list0, list, n, n)
    requires forall l :: l in hm0 && hm0[l].blk == b ==> hm0[l].off < n
    ensures hm == CollectedMap(g, hm0, moved, ic, b)
  {
    hide Place;
    forall l | l in hm0 ensures hm[l] == Place(g, hm0, moved, ic, b, hm0[l]) {
      assert Placed(g, hm0, moved, ic, b, hm0[l], hm[l], n);
      if hm0[l].blk != b { PlaceElsewhere(g, hm0, moved, ic, b, hm0[l]); }
    }
  }

  lemma PlaceCold(g: Geo, hm: map<Addr, Addr>, moved: set<Addr>, ic: Option<Addr>, b: nat, o: nat)
    requires Addr(b, o) in moved
    ensures Place(g, hm, moved, ic, b, Addr(b, o)) == InIsol(g, IcNext(g, IcAfter(g, ic, |ColdIn(hm, moved, b, o)|)))
  {
  }

  lemma PlaceWarm(g: Geo, hm: map<Addr, Addr>, moved: set<Addr>, ic: Option<Addr>, b: nat, o: nat, f: nat)
    requires Addr(b, o) !in moved && f + |ColdIn(hm, moved, b, o)| == |LiveIn(hm, b, o)|
    ensures Place(g, hm, moved, ic, b, Addr(b, o)) == Addr(b, f)
  {
  }

  lemma PlaceElsewhere(g: Geo, hm: map<Addr, Addr>, moved: set<Addr>, ic: Option<Addr>, b: nat, x: Addr)
    requires x.blk != b
    ensures Place(g, hm, moved, ic, b, x) == x
  {
  }

  // ----- what a collection does to the isolation area -----

  /** The number of pages that collecting log block b moves to the isolation area. */
  ghost function Moves(g: Geo, hm: map<Addr, Addr>, sc: set<Addr>, b: nat): nat
    requires 0 < g.P
  {
    if |LiveIn(hm, b, g.P - 1)| < g.P / 2 then 0 else |ColdIn(hm, sc, b, g.P - 1)|
  }

  /** The RW log block whose turn it is, the write pointer being x. */
  function RwVictim(g: Geo, x: Addr): nat {
    if x.blk + 1 < g.K then x.blk + 1 else 1
  }

  /** The pages of log block b that collecting it moves to the isolation area. */
  ghost function Movers(g: Geo, hm: map<Addr, Addr>, sc: set<Addr>, b: nat): set<Addr>
    requires 0 < g.P
  {
    if |LiveIn(hm, b, g.P - 1)| < g.P / 2 then {} else sc
  }

  lemma MovesAre(g: Geo, hm: map<Addr, Addr>, sc: set<Addr>, b: nat)
    requires 0 < g.P
    ensures |ColdIn(hm, Movers(g, hm, sc, b), b, g.P - 1)| == Moves(g, hm, sc, b)
  {
    assert ColdIn(hm, {}, b, g.P - 1) == {};
  }

  /** The victim pointer rests behind the last data page of a block that it has recycled. */
  predicate Parked(g: Geo, iv: Option<Addr>) {
    iv.Some? && iv.value.off == g.P - 1
  }

  /**
   The isolation blocks that writing may go on into before one of the ASSERTs on the
   victim pointer stops it; a parked victim pointer costs one.
   */
  function Room(g: Geo, isolFree: nat, iv: Option<Addr>): int {
    isolFree - (if Parked(g, iv) then 1 else 0)
  }

  /** The isolation blocks that moving k pages needs, the current one having its next page at offset c. */
  function Needed(g: Geo, c: nat, k: nat): int {
    if k == 0 then 0 else if c + k < g.P then 1 else 2
  }

  /** The isolation write pointer after k pages have been moved, next offset and free blocks. */
  predicate MovedOn(g: Geo, c: nat, isolFree: nat, k: nat, c': nat, isolFree': nat) {
    if c + k < g.P then c' == c + k && isolFree' == isolFree
    else c' + g.P == c + k + 1 && isolFree' + 1 == isolFree
  }

  /** Where the ASSERTs compare the write pointer's block with the victim pointer's: they meet only when room is out. */
  lemma PointersMeet(g: Geo, a: Pic)
    ensures Inv(g, a) && a.isolFree < g.ISOL && a.iv.Some? ==>
              (Cur(g, a).blk == a.iv.value.blk <==> Parked(g, a.iv) && a.isolFree == 1)
    ensures Inv(g, a) && a.isolFree == g.ISOL && a.iv.Some? ==> Cur(g, a).blk != a.iv.value.blk
  {
  }

  lemma MoveStart(g: Geo, iv: Option<Addr>, c: nat, i: nat, sc: set<Addr>, b: nat)
    requires c < g.P && 1 <= i
    ensures MovedOn(g, c, i, 0, c, i) && Room(g, i, iv) >= Needed(g, c, 0) && ScBits(sc, sc, b, 0, 0)
  {
  }

  /** One more move, when there is room for it. */
  lemma MoreRoom(g: Geo, iv: Option<Addr>, c0: nat, i0: nat, k: nat, c: nat, i: nat, c': nat, i': nat)
    requires c0 < g.P && k + 1 < g.P && MovedOn(g, c0, i0, k, c, i)
    ensures Room(g, i, iv) >= (if c + 1 < g.P then 1 else 2) && MovedOn(g, c, i, 1, c', i') ==>
              MovedOn(g, c0, i0, k + 1, c', i') && Needed(g, c0, k + 1) <= Room(g, i0, iv)
    ensures Room(g, i, iv) < (if c + 1 < g.P then 1 else 2) ==> Room(g, i0, iv) < Needed(g, c0, k + 1)
  {
  }

  lemma RwBounds(g: Geo, a: Pic)
    ensures Inv(g, a) ==> a.rw.blk < g.K <= g.LOG && a.rw.off < g.P && |a.rwList| == g.P && 4 <= g.P && |a.log| == g.K
  {
  }

  // ----- why the garbage collection loop ends -----

  /** No data page of log block b has a second-chance bit. */
  ghost predicate Bare(g: Geo, sc: set<Addr>, b: nat) {
    forall x :: x in sc && x.blk == b ==> g.P <= x.off + 1
  }

  ghost function Unmarked(g: Geo, sc: set<Addr>): set<nat> {
    set b: nat | 1 <= b < g.K && Bare(g, sc, b)
  }

  /** Fewer than K blocks are unmarked. */
  lemma UnmarkedBound(g: Geo, sc: set<Addr>)
    requires 1 <= g.K
    ensures |Unmarked(g, sc)| < g.K
  {
    FewerBelow(Unmarked(g, sc), g.K);
  }

  lemma {:induction false} FewerBelow(s: set<nat>, n: nat)
    requires 1 <= n && forall x :: x in s ==> 1 <= x < n
    ensures |s| < n
  {
    if n == 1 {
      assert s == {};
    } else {
      FewerBelow(s - {n - 1}, n - 1);
      assert s <= s - {n - 1} + {n - 1};
    }
  }

  lemma SmallerSize(s: set<nat>, t: set<nat>)
    requires s < t
    ensures |s| < |t|
  {
    assert exists x :: x in t && x !in s;
    var x :| x in t && x !in s;
    SubsetSize(s, t - {x});
  }

  /** Some lpn's current page is the one at log address x. */
  ghost predicate LiveAt(hm: map<Addr, Addr>, x: Addr) {
    exists l :: l in hm && hm[l] == x
  }

  /** All data pages of log block b are live, and none of them has had its second chance. */
  ghost predicate AllWarm(g: Geo, hm: map<Addr, Addr>, sc: set<Addr>, b: nat) {
    forall o {:trigger Addr(b, o)} :: 0 <= o < g.P - 1 ==> LiveAt(hm, Addr(b, o)) && Addr(b, o) !in sc
  }

  /** Such a block was unmarked, and marking it makes one less. */
  lemma MarkedOne(g: Geo, hm: map<Addr, Addr>, sc: set<Addr>, b: nat)
    requires 2 <= g.P && 1 <= b < g.K && AllWarm(g, hm, sc, b)
    ensures |Unmarked(g, sc + Row(b, g.P))| < |Unmarked(g, sc)|
  {
    var sc' := sc + Row(b, g.P);
    forall x | x in sc && x.blk == b ensures g.P <= x.off + 1 { assert x == Addr(b, x.off); }
    assert Addr(b, 0) in sc';
    assert b in Unmarked(g, sc) && b !in Unmarked(g, sc');
    assert Unmarked(g, sc') < Unmarked(g, sc);
    SmallerSize(Unmarked(g, sc'), Unmarked(g, sc));
  }

  /** The first loop of garbage_collection finds out about that by counting. */
  lemma WarmByCount(g: Geo, hm: map<Addr, Addr>, sc: set<Addr>, b: nat, list: seq<Option<Addr>>)
    requires 1 <= g.P && LiveList(hm, b, list, g.P - 1)
    ensures AllWarm(g, hm, sc, b) <==> |LiveIn(hm, b, g.P - 1)| == g.P - 1 && |ColdIn(hm, sc, b, g.P - 1)| == 0
  {
    var n := g.P - 1;
    if AllWarm(g, hm, sc, b) {
      forall o | 0 <= o < n ensures list[o].Some? { assert LiveAt(hm, Addr(b, o)); }
      AllCounted(hm, b, list, n);
      forall l | l in hm && hm[l].blk == b && hm[l].off < n ensures hm[l] !in sc { assert hm[l] == Addr(b, hm[l].off); }
      assert ColdIn(hm, sc, b, n) == {};
    } else if |LiveIn(hm, b, n)| == n && |ColdIn(hm, sc, b, n)| == 0 {
      forall o | 0 <= o < n ensures LiveAt(hm, Addr(b, o)) && Addr(b, o) !in sc {
        AllLive(hm, b, list, n, o);
        assert list[o].value !in ColdIn(hm, sc, b, n);
      }
    }
  }

  lemma {:induction false} AllLive(hm: map<Addr, Addr>, b: nat, list: seq<Option<Addr>>, n: nat, o: nat)
    requires LiveList(hm, b, list, n) && |LiveIn(hm, b, n)| == n && o < n
    ensures list[o].Some?
  {
    LiveNext(hm, b, list, n - 1);
    LiveBound(hm, {}, b, list, n - 1);
    if o < n - 1 { AllLive(hm, b, list, n - 1, o); }
  }

  lemma {:induction false} AllCounted(hm: map<Addr, Addr>, b: nat, list: seq<Option<Addr>>, n: nat)
    requires LiveList(hm, b, list, n) && forall o :: 0 <= o < n ==> list[o].Some?
    ensures |LiveIn(hm, b, n)| == n
  {
    if n == 0 {
      assert LiveIn(hm, b, 0) == {};
    } else {
      LiveNext(hm, b, list, n - 1);
      AllCounted(hm, b, list, n - 1);
    }
  }

  lemma CurBounds(g: Geo, a: Pic)
    ensures Inv(g, a) ==>
            4 <= g.P && 4 <= g.ISOL && Cur(g, a).off < g.P && Cur(g, a).blk < g.ISOL && 1 <= a.isolFree <= g.ISOL
  {
  }

  lemma SameCur(g: Geo, a: Pic, b: Pic)
    ensures b.ic == a.ic ==> Cur(g, b) == Cur(g, a) && (IcInside(g, a) ==> IcInside(g, b))
  {
  }

  lemma SameViewRefl(g: Geo, a: Pic)
    ensures SameView(g, a, a)
  {
  }

  // ----- steps, with everything they keep -----

  lemma GcStartedOk(g: Geo, a: Pic, b: nat, list: seq<Option<Addr>>)
    ensures Inv(g, a) && a.phase.Idle? && a.rwFree == 0 && 1 <= b < g.K && |list| == g.P &&
            LiveList(a.hm, b, list, g.P - 1) ==>
              Inv(g, GcStarted(a, b, list)) && SameView(g, a, GcStarted(a, b, list))
  {
    if Inv(g, a) && a.phase.Idle? && a.rwFree == 0 && 1 <= b < g.K && |list| == g.P &&
      LiveList(a.hm, b, list, g.P - 1) {
      forall l | l in a.hm && a.hm[l].blk == b ensures a.hm[l].off < g.P && list[a.hm[l].off] == Some(l) {
        assert LocOk(g, a, l);
      }
      GcStartedCore(g, a, b, list);
      forall l ensures NotBehind(g, GcStarted(a, b, list), l) { assert NotBehind(g, a, l); }
    }
  }

  lemma GcKeptOk(g: Geo, a: Pic, l: Addr, p: Page)
    ensures Inv(g, a) && GcAt(g, a, l) && p == Written(ViewAt(g, a, l)) ==>
              && a.phase.b < |a.log| && a.phase.f < |a.log[a.phase.b]| && a.phase.f < |a.rwList|
              && Inv(g, GcKept(a, l, p)) && SameView(g, a, GcKept(a, l, p))
  {
    if Inv(g, a) && GcAt(g, a, l) && p == Written(ViewAt(g, a, l)) {
      GcKeptCore(g, a, l, p);
      forall k ensures NotBehind(g, GcKept(a, l, p), k) { assert NotBehind(g, a, k); }
    }
  }

  lemma GcSkippedOk(g: Geo, a: Pic)
    requires a.phase.Collecting?
    ensures Inv(g, a) && a.phase.o + 1 < g.P && a.phase.o < |a.rwList| && a.rwList[a.phase.o].None? ==>
              Inv(g, GcSkipped(a)) && SameView(g, a, GcSkipped(a))
  {
    if Inv(g, a) && a.phase.o + 1 < g.P && a.phase.o < |a.rwList| && a.rwList[a.phase.o].None? {
      GcSkippedCore(g, a);
      forall k ensures NotBehind(g, GcSkipped(a), k) { assert NotBehind(g, a, k); }
    }
  }

  /** The live page o of the victim goes to the isolation area. */
  ghost function GcMoved(g: Geo, a: Pic, l: Addr, p: Page): Pic
    requires a.phase.Collecting?
    requires var x := Cur(g, a);
             x.blk < |a.isol| && x.off < |a.isol[x.blk]| && x.off < |a.isList|
  {
    GcSkipped(IsolMoved(g, a, l, p))
  }

  /** The same, field by field. */
  lemma GcMovedParts(g: Geo, a: Pic, l: Addr, p: Page)
    requires a.phase.Collecting?
    requires var x := Cur(g, a);
             x.blk < |a.isol| && x.off < |a.isol[x.blk]| && x.off < |a.isList|
    ensures var x := Cur(g, a);
            GcMoved(g, a, l, p) ==
              a.(isol := Put(a.isol, x.blk, x.off, p), hm := a.hm[l := Addr(g.LOG + x.blk, x.off)],
                 ic := Some(x), isList := a.isList[x.off := Some(l)],
                   phase := Collecting(a.phase.b, a.phase.f, a.phase.o + 1))
  {
  }

  lemma GcMovedOk(g: Geo, a: Pic, l: Addr, p: Page)
    ensures Inv(g, a) && GcAt(g, a, l) && Cur(g, a).off + 1 < g.P && p == Written(ViewAt(g, a, l)) ==>
              && Cur(g, a).blk < g.ISOL == |a.isol| && |a.isol[Cur(g, a).blk]| == |a.isList| == g.P
              && BlankFrom(a.isol[Cur(g, a).blk], Cur(g, a).off)
              && Inv(g, GcMoved(g, a, l, p)) && SameView(g, a, GcMoved(g, a, l, p))
  {
    if Inv(g, a) && GcAt(g, a, l) && Cur(g, a).off + 1 < g.P && p == Written(ViewAt(g, a, l)) {
      assert LocOk(g, a, l);
      IsolMovedCore(g, a, l, p);
      IsolMovedView(g, a, l, p);
      var b := IsolMoved(g, a, l, p);
      GcSkippedCore(g, b);
      forall k ensures NotBehind(g, GcSkipped(b), k) { assert NotBehind(g, b, k); }
    }
  }

  lemma NoneToSee(g: Geo, a: Pic, b: nat)
    requires Core(g, a) && a.phase == Collecting(b, 0, 0) && forall l :: l in a.hm ==> a.hm[l].blk != b
    ensures Core(g, a.(phase := Collecting(b, 0, g.P - 1)))
  {
    var a' := a.(phase := Collecting(b, 0, g.P - 1));
    forall c | 1 <= c < g.K ensures RwBlock(g, a', c) { assert RwBlock(g, a, c); }
    forall i | 0 <= i < g.ISOL ensures IsBlock(g, a', i) { assert IsBlock(g, a, i); }
    forall o | 0 <= o <= a'.swOff ensures SwCovered(a', o) { assert SwCovered(a, o); }
    forall k | k in a'.hm ensures LocOk(g, a', k) { assert LocOk(g, a, k); }
  }

  /** A victim without live pages needs no looking at. */
  lemma GcEmptyOk(g: Geo, a: Pic, b: nat, list: seq<Option<Addr>>)
    ensures Inv(g, a) && a.phase.Idle? && a.rwFree == 0 && 1 <= b < g.K && |list| == g.P &&
            |LiveIn(a.hm, b, g.P - 1)| == 0 ==>
              var a' := GcStarted(a, b, list).(phase := Collecting(b, 0, g.P - 1));
              Inv(g, a') && SameView(g, a, a')
  {
    if Inv(g, a) && a.phase.Idle? && a.rwFree == 0 && 1 <= b < g.K && |list| == g.P && |LiveIn(a.hm, b, g.P - 1)| == 0 {
      forall l | l in a.hm ensures a.hm[l].blk != b {
        assert LocOk(g, a, l);
        assert l !in LiveIn(a.hm, b, g.P - 1);
      }
      var a' := GcStarted(a, b, list).(phase := Collecting(b, 0, g.P - 1));
      GcStartedCore(g, a, b, list);
      NoneToSee(g, GcStarted(a, b, list), b);
      forall l ensures NotBehind(g, a', l) { assert NotBehind(g, a, l); }
    }
  }

  lemma IsolClosedOk(g: Geo, a: Pic)
    ensures Inv(g, a) && Cur(g, a).off == g.P - 1 && 2 <= a.isolFree ==>
              && Cur(g, a).blk < g.ISOL == |a.isol| && |a.isol[Cur(g, a).blk]| == |a.isList| == g.P && 0 < g.P
              && BlankFrom(a.isol[Cur(g, a).blk], g.P - 1)
              && Inv(g, IsolClosed(g, a)) && SameView(g, a, IsolClosed(g, a))
  {
    if Inv(g, a) && Cur(g, a).off == g.P - 1 && 2 <= a.isolFree {
      IsolClosedCore(g, a);
      forall k ensures NotBehind(g, IsolClosed(g, a), k) { assert NotBehind(g, a, k); }
    }
  }

  lemma GcEndedOk(g: Geo, a: Pic, nb: Block)
    requires a.phase.Collecting?
    ensures Inv(g, a) && a.phase.o == g.P - 1 && a.phase.f + 1 < g.P
            && |nb| == g.P && BlankFrom(nb, a.phase.f)
            && a.phase.b < |a.log| &&
              (forall q :: 0 <= q < a.phase.f && q < |a.log[a.phase.b]| ==> a.log[a.phase.b][q] == nb[q]) ==>
              && 0 < a.phase.b
              && Inv(g, GcEnded(g, a, nb)) && SameView(g, a, GcEnded(g, a, nb))
  {
    if Inv(g, a) && a.phase.o == g.P - 1 && a.phase.f + 1 < g.P
       && |nb| == g.P && BlankFrom(nb, a.phase.f)
       && a.phase.b < |a.log| &&
         (forall q :: 0 <= q < a.phase.f && q < |a.log[a.phase.b]| ==> a.log[a.phase.b][q] == nb[q])
    {
      GcEndedCore(g, a, nb);
      forall k ensures NotBehind(g, GcEnded(g, a, nb), k) { assert NotBehind(g, a, k); }
    }
  }

  /** While every RW log block is full, the write pointer and the list in memory mean nothing. */
  lemma RwMovedOk(g: Geo, a: Pic, x: Addr, list: seq<Option<Addr>>)
    ensures Inv(g, a) && a.phase.Idle? && a.rwFree == 0 && x.blk < g.K && x.off < g.P && |list| == g.P ==>
              Inv(g, a.(rw := x, rwList := list)) && SameView(g, a, a.(rw := x, rwList := list))
  {
    if Inv(g, a) && a.phase.Idle? && a.rwFree == 0 && x.blk < g.K && x.off < g.P && |list| == g.P {
      RwMovedCore(g, a, x, list);
      forall k ensures NotBehind(g, a.(rw := x, rwList := list), k) { assert NotBehind(g, a, k); }
    }
  }

  /** Closing the current RW log block, whose data pages are all written. */
  lemma RwClosedOk(g: Geo, a: Pic)
    ensures Inv(g, a) && a.phase.Idle? && 0 < a.rwFree && a.rw.off + 2 == g.P ==>
              && a.rw.blk < g.K == |a.log| && Succ(g, a.rw) == Addr(a.rw.blk, g.P - 1) && |a.log[a.rw.blk]| == g.P &&
                |a.rwList| == g.P
              && BlankFrom(a.log[a.rw.blk], g.P - 1)
              && Inv(g, RwClosed(g, a)) && SameView(g, a, RwClosed(g, a))
              && a.rw.blk + a.rwFree <= g.K
  {
    if Inv(g, a) && a.phase.Idle? && 0 < a.rwFree && a.rw.off + 2 == g.P {
      RwClosedCore(g, a);
      forall k ensures NotBehind(g, RwClosed(g, a), k) { assert NotBehind(g, a, k); }
    }
  }

  /** What collecting log block b relies on. */
  lemma VictimFull(g: Geo, a: Pic, b: nat)
    ensures Inv(g, a) && a.phase.Idle? && a.rwFree == 0 && 1 <= b < g.K ==>
              && b < |a.log| && |a.log[b]| == g.P && Closed(a.log[b]) && |a.rwList| == g.P
              && forall l :: l in a.hm && a.hm[l].blk == b ==>
                a.hm[l].off + 1 < g.P && Listed(a.log[b], a.hm[l].off) == Some(l)
  {
    if Inv(g, a) && a.phase.Idle? && a.rwFree == 0 && 1 <= b < g.K {
      assert RwBlock(g, a, b);
      forall l | l in a.hm && a.hm[l].blk == b
        ensures a.hm[l].off + 1 < g.P && Listed(a.log[b], a.hm[l].off) == Some(l) {
        assert LocOk(g, a, l);
      }
    }
  }
}
