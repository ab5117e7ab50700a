/** Why the static node array of the hash table never overflows: live entries have distinct log addresses. */
module FasterCapacity {
  import opened Common
  import opened Nand
  import opened FasterState

  function Capacity(g: Geo): nat { (g.LOG + g.ISOL) * g.P }

  /** The addresses of block b below page n, and of all blocks below B. */
  ghost function Row(b: nat, n: nat): (r: set<Addr>)
    ensures forall x :: x in r <==> x.blk == b && x.off < n
    ensures |r| == n
  {
    if n == 0 then {} else Row(b, n - 1) + {Addr(b, n - 1)}
  }

  ghost function Grid(B: nat, P: nat): (r: set<Addr>)
    ensures forall x :: x in r <==> x.blk < B && x.off < P
    ensures |r| == B * P
  {
    if B == 0 then {}
    else
      assert Grid(B - 1, P) !! Row(B - 1, P);
      assert (B - 1) * P + P == B * P;
      Grid(B - 1, P) + Row(B - 1, P)
  }

  lemma {:induction false} InjectiveSize(m: map<Addr, Addr>)
    requires forall k, l :: k in m && l in m && m[k] == m[l] ==> k == l
    ensures |m.Values| == |m|
  {
    if m != map[] {
      var k :| k in m;
      var m' := m - {k};
      InjectiveSize(m');
      forall v ensures v in m.Values <==> v in m'.Values + {m[k]} {
        if v in m.Values {
          var j :| j in m && m[j] == v;
          assert j != k ==> j in m' && m'[j] == v;
        }
      }
      assert m.Values == m'.Values + {m[k]};
      assert m[k] !in m'.Values;
    }
  }

  /** Distinct lpns have distinct log addresses, since an lpn list names one lpn per page. */
  lemma DistinctLogLpns(g: Geo, a: Pic)
    requires Core(g, a)
    ensures forall k, l :: k in a.hm && l in a.hm && a.hm[k] == a.hm[l] ==> k == l
    ensures forall k :: k in a.hm ==> a.hm[k].blk < g.LOG + g.ISOL && a.hm[k].off < g.P
  {
    forall k, l | k in a.hm && l in a.hm && a.hm[k] == a.hm[l] ensures k == l {
      assert LocOk(g, a, k) && LocOk(g, a, l);
    }
    forall k | k in a.hm ensures a.hm[k].blk < g.LOG + g.ISOL && a.hm[k].off < g.P {
      assert LocOk(g, a, k);
    }
  }

  /** While some log address is unused, the table has room for one more entry. */
  lemma HashRoom(g: Geo, a: Pic, x: Addr)
    requires Core(g, a) && x.blk < g.LOG + g.ISOL && x.off < g.P
    requires forall l :: l in a.hm ==> a.hm[l] != x
    ensures |a.hm| < Capacity(g)
  {
    DistinctLogLpns(g, a);
    Pigeonhole(a.hm, g.LOG + g.ISOL, g.P, x);
  }

  lemma Pigeonhole(m: map<Addr, Addr>, B: nat, P: nat, x: Addr)
    requires forall k, l :: k in m && l in m && m[k] == m[l] ==> k == l
    requires forall k :: k in m ==> m[k].blk < B && m[k].off < P && m[k] != x
    requires x.blk < B && x.off < P
    ensures |m| < B * P
  {
    InjectiveSize(m);
    SubsetSize(m.Values, Grid(B, P) - {x});
  }
}
