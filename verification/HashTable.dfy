/**
 The lightweight static hash table (target_spw/shashtbl.c): chained nodes carved
 from a fixed array, removed nodes kept on a free pool.  The hash function
 is a parameter, so what is proved holds for every hash function.
 */
module StaticHashTable {
  import opened Common

  const NIL := -1

  /**
   The hash function, tabulated over the lpns: any function will do.  An lpn outside the
   table falls into bucket 0.
   */
  datatype HashFn = HashFn(rows: seq<seq<nat>>)

  /** hashfunc_RJ(key) % HASH_BUCKET_SIZE, for some function in place of hashfunc_RJ. */
  function BucketOf(hash: HashFn, buckets: nat, k: Addr): (b: nat)
    requires 0 < buckets
    ensures b < buckets
  {
    if k.blk < |hash.rows| && k.off < |hash.rows[k.blk]| && hash.rows[k.blk][k.off] < buckets
    then hash.rows[k.blk][k.off] else 0
  }

  datatype Node = Node(key: Addr, data: Addr, next: int)

  /** Where a node currently hangs, when not in a bucket: in the free pool, or not carved yet. */
  const POOL := -1
  const UNCARVED := -2

  /**
   A picture of the whole table: the node array and bucket heads as they are, and
   beside them the lists they encode and the map they stand for.  Lists are written
   oldest node first, so the head pointer is the last element.
   */
  datatype Shape = Shape(
    hash: HashFn,
    ns: seq<Node>,
    hs: seq<int>,
    free: int,
    pool: seq<int>,          // the free pool
    chains: seq<seq<int>>,   // the node indices of each bucket
    used: nat,               // the number of nodes carved so far
    place: seq<int>,         // for every node, its bucket, POOL or UNCARVED
    pos: map<Addr, nat>,        // each key's position in its bucket's chain
    m: map<Addr, Addr>)            // the abstract contents

  function Head(s: seq<int>): int {
    if s == [] then NIL else s[|s| - 1]
  }

  function Next(s: seq<int>, i: nat): int
    requires i < |s|
  {
    if i == 0 then NIL else s[i - 1]
  }

  ghost predicate LinkAt(ns: seq<Node>, s: seq<int>, i: int)
    requires 0 <= i < |s| && 0 <= s[i] < |ns|
  {
    ns[s[i]].next == Next(s, i)
  }

  /** s is a list of carved nodes lying in place p, linked from the last to the first. */
  ghost predicate IsList(ns: seq<Node>, place: seq<int>, p: int, s: seq<int>)
  {
    && |place| == |ns|
    && (forall i :: 0 <= i < |s| ==> 0 <= s[i] < |ns| && place[s[i]] == p)
    && (forall i {:trigger LinkAt(ns, s, i)} :: 0 <= i < |s| ==> LinkAt(ns, s, i))
  }

  /** A list survives changes that leave its nodes' places and links alone. */
  lemma ListKept(ns: seq<Node>, ns': seq<Node>, place: seq<int>, place': seq<int>, p: int, s: seq<int>)
    requires IsList(ns, place, p, s)
    requires |place'| == |ns'| == |ns|
    requires forall x :: 0 <= x < |ns| && place[x] == p ==> place'[x] == p && ns'[x].next == ns[x].next
    ensures IsList(ns', place', p, s)
  {
    forall i | 0 <= i < |s|
      ensures LinkAt(ns', s, i)
    {
      assert LinkAt(ns, s, i);
    }
  }

  ghost predicate Distinct(s: seq<int>) {
    forall i, j :: 0 <= i < j < |s| ==> s[i] != s[j]
  }

  /** Pushing a node from another place on the front of a list. */
  lemma ListExtended(ns: seq<Node>, place: seq<int>, p: int, s: seq<int>, n: nat, x: Node)
    requires IsList(ns, place, p, s)
    requires n < |ns| && place[n] != p && x.next == Head(s)
    ensures IsList(ns[n := x], place[n := p], p, s + [n])
  {
    var r, ns' := s + [n], ns[n := x];
    forall i | 0 <= i < |r|
      ensures LinkAt(ns', r, i)
    {
      if i < |s| {
        assert LinkAt(ns, s, i);
      }
    }
  }

  /** Taking the front node off a list and rewriting it for use elsewhere. */
  lemma ListShortened(ns: seq<Node>, place: seq<int>, p: int, s: seq<int>, q: int, x: Node)
    requires IsList(ns, place, p, s) && Distinct(s)
    requires s != [] && q != p
    ensures var n := s[|s| - 1];
            IsList(ns[n := x], place[n := q], p, s[..|s| - 1]) && Head(s[..|s| - 1]) == ns[n].next
  {
    var n := s[|s| - 1];
    var r, ns' := s[..|s| - 1], ns[n := x];
    assert LinkAt(ns, s, |s| - 1);
    forall i | 0 <= i < |r|
      ensures LinkAt(ns', r, i)
    {
      assert LinkAt(ns, s, i);
    }
  }

  /** The node array after node i of list s is unlinked and linked to f instead. */
  ghost function Unlink(ns: seq<Node>, s: seq<int>, i: nat, f: int): seq<Node>
    requires i < |s| && forall j :: 0 <= j < |s| ==> 0 <= s[j] < |ns|
  {
    var n := s[i];
    var ns1 := if i == |s| - 1 then ns else ns[s[i + 1] := ns[s[i + 1]].(next := ns[n].next)];
    ns1[n := ns1[n].(next := f)]
  }

  lemma ListCut(ns: seq<Node>, place: seq<int>, p: int, s: seq<int>, i: nat, f: int, q: int)
    requires IsList(ns, place, p, s) && Distinct(s)
    requires i < |s| && q != p
    ensures IsList(Unlink(ns, s, i, f), place[s[i] := q], p, s[..i] + s[i + 1..])
    ensures Head(s[..i] + s[i + 1..]) == if i == |s| - 1 then ns[s[i]].next else Head(s)
  {
    var r := s[..i] + s[i + 1..];
    assert forall j :: 0 <= j < |r| ==> r[j] == s[if j >= i then j + 1 else j];
    assert LinkAt(ns, s, i);
    var ns' := Unlink(ns, s, i, f);
    forall j | 0 <= j < |r|
      ensures LinkAt(ns', r, j)
    {
      assert LinkAt(ns, s, if j >= i then j + 1 else j);
    }
  }

  /** Node i of bucket b holds a key of that bucket, with the data the map gives that key. */
  ghost predicate HoldsKey(t: Shape, b: int, i: int)
  {
    && 0 <= b < |t.chains| && 0 <= i < |t.chains[b]|
    && 0 <= t.chains[b][i] < |t.ns|
    && var n := t.ns[t.chains[b][i]];
    && n.key in t.m && n.data == t.m[n.key]
    && n.key in t.pos && t.pos[n.key] == i
    && BucketOf(t.hash, |t.chains|, n.key) == b
  }

  /** Key k sits in its own bucket, at the position pos gives. */
  ghost predicate Chained(t: Shape, k: Addr)
  {
    && k in t.pos && 0 < |t.chains|
    && t.pos[k] < |t.chains[BucketOf(t.hash, |t.chains|, k)]|
    && 0 <= t.chains[BucketOf(t.hash, |t.chains|, k)][t.pos[k]] < |t.ns|
    && t.ns[t.chains[BucketOf(t.hash, |t.chains|, k)][t.pos[k]]].key == k
  }

  ghost predicate Ok(t: Shape)
  {
    && 0 < |t.hs| == |t.chains|
    && (forall b {:trigger IsList(t.ns, t.place, b, t.chains[b])} ::
          0 <= b < |t.chains| ==> IsList(t.ns, t.place, b, t.chains[b]))
    && (forall b {:trigger t.hs[b]} :: 0 <= b < |t.chains| ==> t.hs[b] == Head(t.chains[b]))
    && IsList(t.ns, t.place, POOL, t.pool) && t.free == Head(t.pool)
    && Distinct(t.pool)
    && (forall b, i {:trigger HoldsKey(t, b, i)} ::
          0 <= b < |t.chains| && 0 <= i < |t.chains[b]| ==> HoldsKey(t, b, i))
    && (forall k {:trigger Chained(t, k)} :: k in t.m ==> Chained(t, k))
    && t.pos.Keys == t.m.Keys
    && t.used <= |t.ns| == |t.place|
    && (forall i :: t.used <= i < |t.ns| ==> t.place[i] == UNCARVED)
    // nodes carved = live entries + pooled nodes
    && t.used == |t.m| + |t.pool|
  }

  /** The picture after pushing (k, d) in node n on the front of bucket b. */
  ghost function Pushed(t: Shape, b: nat, n: nat, k: Addr, d: Addr): Shape
    requires b < |t.hs| == |t.chains| && n < |t.ns| == |t.place|
  {
    t.(ns := t.ns[n := Node(k, d, t.hs[b])],
       hs := t.hs[b := n],
       free := if t.pool == [] then NIL else t.ns[n].next,
       chains := t.chains[b := t.chains[b] + [n]],
       pool := if t.pool == [] then [] else t.pool[..|t.pool| - 1],
       used := if t.pool == [] then t.used + 1 else t.used,
       place := t.place[n := b],
       pos := t.pos[k := |t.chains[b]|],
       m := t.m[k := d])
  }

  /** Which node a push takes: the pool's head, or the next uncarved node. */
  ghost predicate PushTakes(t: Shape, n: nat, k: Addr)
  {
    && Ok(t) && k !in t.m
    && n < |t.ns|
    && n == if t.pool == [] then t.used else t.free
  }

  /** While there are fewer entries than nodes, a node can be had. */
  lemma PushRoom(t: Shape, k: Addr)
    requires Ok(t) && k !in t.m && |t.m| < |t.ns|
    ensures (t.free == NIL) == (t.pool == [])
    ensures t.pool != [] ==> 0 <= t.free < |t.ns|
    ensures PushTakes(t, if t.free == NIL then t.used else t.free, k)
  {
  }

  lemma PushedOk(t: Shape, n: nat, k: Addr, d: Addr)
    requires PushTakes(t, n, k)
    ensures Ok(Pushed(t, BucketOf(t.hash, |t.chains|, k), n, k, d))
  {
    PushedLists(t, n, k, d);
    PushedKeys(t, n, k, d);
  }

  lemma PushedKeys(t: Shape, n: nat, k: Addr, d: Addr)
    requires PushTakes(t, n, k)
    requires var u := Pushed(t, BucketOf(t.hash, |t.chains|, k), n, k, d);
             forall c :: 0 <= c < |u.chains| ==> IsList(u.ns, u.place, c, u.chains[c])
    ensures var u := Pushed(t, BucketOf(t.hash, |t.chains|, k), n, k, d);
            && (forall b, i {:trigger HoldsKey(u, b, i)} ::
                  0 <= b < |u.chains| && 0 <= i < |u.chains[b]| ==> HoldsKey(u, b, i))
            && (forall x {:trigger Chained(u, x)} :: x in u.m ==> Chained(u, x))
  {
    var u := Pushed(t, BucketOf(t.hash, |t.chains|, k), n, k, d);
    forall c, i | 0 <= c < |u.chains| && 0 <= i < |u.chains[c]|
      ensures HoldsKey(u, c, i)
    {
      PushedHolds(t, n, k, d, c, i);
    }
    forall x | x in u.m
      ensures Chained(u, x)
    {
      if x != k {
        assert Chained(t, x);
        PushedHolds(t, n, k, d, BucketOf(t.hash, |t.chains|, x), t.pos[x]);
      } else {
        PushedHolds(t, n, k, d, BucketOf(t.hash, |t.chains|, k), |t.chains[BucketOf(t.hash, |t.chains|, k)]|);
      }
    }
  }

  lemma PushedHolds(t: Shape, n: nat, k: Addr, d: Addr, c: nat, i: nat)
    requires PushTakes(t, n, k)
    requires var u := Pushed(t, BucketOf(t.hash, |t.chains|, k), n, k, d);
             c < |u.chains| && i < |u.chains[c]| && IsList(u.ns, u.place, c, u.chains[c])
    ensures HoldsKey(Pushed(t, BucketOf(t.hash, |t.chains|, k), n, k, d), c, i)
  {
    assert IsList(t.ns, t.place, c, t.chains[c]);
    if i < |t.chains[c]| {
      assert HoldsKey(t, c, i);
    }
  }

  lemma PushedLists(t: Shape, n: nat, k: Addr, d: Addr)
    requires PushTakes(t, n, k)
    ensures var u := Pushed(t, BucketOf(t.hash, |t.chains|, k), n, k, d);
            && (forall c :: 0 <= c < |u.chains| ==> IsList(u.ns, u.place, c, u.chains[c]))
            && IsList(u.ns, u.place, POOL, u.pool) && u.free == Head(u.pool)
  {
    var b := BucketOf(t.hash, |t.chains|, k);
    var u := Pushed(t, b, n, k, d);
    var x := Node(k, d, t.hs[b]);
    forall c | 0 <= c < |u.chains|
      ensures IsList(u.ns, u.place, c, u.chains[c])
    {
      if c == b {
        ListExtended(t.ns, t.place, b, t.chains[b], n, x);
      } else {
        ListKept(t.ns, u.ns, t.place, u.place, c, t.chains[c]);
      }
    }
    PushedPool(t, n, k, d);
  }

  lemma PushedPool(t: Shape, n: nat, k: Addr, d: Addr)
    requires PushTakes(t, n, k)
    ensures var u := Pushed(t, BucketOf(t.hash, |t.chains|, k), n, k, d);
            IsList(u.ns, u.place, POOL, u.pool) && u.free == Head(u.pool)
  {
    var b := BucketOf(t.hash, |t.chains|, k);
    var u := Pushed(t, b, n, k, d);
    if t.pool == [] {
      ListKept(t.ns, u.ns, t.place, u.place, POOL, t.pool);
    } else {
      ListShortened(t.ns, t.place, POOL, t.pool, b, Node(k, d, t.hs[b]));
    }
  }

  /** The picture after unlinking node i of bucket b and pooling it. */
  ghost function Popped(t: Shape, b: nat, i: nat): Shape
    requires b < |t.hs| == |t.chains| && i < |t.chains[b]|
    requires IsList(t.ns, t.place, b, t.chains[b])
  {
    var c := t.chains[b];
    var n := c[i];
    var k := t.ns[n].key;
    t.(ns := Unlink(t.ns, c, i, t.free),
       hs := if i == |c| - 1 then t.hs[b := t.ns[n].next] else t.hs,
       free := n,
       chains := t.chains[b := c[..i] + c[i + 1..]],
       pool := t.pool + [n],
       place := t.place[n := POOL],
       pos := map x | x in t.pos && x != k :: if BucketOf(t.hash, |t.chains|, x) == b &&
         t.pos[x] > i then t.pos[x] - 1 else t.pos[x],
       m := t.m - {k})
  }

  /** A chain has no node twice, since its nodes hold keys at distinct positions. */
  lemma ChainDistinct(t: Shape, b: nat)
    requires Ok(t) && b < |t.hs|
    ensures Distinct(t.chains[b])
  {
    assert IsList(t.ns, t.place, b, t.chains[b]);
    forall i, j | 0 <= i < j < |t.chains[b]|
      ensures t.chains[b][i] != t.chains[b][j]
    {
      assert HoldsKey(t, b, i) && HoldsKey(t, b, j);
    }
  }

  /** Popping, in terms of the node and the one before it in the array. */
  lemma PoppedParts(t: Shape, b: nat, i: nat, prev: int)
    requires Ok(t) && b < |t.hs| && i < |t.chains[b]|
    requires prev == if i == |t.chains[b]| - 1 then NIL else t.chains[b][i + 1]
    ensures var n := t.chains[b][i];
            && IsList(t.ns, t.place, b, t.chains[b]) && 0 <= n < |t.ns| && (prev == NIL || 0 <= prev < |t.ns|)
            && var u := Popped(t, b, i);
               var ns := if prev == NIL then t.ns else t.ns[prev := t.ns[prev].(next := t.ns[n].next)];
               && u.ns == ns[n := ns[n].(next := t.free)]
               && u.hs == (if prev == NIL then t.hs[b := t.ns[n].next] else t.hs)
               && u.hash == t.hash && u.free == n && u.used == t.used
    ensures i < |t.chains[b]| ==> Popped(t, b, i).m == t.m - {t.ns[t.chains[b][i]].key}
  {
    assert IsList(t.ns, t.place, b, t.chains[b]);
  }

  lemma PoppedOk(t: Shape, b: nat, i: nat)
    requires Ok(t) && b < |t.hs| && i < |t.chains[b]|
    ensures IsList(t.ns, t.place, b, t.chains[b])
    ensures Ok(Popped(t, b, i))
  {
    assert HoldsKey(t, b, i) && IsList(t.ns, t.place, b, t.chains[b]);
    var u := Popped(t, b, i);
    PoppedLists(t, b, i);
    PoppedKeys(t, b, i);
  }

  lemma PoppedKeys(t: Shape, b: nat, i: nat)
    requires Ok(t) && b < |t.hs| && i < |t.chains[b]|
    requires IsList(t.ns, t.place, b, t.chains[b])
    requires var u := Popped(t, b, i);
             forall c :: 0 <= c < |u.chains| ==> IsList(u.ns, u.place, c, u.chains[c])
    ensures var u := Popped(t, b, i);
            && (forall c, j {:trigger HoldsKey(u, c, j)} ::
                  0 <= c < |u.chains| && 0 <= j < |u.chains[c]| ==> HoldsKey(u, c, j))
            && (forall x {:trigger Chained(u, x)} :: x in u.m ==> Chained(u, x))
  {
    var u := Popped(t, b, i);
    forall c, j | 0 <= c < |u.chains| && 0 <= j < |u.chains[c]|
      ensures HoldsKey(u, c, j)
    {
      PoppedHolds(t, b, i, c, j);
    }
    forall x | x in u.m
      ensures Chained(u, x)
    {
      PoppedChained(t, b, i, x);
    }
  }

  lemma PoppedHolds(t: Shape, b: nat, i: nat, c: nat, j: nat)
    requires Ok(t) && b < |t.hs| && i < |t.chains[b]|
    requires IsList(t.ns, t.place, b, t.chains[b])
    requires var u := Popped(t, b, i);
             c < |u.chains| && j < |u.chains[c]| && 0 <= u.chains[c][j] < |t.ns|
    ensures HoldsKey(Popped(t, b, i), c, j)
  {
    assert HoldsKey(t, b, i);
    SameContents(t.ns, t.chains[b], i, t.free);
    assert HoldsKey(t, c, if c == b && j >= i then j + 1 else j);
  }

  lemma PoppedChained(t: Shape, b: nat, i: nat, x: Addr)
    requires Ok(t) && b < |t.hs| && i < |t.chains[b]|
    requires IsList(t.ns, t.place, b, t.chains[b])
    requires x in t.m && x != t.ns[t.chains[b][i]].key
    ensures Chained(Popped(t, b, i), x)
  {
    SameContents(t.ns, t.chains[b], i, t.free);
    assert Chained(t, x);
  }

  lemma SameContents(ns: seq<Node>, s: seq<int>, i: nat, f: int)
    requires i < |s| && forall j :: 0 <= j < |s| ==> 0 <= s[j] < |ns|
    ensures forall x :: 0 <= x < |ns| ==>
              Unlink(ns, s, i, f)[x].key == ns[x].key && Unlink(ns, s, i, f)[x].data == ns[x].data
  {
  }

  lemma PoppedLists(t: Shape, b: nat, i: nat)
    requires Ok(t) && b < |t.hs| && i < |t.chains[b]|
    requires IsList(t.ns, t.place, b, t.chains[b])
    ensures var u := Popped(t, b, i);
            && (forall c :: 0 <= c < |u.chains| ==>
              IsList(u.ns, u.place, c, u.chains[c]) && u.hs[c] == Head(u.chains[c]))
            && IsList(u.ns, u.place, POOL, u.pool) && Distinct(u.pool)
  {
    var u := Popped(t, b, i);
    var n := t.chains[b][i];
    ChainDistinct(t, b);
    forall c | 0 <= c < |u.chains|
      ensures IsList(u.ns, u.place, c, u.chains[c]) && u.hs[c] == Head(u.chains[c])
    {
      if c == b {
        ListCut(t.ns, t.place, b, t.chains[b], i, t.free, POOL);
      } else {
        ListKept(t.ns, u.ns, t.place, u.place, c, t.chains[c]);
      }
    }
    ListExtended(t.ns, t.place, POOL, t.pool, n, t.ns[n].(next := t.free));
    ListKept(t.ns[n := t.ns[n].(next := t.free)], u.ns, u.place, u.place, POOL, u.pool);
  }

  /** The picture after giving node n, which holds k, new data. */
  ghost function Rewritten(t: Shape, k: Addr, n: nat, d: Addr): Shape
    requires n < |t.ns|
  {
    t.(ns := t.ns[n := t.ns[n].(data := d)], m := t.m[k := d])
  }

  lemma RewrittenOk(t: Shape, k: Addr, n: nat, d: Addr)
    requires Ok(t) && k in t.m && n < |t.ns|
    requires Chained(t, k) && n == t.chains[BucketOf(t.hash, |t.chains|, k)][t.pos[k]]
    ensures Ok(Rewritten(t, k, n, d))
  {
    var u := Rewritten(t, k, n, d);
    assert IsList(t.ns, t.place, BucketOf(t.hash, |t.chains|, k), t.chains[BucketOf(t.hash, |t.chains|, k)]);
    forall c | 0 <= c < |u.chains|
      ensures IsList(u.ns, u.place, c, u.chains[c])
    {
      ListKept(t.ns, u.ns, t.place, u.place, c, t.chains[c]);
    }
    ListKept(t.ns, u.ns, t.place, u.place, POOL, t.pool);
    forall c, j | 0 <= c < |u.chains| && 0 <= j < |u.chains[c]|
      ensures HoldsKey(u, c, j)
    {
      assert HoldsKey(t, c, j) && HoldsKey(t, BucketOf(t.hash, |t.chains|, k), t.pos[k]);
    }
    forall x | x in u.m
      ensures Chained(u, x)
    {
      assert Chained(t, x);
    }
  }

  /** The pictures that are in order. */
  type Table = t: Shape | Ok(t)
    witness Shape(HashFn([]), [], [NIL], NIL, [], [[]], 0, [], map[], map[])

  class HashTable {
    const hash: HashFn
    const nodes: array<Node>
    const heads: array<int>
    var numElmts: nat
    var freePool: int

    ghost var m: map<Addr, Addr> // the abstract contents
    ghost var t: Table           // what the arrays encode

    ghost predicate Valid()
      reads this, nodes, heads
    {
      && t.hash == hash && t.ns == nodes[..] && t.hs == heads[..]
      && t.free == freePool && t.used == numElmts && t.m == m
    }

    constructor (hash: HashFn, buckets: nat, capacity: nat, zero: Node)
      requires 0 < buckets
      ensures Valid() && m == map[] && nodes.Length == capacity
      ensures fresh(nodes) && fresh(heads)
      ensures this.hash == hash
    {
      this.hash := hash;
      nodes := new Node[capacity](_ => zero);
      heads := new int[buckets](_ => NIL);
      numElmts, freePool := 0, NIL;
      m := map[];
      new;
      t := Shape(hash, nodes[..], heads[..], NIL, [], seq(buckets, _ => []), 0, seq(capacity, _ => UNCARVED), map[],
        map[]);
    }

    method Get(k: Addr) returns (r: Option<Addr>)
      requires Valid()
      ensures r == if k in m then Some(m[k]) else None
    {
      var b := BucketOf(hash, heads.Length, k);
      ghost var c := t.chains[b];
      ghost var i := |c|;
      assert t.hs[b] == Head(c);
      assert IsList(t.ns, t.place, b, c);
      var node := heads[b];
      while node != NIL
        invariant 0 <= i <= |c|
        invariant node == if i == 0 then NIL else c[i - 1]
        invariant forall j :: i <= j < |c| ==> t.ns[c[j]].key != k
        decreases i
      {
        i := i - 1;
        assert HoldsKey(t, b, i);
        assert LinkAt(t.ns, c, i);
        if nodes[node].key == k {
          return Some(nodes[node].data);
        }
        node := nodes[node].next;
      }
      assert k in m ==> Chained(t, k);
      return None;
    }

    /** The new entry goes to the front of its bucket, in a pooled node or else the next one of the array. */
    method Insert(k: Addr, d: Addr)
      requires Valid() && k !in m
      requires |m| < nodes.Length
      modifies this, nodes, heads
      ensures Valid() && m == old(m)[k := d]
    {
      PushRoom(t, k);
      var b := BucketOf(hash, heads.Length, k);
      var n: nat;
      if freePool == NIL {
        n := numElmts;
        numElmts := numElmts + 1;
      } else {
        n := freePool;
        freePool := nodes[n].next;
      }
      PushedOk(t, n, k, d);
      nodes[n] := Node(k, d, heads[b]);
      heads[b] := n;
      m := m[k := d];
      t := Pushed(t, b, n, k, d);
    }

    /** The node of k is unlinked and pushed on the free pool. */
    method Remove(k: Addr)
      requires Valid() && k in m
      modifies this, nodes, heads
      ensures Valid() && m == old(m) - {k}
    {
      hide Ok, Popped, Unlink, IsList;
      var prev, node := FindNode(k);
      var b := BucketOf(hash, heads.Length, k);
      PoppedOk(t, b, t.pos[k]);
      PoppedParts(t, b, t.pos[k], prev);
      var next := nodes[node].next;
      if prev != NIL {
        nodes[prev] := nodes[prev].(next := next);
      } else {
        heads[b] := next;
      }
      nodes[node] := nodes[node].(next := freePool);
      freePool := node;
      m := m - {k};
      t := Popped(t, b, t.pos[k]);
    }

    /** The search loop that remove and update share; ends at the node holding k. */
    method FindNode(k: Addr) returns (prev: int, node: int)
      requires Valid() && k in m
      ensures 0 < heads.Length == |t.chains| && Chained(t, k)
      ensures var c, p := t.chains[BucketOf(hash, heads.Length, k)], t.pos[k];
              && p < |c| && t.ns[c[p]].key == k
              && 0 <= node < nodes.Length && node == c[p]
              && prev == (if p == |c| - 1 then NIL else c[p + 1])
              && (prev == NIL || 0 <= prev < nodes.Length)
    {
      var b := BucketOf(hash, heads.Length, k);
      ghost var c := t.chains[b];
      ghost var i := |c| - 1;
      assert Chained(t, k);
      assert t.hs[b] == Head(c);
      assert IsList(t.ns, t.place, b, c);
      prev, node := NIL, heads[b];
      while nodes[node].key != k
        invariant t.pos[k] <= i < |c|
        invariant node == c[i] && 0 <= node < nodes.Length
        invariant prev == if i == |c| - 1 then NIL else c[i + 1]
        invariant prev == NIL || 0 <= prev < nodes.Length
        decreases i
      {
        assert LinkAt(t.ns, c, i);
        prev := node;
        node := nodes[node].next;
        i := i - 1;
      }
      assert HoldsKey(t, b, i);
    }

    method Update(k: Addr, d: Addr)
      requires Valid() && k in m
      modifies this, nodes
      ensures Valid() && m == old(m)[k := d]
    {
      var prev, node := FindNode(k);
      RewrittenOk(t, k, node, d);
      nodes[node] := nodes[node].(data := d);
      m := m[k := d];
      t := Rewritten(t, k, node, d);
    }
  }
}
