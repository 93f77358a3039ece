/** Refilling a table that has just been resized. */
module TableFill {
  import opened Powers
  import opened TableNodes
  import opened TableSizes
  import opened TableMap
  import opened TableSteps
  import opened TableCount
  import opened Sequences

  /** What putting a new key `k` into a free node of table `t` may change. */
  ghost predicate Grown(t: T, b: T, k: Key) {
    && TableValid(b) && SameMap(t, b)
    && b.arr == t.arr && |b.node| == |t.node| && b.dummy == t.dummy
    && NodeKeys(b.node) <= NodeKeys(t.node) + {k}
    && (NoDead(t.node) ==> NoDead(b.node))
  }

  /** The number of nodes of a hash part made for `n` keys. */
  ghost predicate NodeCount(n: nat, nodes: nat) {
    if n == 0 then nodes == 1 else exists l: nat :: IsCeilLog2(n, l) && nodes == Pow2(l)
  }

  ghost predicate Shape(b: T, nasize: nat, nhsize: nat) {
    && TableValid(b) && |b.arr| == nasize && NodeCount(nhsize, |b.node|)
    && (b.dummy <==> nhsize == 0) && NoDead(b.node)
  }

  /** The hash part has a power of two of nodes: the smallest that is enough. */
  lemma NodeCountIs(n: nat, nodes: nat)
    requires NodeCount(n, nodes)
    ensures if n == 0 then nodes == 1 else n <= nodes && nodes / 2 < n && exists l: nat :: nodes == Pow2(l)
  {
    if n > 0 {
      var l: nat :| IsCeilLog2(n, l) && nodes == Pow2(l);
    }
  }

  /** `b` is table `o` resized: it stands for the same map, and its nodes hold only keys that have a
      value in `o` and do not fit in the array part. */
  ghost predicate Resized(o: T, b: T, nasize: nat, nhsize: nat) {
    && Shape(b, nasize, nhsize) && SameMap(o, b)
    && NodeKeys(b.node) <= HashBound(LiveKeys(o), nasize)
  }

  /** The entries of table `o` with keys in `P` have been put in table `b`. */
  ghost predicate Filling(o: T, b: T, P: set<Key>, nasize: nat, nhsize: nat) {
    && Shape(b, nasize, nhsize)
    && NodeKeys(b.node) <= HashBound(LiveKeys(o), nasize)
    && forall q :: Get(b, q) == if q in P then Get(o, q) else Nil
  }

  /** The integer keys up to `n`. */
  ghost function Ints(n: nat): set<Key> {
    set i: int64 | 1 <= i <= n && i <= MAXASIZE :: Int(i)
  }

  /** The array part after its size has been set to `n`. */
  function ArrayOf(arr: seq<Val>, n: nat): (r: seq<Val>)
    ensures |r| == n && forall i :: 0 <= i < n ==> r[i] == if i < |arr| then arr[i] else Nil
  {
    if n <= |arr| then arr[..n] else arr + Times(n - |arr|, Nil)
  }

  lemma FillStart(o: T, b: T, nasize: nat, nhsize: nat)
    requires TableValid(o) && nasize <= MAXASIZE && b.arr == ArrayOf(o.arr, nasize)
    requires b.node == Times(|b.node|, EMPTY) && NodeCount(nhsize, |b.node|)
    requires (b.dummy <==> nhsize == 0) && |b.node| <= MAXNODES
    requires b.lastfree == if b.dummy then 0 else |b.node|
    ensures Filling(o, b, Ints(if nasize < |o.arr| then nasize else |o.arr|), nasize, nhsize)
  {
    hide Valid, LiveFirst, IsCeilLog2;
    var m := if nasize < |o.arr| then nasize else |o.arr|;
    if |b.node| > 0 {
      FreshNodes(|b.node|);
    }
    assert SizeOk(|b.node|) by {
      assert Pow2(0) == 1;
    }
    forall q
      ensures Get(b, q) == if q in Ints(m) then Get(o, q) else Nil
    {
      IntsHas(m, q);
      if InArray(b, q) {
        assert b.arr[q.i - 1] == if q.i - 1 < |o.arr| then o.arr[q.i - 1] else Nil;
      }
    }
  }

  lemma IntsHas(n: nat, q: Key)
    ensures q in Ints(n) <==> q.Int? && 1 <= q.i <= n && q.i <= MAXASIZE
  {
  }

  /** Putting one more entry in. */
  lemma FillStep(o: T, b: T, P: set<Key>, nasize: nat, nhsize: nat, b1: T, cell: Cell, k: Key, v: Val)
    requires Filling(o, b, P, nasize, nhsize) && k in LiveKeys(o) && v == Get(o, k)
    requires Grown(b, b1, k) && CellFor(b1, cell, k)
    ensures Filling(o, Stored(b1, cell, v), P + {k}, nasize, nhsize)
  {
    var c := Stored(b1, cell, v);
    StoreValid(b1, cell, k, v);
    forall q
      ensures Get(c, q) == if q in P + {k} then Get(o, q) else Nil
    {
      StoreGet(b1, cell, k, v, q);
      assert Get(b1, q) == Get(b, q);
    }
    FillKeys(o, b, P, nasize, nhsize, b1, k);
    hide TableValid, NodeKeys, NoDead, Get, LiveKeys, HashBound, SetVal;
  }

  lemma FillKeys(o: T, b: T, P: set<Key>, nasize: nat, nhsize: nat, b1: T, k: Key)
    requires Filling(o, b, P, nasize, nhsize) && k in LiveKeys(o) && Grown(b, b1, k)
    ensures NodeKeys(b1.node) <= HashBound(LiveKeys(o), nasize)
  {
    hide Valid, LiveFirst, LiveKeys, Get;
    if k !in HashBound(LiveKeys(o), nasize) {
      assert InArray(b1, k);
      assert k !in NodeKeys(b1.node);
    }
  }

  /** There is room for every key that is still to be put in. */
  lemma FillRoom(o: T, b: T, P: set<Key>, nasize: nat, nhsize: nat, k: Key)
    requires Filling(o, b, P, nasize, nhsize) && k in LiveKeys(o) && |HashBound(LiveKeys(o), nasize)| <= nhsize
    ensures Absent(b, k) ==> HasFree(b)
  {
    hide TableValid, LiveKeys, Get, HasKey, NodeKeys;
    if Absent(b, k) {
      RoomFor(b, nasize, nhsize, HashBound(LiveKeys(o), nasize), k);
    }
  }

  lemma RoomFor(b: T, nasize: nat, nhsize: nat, B: set<Key>, k: Key)
    requires Shape(b, nasize, nhsize) && NodeKeys(b.node) <= B && k in B && !HasKey(b.node, k) && |B| <= nhsize
    ensures HasFree(b)
  {
    hide Threaded, Homed, LiveFirst, NodeKeys, HasKey;
    SubsetSize({k}, B);
    var l: nat :| IsCeilLog2(nhsize, l) && |b.node| == Pow2(l);
    NotNodeKey(b.node, k);
    Room(b.node, B - {k});
  }

  lemma NotNodeKey(ns: seq<Node>, k: Key)
    requires !HasKey(ns, k)
    ensures k !in NodeKeys(ns)
  {
  }

  lemma FillEnd(o: T, b: T, P: set<Key>, nasize: nat, nhsize: nat)
    requires TableValid(o) && Filling(o, b, P, nasize, nhsize) && LiveKeys(o) <= P
    ensures Resized(o, b, nasize, nhsize)
  {
    hide TableValid, Get, LiveKeys;
    forall q
      ensures Get(o, q) == Get(b, q)
    {
      LiveKeysAre(o, q);
    }
  }

  lemma ArrayLive(o: T, i: nat)
    requires TableValid(o) && i < |o.arr| && o.arr[i] != Nil
    ensures i < MAXASIZE && Int(i + 1) in LiveKeys(o) && Get(o, Int(i + 1)) == o.arr[i]
  {
    hide Valid, LiveFirst;
  }

  lemma NodeLiveGet(o: T, i: nat)
    requires TableValid(o) && i < |o.node| && o.node[i].val != Nil
    ensures o.node[i].key.Live? && o.node[i].key.k in LiveKeys(o) && Get(o, o.node[i].key.k) == o.node[i].val
  {
    hide LiveFirst, Threaded, Homed;
    HashGetAt(o.node, i, o.node[i].key.k);
    assert o.node[i].key.k in NodeLive(o.node, 0);
  }

  /** `P` has all keys with a value but those in array slots from `i` on and in nodes below `j`. */
  ghost predicate Covered(o: T, P: set<Key>, i: nat, j: nat) {
    && (forall x :: 0 <= x < |o.arr| && x < i && x < MAXASIZE && o.arr[x] != Nil ==> Int(x + 1) in P)
    && NodeLive(o.node, j) <= P
  }

  lemma CoveredAll(o: T, P: set<Key>, i: nat)
    requires Covered(o, P, i, 0) && i >= |o.arr|
    ensures LiveKeys(o) <= P
  {
    assert ArrayKeys(o.arr) <= P;
  }

  /** Array slot `i` is done: if it has a value, its key is now in `P`. */
  lemma CoveredSlot(o: T, P: set<Key>, Q: set<Key>, i: nat, j: nat)
    requires Covered(o, P, i, j) && i < |o.arr| && P <= Q
    requires i < MAXASIZE && o.arr[i] != Nil ==> Int(i + 1) in Q
    ensures Covered(o, Q, i + 1, j)
  {
  }

  lemma CoveredNode(o: T, P: set<Key>, Q: set<Key>, i: nat, j: nat)
    requires Covered(o, P, i, j + 1) && j < |o.node| && P <= Q
    requires o.node[j].val != Nil && o.node[j].key.Live? ==> o.node[j].key.k in Q
    ensures Covered(o, Q, i, j)
  {
    forall q | q in NodeLive(o.node, j)
      ensures q in Q
    {
      var x :| j <= x < |o.node| && o.node[x].val != Nil && o.node[x].key.Live? && o.node[x].key.k == q;
      if x != j {
        assert q in NodeLive(o.node, j + 1);
      }
    }
  }

  // ---------- glue for insertion ----------

  lemma InsertedGrown(t: T, u: T, b: T, p: nat, k: Key)
    requires Inserted(u, b, p, k) && u == t.(lastfree := u.lastfree) && !t.dummy
    ensures Grown(t, b, k)
  {
    hide TableValid, HasKey, NodeKeys, NoDead, HashGet;
    forall q
      ensures Get(t, q) == Get(b, q)
    {
      assert Get(u, q) == Get(b, q);
    }
  }

  lemma GrownSelf(t: T, k: Key)
    requires TableValid(t)
    ensures Grown(t, t, k)
  {
    hide TableValid, Get;
  }

  lemma SameMapTrans(a: T, b: T, c: T)
    requires SameMap(a, b) && SameMap(b, c)
    ensures SameMap(a, c)
  {
    hide Get;
    forall k
      ensures Get(a, k) == Get(c, k)
    {
      assert Get(a, k) == Get(b, k);
    }
  }

  /** 1 if inserting key `k` may need a rehash. */
  ghost function Rank(t: T, k: Key): nat {
    if HasFree(t) || !Absent(t, k) then 0 else 1
  }

  /** A node without a value is free to be taken; one with a value has a live key. */
  lemma MainNode(t: T, k: Key)
    requires TableValid(t)
    ensures var mp := MainPosition(k, |t.node|);
      mp < |t.node| && (t.node[mp].val != Nil ==> t.node[mp].key.Live?)
  {
    hide Valid, LiveFirst;
  }

  lemma FreeNode(t: T, f: nat)
    requires FreeAt(t, f)
    ensures t.node[f] == EMPTY && Threaded(t.node) && Valid(t.node)
  {
    hide LiveFirst;
    assert LinkOk(t.node, f);
  }

  /** The node that collides is out of its main position: the chain of that position leads to it. */
  lemma Colliding(ns: seq<Node>, mp: nat)
    requires Valid(ns) && Keyed(ns, mp)
    ensures Reaches(ns, Home(ns, mp), mp)
  {
    assert AtHome(ns, mp);
  }

  /** Whatever the main position, inserting a key that is absent ends in one of the three cases. */
  lemma Rehashed1(o: T, b: T, ek: Key, asize: nat, nhsize: nat, K: set<Key>)
    requires TableValid(o) && Absent(o, ek) && K == LiveKeys(o) + {ek} && asize <= MAXASIZE
    requires Resized(o, b, asize, nhsize) && |HashBound(K, asize)| == nhsize
    ensures Rank(b, ek) == 0
  {
    hide TableValid, LiveKeys, HasKey, NodeKeys;
    if Absent(b, ek) {
      assert ek in HashBound(K, asize);
      RoomFor(b, asize, nhsize, HashBound(K, asize), ek);
    }
  }

  lemma AbsentDead(o: T, ek: Key)
    requires TableValid(o) && Absent(o, ek)
    ensures ek !in LiveKeys(o)
  {
    hide TableValid, LiveKeys;
    LiveKeysAre(o, ek);
  }

  /** The sizes that a rehash computes. */
  lemma SizesFit(o: T, ek: Key, asize: nat, na: nat)
    requires TableValid(o) && Absent(o, ek) && asize <= MAXASIZE
    requires na == |UpTo(Candidates(LiveKeys(o) + {ek}), asize)|
    ensures na <= |LiveKeys(o)| + 1
    ensures |HashBound(LiveKeys(o) + {ek}, asize)| == |LiveKeys(o)| + 1 - na
    ensures |HashBound(LiveKeys(o), asize)| <= |LiveKeys(o)| + 1 - na
  {
    hide TableValid, Absent, LiveKeys;
    var K := LiveKeys(o) + {ek};
    AbsentDead(o, ek);
    Split(K, asize);
    SubsetSize(HashBound(LiveKeys(o), asize), HashBound(K, asize));
  }

  lemma FewCandidates(o: T, ek: Key)
    requires TableValid(o) && Absent(o, ek)
    ensures |Candidates(LiveKeys(o) + {ek})| <= |LiveKeys(o)| + 1
  {
    hide TableValid, LiveKeys, Absent;
    var K := LiveKeys(o) + {ek};
    Split(K, MAXASIZE);
    assert UpTo(Candidates(K), MAXASIZE) == Candidates(K);
  }
}
