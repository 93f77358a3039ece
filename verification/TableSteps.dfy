/** What the steps of table insertion keep. */
module TableSteps {
  import opened TableNodes
  import opened TableSizes
  import opened TableMap
  import opened Wrappers
  import opened Sequences

  /** Where a value is stored. */
  datatype Cell = InArr(i: nat) | InNode(i: nat)

  ghost predicate Absent(t: T, k: Key) {
    !InArray(t, k) && !HasKey(t.node, k)
  }

  /** `cell` is where table `t` keeps the value of key `k`. */
  ghost predicate CellFor(t: T, cell: Cell, k: Key) {
    match cell
    case InArr(i) => i < |t.arr| && i + 1 <= MAXASIZE && k == Int(i + 1)
    case InNode(i) => i < |t.node| && t.node[i].key == Live(k) && !InArray(t, k)
  }

  /** `getfreepos` has just returned `f`: only there is a position without key not below `lastfree`. */
  ghost predicate FreeAt(t: T, f: nat) {
    t.lastfree == f && !t.dummy && f < |t.node| && t.node[f].key == NoKey && TableValid(t.(lastfree := f + 1))
  }

  /** The result of putting key `k` in a node: valid, same map, and no keys but the old ones and `k`. */
  ghost predicate Inserted(t: T, b: T, p: nat, k: Key) {
    && TableValid(b) && SameMap(t, b) && CellFor(b, InNode(p), k)
    && b.arr == t.arr && |b.node| == |t.node| && !b.dummy
    && NodeKeys(b.node) <= NodeKeys(t.node) + {k}
    && (NoDead(t.node) ==> NoDead(b.node))
  }

  lemma GetFrom(t: T, b: T, k: Key)
    requires b.arr == t.arr && Absent(t, k)
    requires forall q :: HashGet(b.node, q) == if q == k then Nil else HashGet(t.node, q)
    ensures SameMap(t, b)
  {
    forall q
      ensures Get(t, q) == Get(b, q)
    {
      if q == k {
        assert HashGet(t.node, k) == Nil;
      }
    }
  }

  lemma PlaceInserted(t: T, b: T, mp: nat, k: Key)
    requires TableValid(t) && Absent(t, k) && !t.dummy && mp == MainPosition(k, |t.node|) && t.node[mp].val == Nil
    requires b == t.(node := Place(t.node, mp, k))
    ensures Inserted(t, b, mp, k)
  {
    PlaceValid(t.node, mp, k);
    PlaceFirst(t.node, mp, k);
    forall q
      ensures HashGet(b.node, q) == if q == k then Nil else HashGet(t.node, q)
    {
      PlaceGet(t.node, mp, k, q);
    }
    GetFrom(t, b, k);
    PlaceKeys(t.node, mp, k);
    hide Valid, HasKey, SameMap;
  }

  lemma PlaceKeys(ns: seq<Node>, mp: nat, k: Key)
    requires mp < |ns|
    ensures NodeKeys(Place(ns, mp, k)) <= NodeKeys(ns) + {k}
    ensures NoDead(ns) ==> NoDead(Place(ns, mp, k))
  {
    var ns' := Place(ns, mp, k);
    forall q | q in NodeKeys(ns')
      ensures q in NodeKeys(ns) + {k}
    {
      var i :| 0 <= i < |ns'| && ns'[i].key.Live? && ns'[i].key.k == q;
      if i != mp {
        assert ns[i].key == ns'[i].key;
      }
    }
  }

  lemma ChainInserted(t: T, b: T, mp: nat, f: nat, k: Key)
    requires FreeAt(t, f) && Absent(t, k) && mp == MainPosition(k, |t.node|)
    requires Keyed(t.node, mp) && Home(t.node, mp) == mp && t.node[mp].key.Live?
    requires b == t.(node := Chain(t.node, mp, f, k))
    ensures Inserted(t, b, f, k)
  {
    hide SameMap, HasKey, LiveFirst;
    ChainMap(t, b, mp, f, k);
    ChainValid(t.node, mp, f, k);
    ChainKeys(t.node, mp, f, k);
    ChainFirst(t.node, mp, f, k);
    ChainOther(t.node, mp, f, k);
  }

  lemma ChainOther(ns: seq<Node>, mp: nat, f: nat, k: Key)
    requires mp < |ns| && f < |ns| && mp != f
    ensures forall i :: 0 <= i < |ns| && i != f ==> Chain(ns, mp, f, k)[i].key == ns[i].key && Chain(ns, mp, f, k)[i].val == ns[i].val
    ensures |Chain(ns, mp, f, k)| == |ns| && Chain(ns, mp, f, k)[f].val == Nil
  {
  }

  lemma ChainMap(t: T, b: T, mp: nat, f: nat, k: Key)
    requires FreeAt(t, f) && Absent(t, k) && mp < |t.node| && mp != f
    requires b == t.(node := Chain(t.node, mp, f, k))
    ensures SameMap(t, b)
  {
    hide HashGet, Chain, SameMap, HasKey;
    forall q
      ensures HashGet(b.node, q) == if q == k then Nil else HashGet(t.node, q)
    {
      ChainGet(t.node, mp, f, k, q);
    }
    GetFrom(t, b, k);
  }

  lemma ChainKeys(ns: seq<Node>, mp: nat, f: nat, k: Key)
    requires mp < |ns| && f < |ns| && mp != f
    ensures NodeKeys(Chain(ns, mp, f, k)) <= NodeKeys(ns) + {k}
    ensures NoDead(ns) ==> NoDead(Chain(ns, mp, f, k))
    ensures Chain(ns, mp, f, k)[f].key == Live(k)
  {
    var ns' := Chain(ns, mp, f, k);
    assert forall i :: 0 <= i < |ns'| && i != f ==> ns'[i].key == ns[i].key;
    forall q | q in NodeKeys(ns')
      ensures q in NodeKeys(ns) + {k}
    {
      var i :| 0 <= i < |ns'| && ns'[i].key.Live? && ns'[i].key.k == q;
    }
    hide Chain;
  }

  lemma MoveInserted(t: T, b: T, mp: nat, f: nat, o: nat, k: Key)
    requires FreeAt(t, f) && Absent(t, k) && mp == MainPosition(k, |t.node|) && t.node[mp].key.Live?
    requires Displaced(t.node, mp, f, o) && Home(t.node, mp) != mp
    requires b == t.(node := Move(t.node, mp, f, o, k))
    ensures Inserted(t, b, mp, k)
  {
    DisplacedApart(t.node, mp, f, o);
    MoveValid(t.node, mp, f, o, k);
    forall q
      ensures HashGet(b.node, q) == if q == k then Nil else HashGet(t.node, q)
    {
      MoveGet(t.node, mp, f, o, k, q);
    }
    GetFrom(t, b, k);
    MoveKeys(t.node, mp, f, o, k);
    MoveFirst(t.node, mp, f, o, k);
    MoveTable(t, b, mp, f, o, k);
    hide Valid, HasKey, SameMap, Move, Displaced;
  }

  /** Every node but the new key's is an old one, which keeps its key and value. */
  lemma MoveNodes(ns: seq<Node>, mp: nat, f: nat, o: nat, k: Key)
    requires Displaced(ns, mp, f, o)
    ensures var ns' := Move(ns, mp, f, o, k);
      && ns'[mp].key == Live(k) && ns'[mp].val == Nil
      && forall i :: 0 <= i < |ns'| && i != mp ==>
        ns'[i].key == ns[if i == f then mp else i].key && ns'[i].val == ns[if i == f then mp else i].val
  {
    DisplacedApart(ns, mp, f, o);
    hide Displaced;
  }

  lemma MoveTable(t: T, b: T, mp: nat, f: nat, o: nat, k: Key)
    requires FreeAt(t, f) && Absent(t, k) && Displaced(t.node, mp, f, o) && t.node[mp].key.Live?
    requires b == t.(node := Move(t.node, mp, f, o, k))
    requires Valid(b.node) && LiveFirst(b.node)
    ensures TableValid(b)
  {
    MoveNodes(t.node, mp, f, o, k);
    hide Valid, LiveFirst, HasKey, Move, Displaced;
  }

  lemma MoveKeys(ns: seq<Node>, mp: nat, f: nat, o: nat, k: Key)
    requires Displaced(ns, mp, f, o)
    ensures NodeKeys(Move(ns, mp, f, o, k)) <= NodeKeys(ns) + {k}
    ensures NoDead(ns) ==> NoDead(Move(ns, mp, f, o, k))
    ensures Move(ns, mp, f, o, k)[mp].key == Live(k)
  {
    MoveNodes(ns, mp, f, o, k);
    hide Move, Displaced;
    var ns' := Move(ns, mp, f, o, k);
    forall q | q in NodeKeys(ns')
      ensures q in NodeKeys(ns) + {k}
    {
      var i :| 0 <= i < |ns'| && ns'[i].key.Live? && ns'[i].key.k == q;
      if i != mp {
        assert ns[if i == f then mp else i].key == Live(q);
      }
    }
  }

  // ---------- live keys before dead ones ----------

  lemma PlaceFirst(ns: seq<Node>, mp: nat, k: Key)
    requires Valid(ns) && LiveFirst(ns) && mp == MainPosition(k, |ns|)
    ensures LiveFirst(Place(ns, mp, k))
  {
    hide Reaches, Threaded, Distinct;
    var ns' := Place(ns, mp, k);
    SameLinks(ns, ns');
    forall i, j | 0 <= i < |ns'| && 0 <= j < |ns'| && ns'[i].key.Live? && ns'[j].key == Dead(ns'[i].key.k)
      ensures Reaches(ns', i, j)
    {
      assert j != mp && ns'[j] == ns[j];
      if i == mp {
        assert AtHome(ns, j);
      } else {
        assert ns'[i] == ns[i] && Reaches(ns, i, j);
      }
    }
  }

  lemma ChainFirst(ns: seq<Node>, mp: nat, f: nat, k: Key)
    requires Valid(ns) && LiveFirst(ns) && mp == MainPosition(k, |ns|) && Collides(ns, mp, f) && ns[mp].key.Live?
    ensures LiveFirst(Chain(ns, mp, f, k))
  {
    hide Reaches, Threaded, Distinct, Homed, LiveFirst;
    var ns' := Chain(ns, mp, f, k);
    ChainOther(ns, mp, f, k);
    forall i, j | 0 <= i < |ns'| && 0 <= j < |ns'| && ns'[i].key.Live? && ns'[j].key == Dead(ns'[i].key.k)
      ensures Reaches(ns', i, j)
    {
      if i == f {
        ChainBefore(ns, mp, f, k, j);
      } else {
        FirstReaches(ns, i, j);
        ChainReaches(ns, mp, f, k, i, j);
      }
    }
    OrderedFirst(ns');
  }

  lemma FirstReaches(ns: seq<Node>, i: nat, j: nat)
    requires LiveFirst(ns) && i < |ns| && j < |ns| && ns[i].key.Live? && ns[j].key == Dead(ns[i].key.k)
    ensures Reaches(ns, i, j)
  {
  }

  lemma OrderedFirst(ns: seq<Node>)
    requires forall i, j :: 0 <= i < |ns| && 0 <= j < |ns| && ns[i].key.Live? && ns[j].key == Dead(ns[i].key.k) ==> Reaches(ns, i, j)
    ensures LiveFirst(ns)
  {
  }

  lemma ChainBefore(ns: seq<Node>, mp: nat, f: nat, k: Key, j: nat)
    requires Valid(ns) && mp == MainPosition(k, |ns|) && Collides(ns, mp, f)
    requires j < |ns| && ns[j].key == Dead(k) && ns[mp].key.Live?
    ensures Reaches(Chain(ns, mp, f, k), f, j)
  {
    hide Reaches, Threaded, Distinct;
    assert AtHome(ns, j);
    ChainReaches(ns, mp, f, k, mp, j);
    ReachesNext(Chain(ns, mp, f, k), mp, j);
  }

  lemma ChainReaches(ns: seq<Node>, mp: nat, f: nat, k: Key, i: int, j: int)
    requires Collides(ns, mp, f) && Reaches(ns, i, j)
    ensures Reaches(Chain(ns, mp, f, k), i, j)
  {
    hide Linked, Chain;
    var n: nat :| Linked(ns, i, j, n);
    ChainLinked(ns, mp, f, k, i, j, n);
  }

  lemma MoveFirst(ns: seq<Node>, mp: nat, f: nat, o: nat, k: Key)
    requires Valid(ns) && LiveFirst(ns) && mp == MainPosition(k, |ns|)
    requires Displaced(ns, mp, f, o) && Home(ns, mp) != mp && ns[mp].key.Live?
    ensures LiveFirst(Move(ns, mp, f, o, k))
  {
    var ns' := Move(ns, mp, f, o, k);
    DisplacedApart(ns, mp, f, o);
    assert forall x :: 0 <= x < |ns| && x != mp ==> ns'[x].key == ns[if x == f then mp else x].key;
    assert ns'[mp].key == Live(k);
    forall i, j | 0 <= i < |ns'| && 0 <= j < |ns'| && ns'[i].key.Live? && ns'[j].key == Dead(ns'[i].key.k)
      ensures Reaches(ns', i, j)
    {
      var j0 := if j == f then mp else j;
      assert AtHome(ns, j0);
      assert i != mp;
      var i0 := if i == f then mp else i;
      assert Reaches(ns, i0, j0);
      var n: nat :| Linked(ns, i0, j0, n);
      MoveLinked(ns, mp, f, o, k, i0, j0, n);
    }
    hide Linked, Threaded, Distinct, Move;
  }

  // ---------- storing a value ----------

  function Stored(t: T, cell: Cell, v: Val): T
    requires match cell case InArr(i) => i < |t.arr| case InNode(i) => i < |t.node|
  {
    match cell
    case InArr(i) => t.(arr := t.arr[i := v])
    case InNode(i) => t.(node := SetVal(t.node, i, v))
  }

  lemma StoreValid(t: T, cell: Cell, k: Key, v: Val)
    requires TableValid(t) && CellFor(t, cell, k)
    ensures TableValid(Stored(t, cell, v))
    ensures NodeKeys(Stored(t, cell, v).node) == NodeKeys(t.node)
    ensures NoDead(t.node) ==> NoDead(Stored(t, cell, v).node)
  {
    hide Valid, LiveFirst;
    if cell.InNode? {
      SetValValid(t.node, cell.i, v);
      StoreNode(t, cell.i, v);
    }
  }

  lemma StoreNode(t: T, i: nat, v: Val)
    requires TableValid(t) && i < |t.node| && t.node[i].key.Live? && Valid(SetVal(t.node, i, v))
    ensures TableValid(t.(node := SetVal(t.node, i, v)))
    ensures NodeKeys(SetVal(t.node, i, v)) == NodeKeys(t.node)
    ensures NoDead(t.node) ==> NoDead(SetVal(t.node, i, v))
  {
    hide Valid, LiveFirst, Reaches, Finite;
    var ns := SetVal(t.node, i, v);
    SameLinks(t.node, ns);
    StoreFirst(t.node, ns);
    assert forall x :: 0 <= x < |ns| ==> ns[x].key == t.node[x].key && (x != i ==> ns[x].val == t.node[x].val);
    assert NodeKeys(ns) == NodeKeys(t.node);
  }

  lemma StoreFirst(ns: seq<Node>, ns': seq<Node>)
    requires LiveFirst(ns) && |ns'| == |ns|
    requires forall x :: 0 <= x < |ns| ==> ns'[x].next == ns[x].next && ns'[x].key == ns[x].key
    ensures LiveFirst(ns')
  {
    hide Reaches, Finite;
    SameLinks(ns, ns');
    forall i, j | 0 <= i < |ns'| && 0 <= j < |ns'| && ns'[i].key.Live? && ns'[j].key == Dead(ns'[i].key.k)
      ensures Reaches(ns', i, j)
    {
      assert ns[i].key.Live? && ns[j].key == Dead(ns[i].key.k);
    }
  }

  lemma StoreGet(t: T, cell: Cell, k: Key, v: Val, q: Key)
    requires TableValid(t) && CellFor(t, cell, k)
    ensures Get(Stored(t, cell, v), q) == if q == k then v else Get(t, q)
  {
    if cell.InNode? {
      SetValValid(t.node, cell.i, v);
      SetValGet(t.node, cell.i, v, q);
    }
  }

  /** The collector removes an empty entry: the table stays valid and stands for the same map. */
  lemma BuryTable(t: T, i: nat)
    requires TableValid(t) && i < |t.node| && t.node[i].key.Live? && t.node[i].val == Nil
    ensures TableValid(t.(node := Bury(t.node, i))) && SameMap(t, t.(node := Bury(t.node, i)))
  {
    hide Reaches, Threaded, HasKey;
    var b := t.(node := Bury(t.node, i));
    BuryValid(t.node, i);
    SameLinks(t.node, b.node);
    assert forall x :: 0 <= x < |t.node| && x != i ==> b.node[x] == t.node[x];
    BuryFirst(t.node, i);
    forall q
      ensures Get(t, q) == Get(b, q)
    {
      BuryGet(t.node, i, q);
    }
  }

  lemma BuryFirst(ns: seq<Node>, i: nat)
    requires Valid(ns) && LiveFirst(ns) && i < |ns| && ns[i].key.Live?
    ensures LiveFirst(Bury(ns, i))
  {
    hide Reaches, Threaded;
    var ns' := Bury(ns, i);
    SameLinks(ns, ns');
    forall x, y | 0 <= x < |ns'| && 0 <= y < |ns'| && ns'[x].key.Live? && ns'[y].key == Dead(ns'[x].key.k)
      ensures Reaches(ns', x, y)
    {
      assert y != i && Reaches(ns, x, y);
    }
  }

  // ---------- free positions ----------

  /** A vector of free nodes. */
  lemma FreshNodes(n: nat)
    requires n > 0
    ensures Valid(Times(n, EMPTY)) && LiveFirst(Times(n, EMPTY)) && NoDead(Times(n, EMPTY)) && NodeKeys(Times(n, EMPTY)) == {}
    ensures forall k :: HashGet(Times(n, EMPTY), k) == Nil
  {
    var ns := Times(n, EMPTY);
    forall i | 0 <= i < |ns|
      ensures Finite(ns, i)
    {
      assert Ends(ns, i, 0);
    }
    forall k
      ensures HashGet(ns, k) == Nil
    {
      assert !HasKey(ns, k);
    }
    hide Finite, HasKey;
  }
}
