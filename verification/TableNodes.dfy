/** The hash part of a table: a chained scatter table with Brent's variation, threaded by relative
    offsets, in which the keys of removed entries stay. */
module TableNodes {

  const TWO_TO_63 := 0x8000_0000_0000_0000

  type int64 = i: int | -TWO_TO_63 <= i < TWO_TO_63

  /** A key as the table stores it: floats with integer values have been turned into integers.
      Equal keys are raw-equal values; the hash of a string or float comes with it. */
  datatype Key =
    | Int(i: int64)
    | Str(id: nat, hash: nat)
    | Bool(b: bool)
    | Float(bits: nat, hash: nat)
    | Pointer(addr: nat)

  datatype Val = Nil | Obj(o: int)

  /** A node's key: none, one that the collector has marked dead, or a live one. */
  datatype NodeKey = NoKey | Dead(k: Key) | Live(k: Key)

  datatype Node = Node(val: Val, key: NodeKey, next: int)

  const EMPTY := Node(Nil, NoKey, 0)

  /** `mainposition`: strings, integers and booleans are hashed modulo the size, a power of two;
      the others modulo the odd number `(size - 1) | 1`. */
  function MainPosition(k: Key, size: nat): (p: nat)
    requires size > 0
    ensures p < size
  {
    match k
    case Int(i) => i % size
    case Str(_, h) => h % size
    case Bool(b) => (if b then 1 else 0) % size
    case Float(_, h) => h % OddModulus(size)
    case Pointer(a) => a % OddModulus(size)
  }

  /** `(size - 1) | 1` for a power of two. */
  function OddModulus(size: nat): (m: nat)
    requires size > 0
    ensures 0 < m <= size
  {
    if size == 1 then 1 else if (size - 1) % 2 == 1 then size - 1 else size
  }

  predicate Keyed(ns: seq<Node>, i: int) {
    0 <= i < |ns| && ns[i].key != NoKey
  }

  /** The main position of the key in node `i`. */
  function Home(ns: seq<Node>, i: nat): (p: nat)
    requires Keyed(ns, i)
    ensures p < |ns|
  {
    MainPosition(ns[i].key.k, |ns|)
  }

  /** Node `j` is reached from node `i` in at most `n` links. */
  ghost predicate Linked(ns: seq<Node>, i: int, j: int, n: nat)
    decreases n
  {
    i == j || (n > 0 && 0 <= i < |ns| && ns[i].next != 0 && Linked(ns, i + ns[i].next, j, n - 1))
  }

  /** The chain from node `i` comes to an end within `n` links. */
  ghost predicate Ends(ns: seq<Node>, i: int, n: nat)
    decreases n
  {
    0 <= i < |ns| && (ns[i].next == 0 || (n > 0 && Ends(ns, i + ns[i].next, n - 1)))
  }

  ghost predicate Reaches(ns: seq<Node>, i: int, j: int) {
    exists n: nat :: Linked(ns, i, j, n)
  }

  ghost predicate Finite(ns: seq<Node>, i: int) {
    exists n: nat :: Ends(ns, i, n)
  }

  /** The link of node `i` stays inside the vector and joins nodes that have keys. */
  ghost predicate LinkOk(ns: seq<Node>, i: int) {
    0 <= i < |ns| ==>
      && 0 <= i + ns[i].next < |ns|
      && (ns[i].next != 0 ==> Keyed(ns, i) && Keyed(ns, i + ns[i].next))
      && (ns[i].key == NoKey ==> ns[i].val == Nil)
  }

  ghost predicate NoShare(ns: seq<Node>, i: int, j: int) {
    0 <= i < |ns| && 0 <= j < |ns| && i != j && ns[i].next != 0 && ns[j].next != 0 ==> i + ns[i].next != j + ns[j].next
  }

  /** Chains: links are sound, no two nodes share a successor, and every chain comes to an end. */
  ghost predicate Threaded(ns: seq<Node>) {
    && (forall i :: LinkOk(ns, i))
    && (forall i, j :: NoShare(ns, i, j))
    && (forall i :: 0 <= i < |ns| ==> Finite(ns, i))
  }

  /** Every key is found from its main position, which is held by a node in its own main position. */
  ghost predicate Homed(ns: seq<Node>) {
    forall i :: Keyed(ns, i) ==> AtHome(ns, i)
  }

  ghost predicate AtHome(ns: seq<Node>, i: nat)
    requires Keyed(ns, i)
  {
    && Keyed(ns, Home(ns, i))
    && Home(ns, Home(ns, i)) == Home(ns, i)
    && Reaches(ns, Home(ns, i), i)
  }

  ghost predicate Distinct(ns: seq<Node>) {
    forall i, j :: 0 <= i < j < |ns| && ns[i].key.Live? ==> ns[i].key != ns[j].key
  }

  /** A live key comes before any dead key of the same object: a search for either finds it first. */
  ghost predicate LiveFirst(ns: seq<Node>) {
    forall i, j :: 0 <= i < |ns| && 0 <= j < |ns| && ns[i].key.Live? && ns[j].key == Dead(ns[i].key.k) ==> Reaches(ns, i, j)
  }

  ghost predicate Valid(ns: seq<Node>) {
    |ns| > 0 && Threaded(ns) && Homed(ns) && Distinct(ns)
  }

  ghost predicate HasKey(ns: seq<Node>, k: Key) {
    exists i :: 0 <= i < |ns| && ns[i].key == Live(k)
  }

  /** The value stored under `k`, `Nil` if there is none. */
  ghost function HashGet(ns: seq<Node>, k: Key): Val {
    if HasKey(ns, k) then (var i :| 0 <= i < |ns| && ns[i].key == Live(k); ns[i].val) else Nil
  }

  lemma HashGetAt(ns: seq<Node>, i: nat, k: Key)
    requires Distinct(ns) && i < |ns| && ns[i].key == Live(k)
    ensures HashGet(ns, k) == ns[i].val
  {
  }

  // ---------- walking a chain ----------

  lemma LinkedMore(ns: seq<Node>, i: int, j: int, n: nat, m: nat)
    requires Linked(ns, i, j, n) && n <= m
    ensures Linked(ns, i, j, m)
    decreases n
  {
    if i != j {
      LinkedMore(ns, i + ns[i].next, j, n - 1, m - 1);
    }
  }

  /** Not yet at `j`: the next node still leads to it. */
  lemma ReachesNext(ns: seq<Node>, i: int, j: int)
    requires Reaches(ns, i, j) && i != j
    ensures 0 <= i < |ns| && ns[i].next != 0 && Reaches(ns, i + ns[i].next, j)
  {
    var n: nat :| Linked(ns, i, j, n);
    assert Linked(ns, i + ns[i].next, j, n - 1);
  }

  lemma ReachesSelf(ns: seq<Node>, i: int)
    ensures Reaches(ns, i, i)
  {
    assert Linked(ns, i, i, 0);
  }

  /** Only a node's links matter for what it reaches. */
  lemma LinkedSame(ns: seq<Node>, ns': seq<Node>, i: int, j: int, n: nat)
    requires |ns'| == |ns| && (forall x :: 0 <= x < |ns| ==> ns'[x].next == ns[x].next)
    requires Linked(ns, i, j, n)
    ensures Linked(ns', i, j, n)
    decreases n
  {
    if i != j {
      LinkedSame(ns, ns', i + ns[i].next, j, n - 1);
    }
  }

  lemma EndsSame(ns: seq<Node>, ns': seq<Node>, i: int, n: nat)
    requires |ns'| == |ns| && (forall x :: 0 <= x < |ns| ==> ns'[x].next == ns[x].next)
    requires Ends(ns, i, n)
    ensures Ends(ns', i, n)
    decreases n
  {
    if ns[i].next != 0 {
      EndsSame(ns, ns', i + ns[i].next, n - 1);
    }
  }

  lemma SameLinks(ns: seq<Node>, ns': seq<Node>)
    requires |ns'| == |ns| && (forall x :: 0 <= x < |ns| ==> ns'[x].next == ns[x].next)
    ensures forall i, j :: Reaches(ns, i, j) ==> Reaches(ns', i, j)
    ensures forall i :: Finite(ns, i) ==> Finite(ns', i)
  {
    forall i, j | Reaches(ns, i, j)
      ensures Reaches(ns', i, j)
    {
      var n: nat :| Linked(ns, i, j, n);
      LinkedSame(ns, ns', i, j, n);
    }
    forall i | Finite(ns, i)
      ensures Finite(ns', i)
    {
      var n: nat :| Ends(ns, i, n);
      EndsSame(ns, ns', i, n);
    }
  }

  // ---------- inserting a key ----------

  /** Case 1: the main position is free; the new key takes it, and keeps its place in the chain. */
  function Place(ns: seq<Node>, mp: nat, k: Key): seq<Node>
    requires mp < |ns|
  {
    ns[mp := Node(Nil, Live(k), ns[mp].next)]
  }

  /** Case 2: the colliding node is in its own main position; the new key goes to the free node `f`,
      chained right after it. */
  function Chain(ns: seq<Node>, mp: nat, f: nat, k: Key): seq<Node>
    requires mp < |ns| && f < |ns| && mp != f
  {
    ns[f := Node(Nil, Live(k), if ns[mp].next != 0 then mp + ns[mp].next - f else 0)]
      [mp := ns[mp].(next := f - mp)]
  }

  /** Case 3: the colliding node, whose predecessor is `o`, is out of its main position; it moves to
      the free node `f`, and the new key takes its place. */
  function Move(ns: seq<Node>, mp: nat, f: nat, o: nat, k: Key): seq<Node>
    requires mp < |ns| && f < |ns| && o < |ns|
  {
    ns[o := ns[o].(next := f - o)]
      [f := Node(ns[mp].val, ns[mp].key, if ns[mp].next != 0 then mp + ns[mp].next - f else 0)]
      [mp := Node(Nil, Live(k), 0)]
  }

  lemma PlaceValid(ns: seq<Node>, mp: nat, k: Key)
    requires Valid(ns) && mp == MainPosition(k, |ns|) && ns[mp].val == Nil && !HasKey(ns, k)
    ensures Valid(Place(ns, mp, k))
  {
    hide Reaches, Finite, HasKey;
    var ns' := Place(ns, mp, k);
    SameLinks(ns, ns');
    forall i
      ensures LinkOk(ns', i)
    {
      assert LinkOk(ns, i);
    }
    forall i, j
      ensures NoShare(ns', i, j)
    {
      assert NoShare(ns, i, j);
    }
    forall i | Keyed(ns', i)
      ensures AtHome(ns', i)
    {
      if i == mp {
        ReachesSelf(ns', mp);
      } else {
        assert AtHome(ns, i) && Home(ns', i) == Home(ns, i);
      }
    }
    PlaceDistinct(ns, mp, k);
  }

  lemma PlaceDistinct(ns: seq<Node>, mp: nat, k: Key)
    requires Distinct(ns) && mp < |ns| && !HasKey(ns, k)
    ensures Distinct(Place(ns, mp, k))
  {
  }

  lemma PlaceGet(ns: seq<Node>, mp: nat, k: Key, q: Key)
    requires Distinct(ns) && mp < |ns| && ns[mp].val == Nil && !HasKey(ns, k)
    ensures HashGet(Place(ns, mp, k), q) == if q == k then Nil else HashGet(ns, q)
  {
    var ns' := Place(ns, mp, k);
    PlaceDistinct(ns, mp, k);
    if q == k {
      HashGetAt(ns', mp, k);
    } else if HasKey(ns, q) {
      var i :| 0 <= i < |ns| && ns[i].key == Live(q);
      HashGetAt(ns, i, q);
      if i != mp {
        HashGetAt(ns', i, q);
      }
    } else {
      assert !HasKey(ns', q) by {
        assert forall i :: 0 <= i < |ns'| && i != mp ==> ns'[i].key == ns[i].key;
      }
    }
  }

  // ---------- case 2 ----------

  /** What `Chain` is applied to: `mp` is in its own main position, and `f` is free. */
  ghost predicate Collides(ns: seq<Node>, mp: nat, f: nat) {
    Threaded(ns) && Keyed(ns, mp) && f < |ns| && ns[f].key == NoKey
  }

  /** Every old link is still there, directly or through the new node. */
  lemma ChainHop(ns: seq<Node>, mp: nat, f: nat, k: Key, i: int)
    requires Collides(ns, mp, f) && 0 <= i < |ns| && ns[i].next != 0
    ensures var ns', s := Chain(ns, mp, f, k), i + ns[i].next;
      && i != f && s != f && 0 <= s < |ns|
      && ns'[i].next != 0
      && (if i == mp then mp + ns'[mp].next == f && ns'[f].next != 0 && f + ns'[f].next == s else i + ns'[i].next == s)
  {
    assert LinkOk(ns, i);
  }

  lemma ChainLinked(ns: seq<Node>, mp: nat, f: nat, k: Key, i: int, j: int, n: nat)
    requires Collides(ns, mp, f) && Linked(ns, i, j, n)
    ensures Linked(Chain(ns, mp, f, k), i, j, 2 * n)
    decreases n
  {
    var ns' := Chain(ns, mp, f, k);
    hide Collides;
    if i != j {
      var s := i + ns[i].next;
      ChainHop(ns, mp, f, k, i);
      ChainLinked(ns, mp, f, k, s, j, n - 1);
      if i == mp {
        assert Linked(ns', f, j, 2 * n - 1);
      } else {
        LinkedMore(ns', s, j, 2 * n - 2, 2 * n - 1);
      }
    }
  }

  lemma EndsMore(ns: seq<Node>, i: int, n: nat, m: nat)
    requires Ends(ns, i, n) && n <= m
    ensures Ends(ns, i, m)
    decreases n
  {
    if ns[i].next != 0 {
      EndsMore(ns, i + ns[i].next, n - 1, m - 1);
    }
  }

  lemma ChainEnds(ns: seq<Node>, mp: nat, f: nat, k: Key, i: int, n: nat)
    requires Collides(ns, mp, f) && Ends(ns, i, n) && i != f
    ensures Ends(Chain(ns, mp, f, k), i, 2 * n + 1)
    decreases n
  {
    hide Threaded;
    var ns' := Chain(ns, mp, f, k);
    if ns[i].next != 0 {
      var s := i + ns[i].next;
      ChainHop(ns, mp, f, k, i);
      ChainEnds(ns, mp, f, k, s, n - 1);
      if i == mp {
        assert Ends(ns', f, 2 * n);
      } else {
        EndsMore(ns', s, 2 * n - 1, 2 * n);
      }
    } else if i == mp {
      assert ns'[f].next == 0;
      assert Ends(ns', f, 0);
    }
  }

  lemma ChainFree(ns: seq<Node>, mp: nat, f: nat, k: Key)
    requires Collides(ns, mp, f)
    ensures Finite(Chain(ns, mp, f, k), f)
  {
    var ns' := Chain(ns, mp, f, k);
    if ns[mp].next == 0 {
      assert Ends(ns', f, 0);
    } else {
      var s := mp + ns[mp].next;
      ChainHop(ns, mp, f, k, mp);
      assert Finite(ns, s);
      var n: nat :| Ends(ns, s, n);
      ChainEnds(ns, mp, f, k, s, n);
      assert Ends(ns', f, 2 * n + 2);
    }
  }

  lemma ChainThreaded(ns: seq<Node>, mp: nat, f: nat, k: Key)
    requires Collides(ns, mp, f)
    ensures Threaded(Chain(ns, mp, f, k))
  {
    var ns' := Chain(ns, mp, f, k);
    forall i | 0 <= i < |ns'|
      ensures Finite(ns', i)
    {
      if i == f {
        ChainFree(ns, mp, f, k);
      } else {
        assert Finite(ns, i);
        var n: nat :| Ends(ns, i, n);
        ChainEnds(ns, mp, f, k, i, n);
      }
    }
    forall i
      ensures LinkOk(ns', i)
    {
      ChainLinkOk(ns, mp, f, k, i);
    }
    forall i, j
      ensures NoShare(ns', i, j)
    {
      ChainNoShare(ns, mp, f, k, i, j);
    }
    hide Finite, LinkOk, NoShare;
  }

  lemma ChainLinkOk(ns: seq<Node>, mp: nat, f: nat, k: Key, i: int)
    requires Collides(ns, mp, f)
    ensures LinkOk(Chain(ns, mp, f, k), i)
  {
    assert LinkOk(ns, i) && LinkOk(ns, mp);
    hide Threaded;
  }

  lemma ChainNoShare(ns: seq<Node>, mp: nat, f: nat, k: Key, i: int, j: int)
    requires Collides(ns, mp, f)
    ensures NoShare(Chain(ns, mp, f, k), i, j)
  {
    var i', j' := if i == f then mp else i, if j == f then mp else j;
    assert NoShare(ns, i', j') && LinkOk(ns, i) && LinkOk(ns, j) && LinkOk(ns, mp) && LinkOk(ns, f);
    hide Threaded;
  }

  lemma ChainDistinct(ns: seq<Node>, mp: nat, f: nat, k: Key)
    requires Distinct(ns) && mp < |ns| && f < |ns| && mp != f && !HasKey(ns, k)
    ensures Distinct(Chain(ns, mp, f, k))
  {
  }

  lemma ChainValid(ns: seq<Node>, mp: nat, f: nat, k: Key)
    requires Valid(ns) && Collides(ns, mp, f) && mp == MainPosition(k, |ns|) && Home(ns, mp) == mp && !HasKey(ns, k)
    ensures Valid(Chain(ns, mp, f, k))
  {
    var ns' := Chain(ns, mp, f, k);
    ChainThreaded(ns, mp, f, k);
    ChainDistinct(ns, mp, f, k);
    forall i | Keyed(ns', i)
      ensures AtHome(ns', i)
    {
      if i == f {
        assert Linked(ns', f, f, 0);
        assert Linked(ns', mp, f, 1);
      } else {
        assert AtHome(ns, i) && Home(ns', i) == Home(ns, i);
        var n: nat :| Linked(ns, Home(ns, i), i, n);
        ChainLinked(ns, mp, f, k, Home(ns, i), i, n);
      }
    }
    hide Threaded, Linked, Distinct;
  }

  lemma ChainGet(ns: seq<Node>, mp: nat, f: nat, k: Key, q: Key)
    requires Distinct(ns) && mp < |ns| && f < |ns| && mp != f && ns[f].key == NoKey && !HasKey(ns, k)
    ensures HashGet(Chain(ns, mp, f, k), q) == if q == k then Nil else HashGet(ns, q)
  {
    var ns' := Chain(ns, mp, f, k);
    ChainDistinct(ns, mp, f, k);
    if q == k {
      HashGetAt(ns', f, k);
    } else if HasKey(ns, q) {
      var i :| 0 <= i < |ns| && ns[i].key == Live(q);
      HashGetAt(ns, i, q);
      HashGetAt(ns', i, q);
    } else {
      assert !HasKey(ns', q) by {
        assert forall i :: 0 <= i < |ns'| && i != f ==> ns'[i].key == ns[i].key;
      }
    }
  }

  // ---------- case 3 ----------

  /** What `Move` is applied to: `mp` is out of its main position, and follows node `o`. */
  ghost predicate Displaced(ns: seq<Node>, mp: nat, f: nat, o: nat) {
    && Threaded(ns) && Keyed(ns, mp)
    && f < |ns| && ns[f].key == NoKey
    && o < |ns| && ns[o].next != 0 && o + ns[o].next == mp
  }

  /** Where the node that was at `i` is after the move. */
  function Moved(mp: nat, f: nat, i: int): int {
    if i == mp then f else i
  }

  lemma DisplacedApart(ns: seq<Node>, mp: nat, f: nat, o: nat)
    requires Displaced(ns, mp, f, o)
    ensures f != mp && o != f && o != mp && ns[f].next == 0
  {
    assert LinkOk(ns, o) && LinkOk(ns, f);
  }

  lemma MoveHop(ns: seq<Node>, mp: nat, f: nat, o: nat, k: Key, i: int)
    requires Displaced(ns, mp, f, o) && 0 <= i < |ns| && ns[i].next != 0
    ensures i != f && i + ns[i].next != f
    ensures var ns', m := Move(ns, mp, f, o, k), Moved(mp, f, i);
      0 <= m < |ns'| && ns'[m].next != 0 && m + ns'[m].next == Moved(mp, f, i + ns[i].next)
  {
    DisplacedApart(ns, mp, f, o);
    assert LinkOk(ns, i) && NoShare(ns, i, o) && LinkOk(ns, mp);
    hide Threaded;
  }

  lemma MoveLinked(ns: seq<Node>, mp: nat, f: nat, o: nat, k: Key, i: int, j: int, n: nat)
    requires Displaced(ns, mp, f, o) && Linked(ns, i, j, n)
    ensures Linked(Move(ns, mp, f, o, k), Moved(mp, f, i), Moved(mp, f, j), n)
    decreases n
  {
    hide Displaced;
    if i != j {
      MoveHop(ns, mp, f, o, k, i);
      MoveLinked(ns, mp, f, o, k, i + ns[i].next, j, n - 1);
      hide Move, Moved;
    }
  }

  lemma MoveEnds(ns: seq<Node>, mp: nat, f: nat, o: nat, k: Key, i: int, n: nat)
    requires Displaced(ns, mp, f, o) && Ends(ns, i, n) && i != f
    ensures Ends(Move(ns, mp, f, o, k), Moved(mp, f, i), n)
    decreases n
  {
    DisplacedApart(ns, mp, f, o);
    hide Displaced;
    var ns' := Move(ns, mp, f, o, k);
    if ns[i].next != 0 {
      MoveHop(ns, mp, f, o, k, i);
      MoveEnds(ns, mp, f, o, k, i + ns[i].next, n - 1);
      hide Move, Moved;
    } else {
      MoveLast(ns, mp, f, o, k, i);
    }
  }

  lemma MoveLast(ns: seq<Node>, mp: nat, f: nat, o: nat, k: Key, i: int)
    requires Displaced(ns, mp, f, o) && 0 <= i < |ns| && i != f && ns[i].next == 0
    ensures 0 <= Moved(mp, f, i) < |ns| && Move(ns, mp, f, o, k)[Moved(mp, f, i)].next == 0
  {
    DisplacedApart(ns, mp, f, o);
  }

  lemma MoveThreaded(ns: seq<Node>, mp: nat, f: nat, o: nat, k: Key)
    requires Displaced(ns, mp, f, o)
    ensures Threaded(Move(ns, mp, f, o, k))
  {
    var ns' := Move(ns, mp, f, o, k);
    DisplacedApart(ns, mp, f, o);
    forall i | 0 <= i < |ns'|
      ensures Finite(ns', i)
    {
      if i == mp {
        assert Ends(ns', mp, 0);
      } else {
        var j := if i == f then mp else i;
        assert Finite(ns, j);
        var n: nat :| Ends(ns, j, n);
        MoveEnds(ns, mp, f, o, k, j, n);
      }
    }
    forall i
      ensures LinkOk(ns', i)
    {
      MoveLinkOk(ns, mp, f, o, k, i);
    }
    forall i, j
      ensures NoShare(ns', i, j)
    {
      MoveNoShare(ns, mp, f, o, k, i, j);
    }
    hide Finite, LinkOk, NoShare, Displaced, Move;
  }

  lemma MoveLinkOk(ns: seq<Node>, mp: nat, f: nat, o: nat, k: Key, i: int)
    requires Displaced(ns, mp, f, o)
    ensures LinkOk(Move(ns, mp, f, o, k), i)
  {
    DisplacedApart(ns, mp, f, o);
    assert LinkOk(ns, i) && LinkOk(ns, mp) && LinkOk(ns, o);
    hide Threaded;
  }

  lemma MoveNoShare(ns: seq<Node>, mp: nat, f: nat, o: nat, k: Key, i: int, j: int)
    requires Displaced(ns, mp, f, o)
    ensures NoShare(Move(ns, mp, f, o, k), i, j)
  {
    DisplacedApart(ns, mp, f, o);
    var i', j' := if i == f then mp else i, if j == f then mp else j;
    assert NoShare(ns, i', j') && LinkOk(ns, i') && LinkOk(ns, j');
    hide Threaded;
  }

  lemma MoveDistinct(ns: seq<Node>, mp: nat, f: nat, o: nat, k: Key)
    requires Displaced(ns, mp, f, o) && Distinct(ns) && !HasKey(ns, k)
    ensures Distinct(Move(ns, mp, f, o, k))
  {
    DisplacedApart(ns, mp, f, o);
    var ns' := Move(ns, mp, f, o, k);
    assert forall i :: 0 <= i < |ns'| && i != mp ==> ns'[i].key == ns[if i == f then mp else i].key;
    hide Displaced, Move;
  }

  lemma MoveValid(ns: seq<Node>, mp: nat, f: nat, o: nat, k: Key)
    requires Valid(ns) && Displaced(ns, mp, f, o) && mp == MainPosition(k, |ns|) && Home(ns, mp) != mp && !HasKey(ns, k)
    ensures Valid(Move(ns, mp, f, o, k))
  {
    var ns' := Move(ns, mp, f, o, k);
    DisplacedApart(ns, mp, f, o);
    MoveThreaded(ns, mp, f, o, k);
    MoveDistinct(ns, mp, f, o, k);
    forall i | Keyed(ns', i)
      ensures AtHome(ns', i)
    {
      if i == mp {
        assert Linked(ns', mp, mp, 0);
      } else {
        MoveHomed(ns, mp, f, o, k, i);
      }
    }
    hide Threaded, Linked, Distinct, HasKey;
  }

  lemma MoveHomed(ns: seq<Node>, mp: nat, f: nat, o: nat, k: Key, i: nat)
    requires Valid(ns) && Displaced(ns, mp, f, o) && Home(ns, mp) != mp
    requires Keyed(Move(ns, mp, f, o, k), i) && i != mp
    ensures AtHome(Move(ns, mp, f, o, k), i)
  {
    hide Threaded, Distinct, Linked;
    DisplacedApart(ns, mp, f, o);
    var ns' := Move(ns, mp, f, o, k);
    var j := if i == f then mp else i;
    assert Keyed(ns, j) && Home(ns', i) == Home(ns, j);
    var h := Home(ns, j);
    assert AtHome(ns, j);
    // No key has its main position at `mp`: the node there is out of its own.
    assert h != f && h != mp;
    assert ns'[h].key == ns[h].key;
    var n: nat :| Linked(ns, h, j, n);
    MoveLinked(ns, mp, f, o, k, h, j, n);
    assert Moved(mp, f, h) == h && Moved(mp, f, j) == i;
  }

  lemma MoveGet(ns: seq<Node>, mp: nat, f: nat, o: nat, k: Key, q: Key)
    requires Displaced(ns, mp, f, o) && Distinct(ns) && !HasKey(ns, k)
    ensures HashGet(Move(ns, mp, f, o, k), q) == if q == k then Nil else HashGet(ns, q)
  {
    hide Threaded;
    var ns' := Move(ns, mp, f, o, k);
    DisplacedApart(ns, mp, f, o);
    MoveDistinct(ns, mp, f, o, k);
    if q == k {
      HashGetAt(ns', mp, k);
    } else if HasKey(ns, q) {
      var i :| 0 <= i < |ns| && ns[i].key == Live(q);
      HashGetAt(ns, i, q);
      HashGetAt(ns', Moved(mp, f, i), q);
    } else {
      assert !HasKey(ns', q) by {
        assert forall i :: 0 <= i < |ns'| && i != mp ==> ns'[i].key == ns[if i == f then mp else i].key;
      }
    }
  }

  // ---------- storing values and marking keys dead ----------

  function SetVal(ns: seq<Node>, i: nat, v: Val): seq<Node>
    requires i < |ns|
  {
    ns[i := ns[i].(val := v)]
  }

  lemma ValidKeyless(ns: seq<Node>)
    requires Valid(ns)
    ensures forall x :: 0 <= x < |ns| && ns[x].key == NoKey ==> ns[x].val == Nil
  {
    forall x | 0 <= x < |ns| && ns[x].key == NoKey
      ensures ns[x].val == Nil
    {
      assert LinkOk(ns, x);
    }
  }

  lemma SetValValid(ns: seq<Node>, i: nat, v: Val)
    requires Valid(ns) && Keyed(ns, i)
    ensures Valid(SetVal(ns, i, v))
  {
    hide Valid;
    var ns' := SetVal(ns, i, v);
    ValidKeyless(ns);
    SameKeys(ns, ns');
  }

  lemma SetValGet(ns: seq<Node>, i: nat, v: Val, q: Key)
    requires i < |ns| && ns[i].key.Live? && Distinct(ns) && Distinct(SetVal(ns, i, v))
    ensures HashGet(SetVal(ns, i, v), q) == if Live(q) == ns[i].key then v else HashGet(ns, q)
  {
    var ns' := SetVal(ns, i, v);
    if Live(q) == ns[i].key {
      HashGetAt(ns', i, q);
    } else if HasKey(ns, q) {
      var j :| 0 <= j < |ns| && ns[j].key == Live(q);
      HashGetAt(ns, j, q);
      HashGetAt(ns', j, q);
    } else {
      assert !HasKey(ns', q) by {
        assert forall j :: 0 <= j < |ns'| ==> ns'[j].key == ns[j].key;
      }
    }
  }

  /** The collector removes an unmarked key: the node keeps its place, its key is dead. */
  function Bury(ns: seq<Node>, i: nat): seq<Node>
    requires i < |ns| && ns[i].key.Live?
  {
    ns[i := ns[i].(key := Dead(ns[i].key.k))]
  }

  /** Validity depends on links and on what the keys are, dead or live, as long as live keys stay distinct. */
  lemma SameKeys(ns: seq<Node>, ns': seq<Node>)
    requires Valid(ns) && |ns'| == |ns|
    requires forall x :: 0 <= x < |ns| ==> ns'[x].next == ns[x].next && (ns'[x].key == NoKey <==> ns[x].key == NoKey)
    requires forall x :: 0 <= x < |ns| && ns[x].key != NoKey ==> ns'[x].key.k == ns[x].key.k
    requires forall x :: 0 <= x < |ns| && ns'[x].key.Live? ==> ns[x].key.Live?
    requires forall x :: 0 <= x < |ns| && ns'[x].key == NoKey ==> ns'[x].val == Nil
    ensures Valid(ns')
  {
    hide Reaches, Finite;
    SameLinks(ns, ns');
    forall i
      ensures LinkOk(ns', i)
    {
      assert LinkOk(ns, i);
    }
    forall i, j
      ensures NoShare(ns', i, j)
    {
      assert NoShare(ns, i, j);
    }
    forall i | Keyed(ns', i)
      ensures AtHome(ns', i)
    {
      assert AtHome(ns, i) && Home(ns', i) == Home(ns, i);
    }
  }

  lemma BuryValid(ns: seq<Node>, i: nat)
    requires Valid(ns) && i < |ns| && ns[i].key.Live? && ns[i].val == Nil
    ensures Valid(Bury(ns, i))
  {
    hide Valid;
    var ns' := Bury(ns, i);
    ValidKeyless(ns);
    SameKeys(ns, ns');
  }

  lemma BuryGet(ns: seq<Node>, i: nat, q: Key)
    requires Distinct(ns) && i < |ns| && ns[i].key.Live? && ns[i].val == Nil && Distinct(Bury(ns, i))
    ensures HashGet(Bury(ns, i), q) == HashGet(ns, q)
  {
    var ns' := Bury(ns, i);
    if HasKey(ns, q) {
      var j :| 0 <= j < |ns| && ns[j].key == Live(q);
      HashGetAt(ns, j, q);
      if j != i {
        HashGetAt(ns', j, q);
      } else {
        assert forall x :: 0 <= x < |ns'| && x != i ==> ns'[x].key == ns[x].key;
      }
    } else {
      assert !HasKey(ns', q) by {
        assert forall j :: 0 <= j < |ns'| && j != i ==> ns'[j].key == ns[j].key;
      }
    }
  }

  // ---------- the search loop ----------

  /** One turn of the search for `k`: the node looked at does not hold it. */
  lemma SearchNext(ns: seq<Node>, p: int, k: Key)
    requires Valid(ns) && 0 <= p < |ns| && ns[p].key != Live(k)
    requires forall i :: 0 <= i < |ns| && ns[i].key == Live(k) ==> Reaches(ns, p, i)
    ensures ns[p].next == 0 ==> !HasKey(ns, k)
    ensures ns[p].next != 0 ==> 0 <= p + ns[p].next < |ns|
    ensures forall i :: 0 <= i < |ns| && ns[i].key == Live(k) ==> Reaches(ns, p + ns[p].next, i)
  {
    assert LinkOk(ns, p);
    forall i | 0 <= i < |ns| && ns[i].key == Live(k)
      ensures ns[p].next != 0 && Reaches(ns, p + ns[p].next, i)
    {
      ReachesNext(ns, p, i);
    }
    hide Threaded, Homed, Reaches;
  }

  lemma SearchStart(ns: seq<Node>, k: Key)
    requires Valid(ns)
    ensures forall i :: 0 <= i < |ns| && ns[i].key == Live(k) ==> Reaches(ns, MainPosition(k, |ns|), i)
  {
    forall i | 0 <= i < |ns| && ns[i].key == Live(k)
      ensures Reaches(ns, MainPosition(k, |ns|), i)
    {
      assert AtHome(ns, i);
    }
  }

  lemma EndsNext(ns: seq<Node>, p: int, n: nat)
    requires Ends(ns, p, n) && ns[p].next != 0
    ensures n > 0 && Ends(ns, p + ns[p].next, n - 1)
  {
  }
}
