/** Traversal with `luaH_next`, also of a table whose existing entries change meanwhile. */
module TableTraverse {
  import opened TableNodes
  import opened TableMap
  import opened TableSteps
  import opened Wrappers

  /** Node `i` has key `k`, live or dead. */
  ghost predicate Named(ns: seq<Node>, i: int, k: Key) {
    Keyed(ns, i) && ns[i].key.k == k
  }

  /** Node `i` is the first in its chain with key `k`. */
  ghost predicate FirstNamed(ns: seq<Node>, i: int, k: Key) {
    Named(ns, i, k) && forall j :: Named(ns, j, k) ==> Reaches(ns, i, j)
  }

  /** `x` is where the traversal goes on after key `key`: array slots first, then nodes. */
  ghost predicate IndexOf(t: T, key: Option<Key>, x: nat) {
    match key
    case None => x == 0
    case Some(k) => if InArray(t, k) then x == k.i else FirstNamed(t.node, x - 1 - |t.arr|, k)
  }

  datatype NextResult = Entry(k: Key, v: Val) | End | InvalidKey

  ghost function Positions(t: T): nat {
    |t.arr| + |t.node|
  }

  ghost function ValAt(t: T, p: nat): Val
    requires p < Positions(t)
  {
    if p < |t.arr| then t.arr[p] else t.node[p - |t.arr|].val
  }

  /** Position `p` belongs to key `k`. */
  ghost predicate LiveAt(t: T, p: nat, k: Key) {
    if p < |t.arr| then k.Int? && k.i == p + 1 else p < Positions(t) && t.node[p - |t.arr|].key == Live(k)
  }

  /** Position `p` is the first one from `x` on that has a value. */
  ghost predicate FirstFull(t: T, x: nat, p: nat) {
    x <= p < Positions(t) && ValAt(t, p) != Nil && forall i :: x <= i < p ==> ValAt(t, i) == Nil
  }

  ghost predicate NoneFull(t: T, x: nat) {
    forall i :: x <= i < Positions(t) ==> ValAt(t, i) == Nil
  }

  /** What `luaH_next` answers when it goes on at `x`. */
  ghost predicate Answer(t: T, x: nat, r: NextResult) {
    match r
    case Entry(k, v) => exists p: nat :: FirstFull(t, x, p) && LiveAt(t, p, k) && v == ValAt(t, p)
    case End => NoneFull(t, x)
    case InvalidKey => false
  }

  /** `b` is `a` after stores to existing entries and collections: slots and links stay, keys may die. */
  ghost predicate Kept(a: T, b: T) {
    && |b.arr| == |a.arr| && |b.node| == |a.node|
    && forall i :: 0 <= i < |a.node| ==>
      && b.node[i].next == a.node[i].next
      && (b.node[i].key == a.node[i].key || (a.node[i].key.Live? && b.node[i].key == Dead(a.node[i].key.k)))
  }

  /** Calls of `next` so far: number `i` is made in state `ts[i]` with the key returned before, and returns
      `es[i]`. The last state is the one of the call to come. */
  ghost predicate Calls(ts: seq<T>, key: Option<Key>, es: seq<(Key, Val)>)
    decreases |es|
  {
    && |ts| == |es| + 1
    && (es != [] ==>
      && (exists x: nat :: IndexOf(ts[0], key, x) && Answer(ts[0], x, Entry(es[0].0, es[0].1)))
      && Kept(ts[0], ts[1]) && Calls(ts[1..], Some(es[0].0), es[1..]))
  }

  /** The key with which the next call is made. */
  ghost function LastKey(key: Option<Key>, es: seq<(Key, Val)>): Option<Key> {
    if es == [] then key else Some(es[|es| - 1].0)
  }

  /** A whole traversal: the next call returns no more. */
  ghost predicate Traversal(ts: seq<T>, key: Option<Key>, es: seq<(Key, Val)>) {
    Calls(ts, key, es) && exists y: nat :: IndexOf(ts[|es|], LastKey(key, es), y) && Answer(ts[|es|], y, End)
  }

  // ---------- chains are ordered ----------

  ghost predicate Length(ns: seq<Node>, i: int, n: nat)
    decreases n
  {
    0 <= i < |ns| && if n == 0 then ns[i].next == 0 else ns[i].next != 0 && Length(ns, i + ns[i].next, n - 1)
  }

  lemma HasLength(ns: seq<Node>, i: int, n: nat) returns (m: nat)
    requires Ends(ns, i, n)
    ensures Length(ns, i, m)
    decreases n
  {
    if ns[i].next == 0 {
      m := 0;
    } else {
      m := HasLength(ns, i + ns[i].next, n - 1);
      m := m + 1;
    }
  }

  lemma LengthUnique(ns: seq<Node>, i: int, n: nat, m: nat)
    requires Length(ns, i, n) && Length(ns, i, m)
    ensures n == m
    decreases n
  {
    if n > 0 && m > 0 {
      LengthUnique(ns, i + ns[i].next, n - 1, m - 1);
    }
  }

  /** Further down a chain, less of it is left. */
  lemma Shorter(ns: seq<Node>, i: int, j: int, n: nat, m: nat) returns (l: nat)
    requires Linked(ns, i, j, n) && Length(ns, i, m)
    ensures Length(ns, j, l) && l <= m && (i != j ==> l < m)
    decreases n
  {
    if i == j {
      l := m;
    } else {
      l := Shorter(ns, i + ns[i].next, j, n - 1, m - 1);
    }
  }

  lemma NoCycle(ns: seq<Node>, i: int, j: int)
    requires Threaded(ns) && 0 <= i < |ns| && Reaches(ns, i, j) && Reaches(ns, j, i)
    ensures i == j
  {
    hide Linked, Length, Ends;
    assert Finite(ns, i);
    var e: nat :| Ends(ns, i, e);
    var m := HasLength(ns, i, e);
    var a: nat :| Linked(ns, i, j, a);
    var b: nat :| Linked(ns, j, i, b);
    var l := Shorter(ns, i, j, a, m);
    var l' := Shorter(ns, j, i, b, l);
    LengthUnique(ns, i, m, l');
  }

  // ---------- returned keys are found again ----------

  /** In the table, or in what has become of it, the search for a key that was live finds its node. */
  lemma FoundAgain(a: T, b: T, i: nat, k: Key, j: int)
    requires TableValid(a) && TableValid(b) && Kept(a, b) && i < |a.node| && a.node[i].key == Live(k)
    requires FirstNamed(b.node, j, k)
    ensures j == i
  {
    hide Reaches, Finite;
    assert Named(b.node, i, k);
    SameLinks(a.node, b.node);
    assert Reaches(b.node, i, j) by {
      if j != i {
        assert a.node[j].key.k == k;
        assert a.node[j].key != Live(k);
        assert Reaches(a.node, i, j);
      }
      ReachesSelf(b.node, i);
    }
    NoCycle(b.node, i, j);
  }

  lemma IndexAgain(a: T, b: T, p: nat, k: Key, x: nat)
    requires TableValid(a) && TableValid(b) && Kept(a, b) && LiveAt(a, p, k) && IndexOf(b, Some(k), x)
    ensures x == p + 1
  {
    hide Valid, LiveFirst, FirstNamed;
    if p < |a.arr| {
      assert InArray(b, k);
    } else {
      assert !InArray(a, k) && !InArray(b, k);
      FoundAgain(a, b, p - |a.arr|, k, x - 1 - |b.arr|);
    }
  }

  lemma LiveBefore(a: T, b: T, p: nat, k: Key)
    requires Kept(a, b) && LiveAt(b, p, k)
    ensures LiveAt(a, p, k)
  {
  }

  lemma OnePosition(t: T, p: nat, q: nat, k: Key)
    requires TableValid(t) && LiveAt(t, p, k) && LiveAt(t, q, k)
    ensures p == q
  {
    hide Threaded, Homed, LiveFirst;
  }

  lemma PositionOf(t: T, k: Key) returns (p: nat)
    requires TableValid(t) && Get(t, k) != Nil
    ensures LiveAt(t, p, k) && p < Positions(t) && ValAt(t, p) == Get(t, k)
  {
    hide Threaded, Homed, LiveFirst;
    if InArray(t, k) {
      p := k.i - 1;
    } else {
      var i :| 0 <= i < |t.node| && t.node[i].key == Live(k);
      HashGetAt(t.node, i, k);
      p := |t.arr| + i;
    }
  }

  lemma PositionGet(t: T, p: nat, k: Key)
    requires TableValid(t) && LiveAt(t, p, k) && p < Positions(t)
    ensures ValAt(t, p) == Get(t, k)
  {
    hide Threaded, Homed, LiveFirst;
    if p >= |t.arr| {
      HashGetAt(t.node, p - |t.arr|, k);
    }
  }

  // ---------- traversals ----------

  ghost predicate AllValid(ts: seq<T>) {
    forall i :: 0 <= i < |ts| ==> TableValid(ts[i])
  }

  /** The first call and the rest. */
  lemma FirstCall(ts: seq<T>, key: Option<Key>, es: seq<(Key, Val)>, x: nat) returns (p: nat)
    requires AllValid(ts) && Calls(ts, key, es) && es != []
    requires forall y: nat :: IndexOf(ts[0], key, y) ==> y == x
    ensures |ts| == |es| + 1 && TableValid(ts[0])
    ensures FirstFull(ts[0], x, p) && LiveAt(ts[0], p, es[0].0) && es[0].1 == ValAt(ts[0], p)
    ensures Kept(ts[0], ts[1]) && Calls(ts[1..], Some(es[0].0), es[1..]) && AllValid(ts[1..])
    ensures forall y: nat :: IndexOf(ts[1], Some(es[0].0), y) ==> y == p + 1
  {
    p :| FirstFull(ts[0], x, p) && LiveAt(ts[0], p, es[0].0) && es[0].1 == ValAt(ts[0], p);
    assert TableValid(ts[0]) && TableValid(ts[1]);
    OnlyIndex(ts[0], ts[1], p, es[0].0);
    hide TableValid, IndexOf, FirstFull, LiveAt, Kept;
  }

  /** The next call goes on right after the position of the key returned. */
  lemma OnlyIndex(a: T, b: T, p: nat, k: Key)
    requires TableValid(a) && TableValid(b) && Kept(a, b) && LiveAt(a, p, k)
    ensures forall y: nat :: IndexOf(b, Some(k), y) ==> y == p + 1
  {
    hide TableValid, Kept, LiveAt;
    forall y: nat | IndexOf(b, Some(k), y)
      ensures y == p + 1
    {
      IndexAgain(a, b, p, k, y);
    }
  }

  /** Every key returned from `x` on belongs to a position from `x` on. */
  lemma {:induction false} ReturnedFrom(ts: seq<T>, key: Option<Key>, es: seq<(Key, Val)>, x: nat, i: nat) returns (q: nat)
    requires AllValid(ts) && Calls(ts, key, es) && i < |es|
    requires forall y: nat :: IndexOf(ts[0], key, y) ==> y == x
    ensures x <= q < Positions(ts[0]) && LiveAt(ts[0], q, es[i].0)
    ensures es[i].1 == Get(ts[i], es[i].0) && es[i].1 != Nil
    decreases |es|
  {
    hide TableValid, IndexOf, LiveAt, Kept, Traversal, Get, FirstFull, ValAt;
    var p := FirstCall(ts, key, es, x);
    if i == 0 {
      q := p;
      FirstAnswer(ts[0], x, p, es[0].0);
    } else {
      q := ReturnedFrom(ts[1..], Some(es[0].0), es[1..], p + 1, i - 1);
      LiveBefore(ts[0], ts[1], q, es[i].0);
      FirstIn(ts[0], ts[1], x, p, es[0].0);
    }
  }

  lemma FirstAnswer(t: T, x: nat, p: nat, k: Key)
    requires TableValid(t) && FirstFull(t, x, p) && LiveAt(t, p, k)
    ensures x <= p < Positions(t) && ValAt(t, p) == Get(t, k) && ValAt(t, p) != Nil
  {
    hide TableValid, Get, LiveAt;
    PositionGet(t, p, k);
  }

  lemma FirstIn(a: T, b: T, x: nat, p: nat, k: Key)
    requires FirstFull(a, x, p) && Kept(a, b)
    ensures x <= p < Positions(a) && Positions(b) == Positions(a)
  {
  }

  /** No key is returned twice, and each comes with its value at that moment. */
  lemma {:induction false} ReturnedOnce(ts: seq<T>, key: Option<Key>, es: seq<(Key, Val)>, x: nat)
    requires AllValid(ts) && Calls(ts, key, es)
    requires forall y: nat :: IndexOf(ts[0], key, y) ==> y == x
    ensures forall i, j :: 0 <= i < j < |es| ==> es[i].0 != es[j].0
    decreases |es|
  {
    hide TableValid, IndexOf, LiveAt, Kept, Traversal, Get, ValAt, FirstFull;
    if es != [] {
      var p := FirstCall(ts, key, es, x);
      ReturnedOnce(ts[1..], Some(es[0].0), es[1..], p + 1);
      forall j | 0 < j < |es|
        ensures es[0].0 != es[j].0
      {
        LaterDiffers(ts, es, p, j);
      }
      forall i, j | 0 <= i < j < |es|
        ensures es[i].0 != es[j].0
      {
        if i > 0 {
          assert es[1..][i - 1] == es[i] && es[1..][j - 1] == es[j];
        }
      }
    }
  }

  /** The key just returned does not come again. */
  lemma LaterDiffers(ts: seq<T>, es: seq<(Key, Val)>, p: nat, j: nat)
    requires 0 < j < |es| && |ts| == |es| + 1 && TableValid(ts[0]) && AllValid(ts[1..])
    requires LiveAt(ts[0], p, es[0].0) && Kept(ts[0], ts[1]) && Calls(ts[1..], Some(es[0].0), es[1..])
    requires forall y: nat :: IndexOf(ts[1], Some(es[0].0), y) ==> y == p + 1
    ensures es[0].0 != es[j].0
  {
    hide TableValid, IndexOf, LiveAt, Kept, Traversal, Get, ValAt;
    var q := ReturnedFrom(ts[1..], Some(es[0].0), es[1..], p + 1, j - 1);
    LiveBefore(ts[0], ts[1], q, es[j].0);
    if es[0].0 == es[j].0 {
      OnePosition(ts[0], p, q, es[0].0);
    }
  }

  ghost predicate Throughout(ts: seq<T>, k: Key) {
    forall i :: 0 <= i < |ts| ==> Get(ts[i], k) != Nil
  }

  /** A key that has a value all the time has been returned, or its position is still to come. */
  lemma {:induction false} ReturnedOrAhead(ts: seq<T>, key: Option<Key>, es: seq<(Key, Val)>, x: nat, k: Key, q: nat, y: nat)
    requires AllValid(ts) && Calls(ts, key, es) && Throughout(ts, k)
    requires forall z: nat :: IndexOf(ts[0], key, z) ==> z == x
    requires LiveAt(ts[0], q, k) && x <= q < Positions(ts[0])
    requires |ts| == |es| + 1 && IndexOf(ts[|es|], LastKey(key, es), y)
    ensures (exists i :: 0 <= i < |es| && es[i].0 == k) || (y <= q < Positions(ts[|es|]) && ValAt(ts[|es|], q) != Nil)
    decreases |es|
  {
    hide TableValid, LiveAt, Kept, Get, Calls, ValAt, IndexOf, FirstFull;
    PositionGet(ts[0], q, k);
    assert Get(ts[0], k) != Nil;
    if es != [] {
      var p := FirstCall(ts, key, es, x);
      FirstNotLater(ts[0], x, p, q);
      if p == q {
        SameKey(ts[0], p, k, es[0].0);
      } else {
        assert Get(ts[1], k) != Nil;
        SamePosition(ts[0], ts[1], q, k);
        assert Throughout(ts[1..], k);
        ReturnedOrAhead(ts[1..], Some(es[0].0), es[1..], p + 1, k, q, y);
        if i :| 0 <= i < |es[1..]| && es[1..][i].0 == k {
          assert es[i + 1].0 == k;
        }
      }
    }
  }

  lemma SamePosition(a: T, b: T, q: nat, k: Key)
    requires TableValid(a) && TableValid(b) && Kept(a, b) && LiveAt(a, q, k) && Get(b, k) != Nil
    ensures LiveAt(b, q, k) && q < Positions(b)
  {
    hide TableValid, Get;
    var q' := PositionOf(b, k);
    LiveBefore(a, b, q', k);
    OnePosition(a, q, q', k);
  }

  lemma CallCount(ts: seq<T>, key: Option<Key>, es: seq<(Key, Val)>)
    requires Calls(ts, key, es)
    ensures |ts| == |es| + 1
  {
  }

  lemma FirstNotLater(t: T, x: nat, p: nat, q: nat)
    requires FirstFull(t, x, p) && x <= q < Positions(t) && ValAt(t, q) != Nil
    ensures p <= q
  {
  }

  lemma SameKey(t: T, p: nat, k: Key, q: Key)
    requires LiveAt(t, p, k) && LiveAt(t, p, q)
    ensures k == q
  {
  }

  /** Calls that go on where they left off return no key twice, and each with its value at that moment. */
  lemma CallsDistinct(ts: seq<T>, es: seq<(Key, Val)>)
    requires AllValid(ts) && Calls(ts, None, es)
    ensures |ts| == |es| + 1
    ensures forall i, j :: 0 <= i < j < |es| ==> es[i].0 != es[j].0
    ensures forall i :: 0 <= i < |es| ==> es[i].1 == Get(ts[i], es[i].0) && es[i].1 != Nil
  {
    hide TableValid, LiveAt, Get, ValAt;
    ReturnedOnce(ts, None, es, 0);
    forall i | 0 <= i < |es|
      ensures es[i].1 == Get(ts[i], es[i].0) && es[i].1 != Nil
    {
      var q := ReturnedFrom(ts, None, es, 0, i);
    }
  }

  /** A whole traversal returns no key twice, gives each its current value, and returns every key that
      has a value throughout. */
  lemma TraversalComplete(ts: seq<T>, es: seq<(Key, Val)>)
    requires AllValid(ts) && Traversal(ts, None, es)
    ensures forall i, j :: 0 <= i < j < |es| ==> es[i].0 != es[j].0
    ensures forall i :: 0 <= i < |es| ==> es[i].1 == Get(ts[i], es[i].0) && es[i].1 != Nil
    ensures forall k :: Throughout(ts, k) ==> exists i :: 0 <= i < |es| && es[i].0 == k
  {
    CallsDistinct(ts, es);
    var y: nat :| IndexOf(ts[|es|], LastKey(None, es), y) && Answer(ts[|es|], y, End);
    forall k | Throughout(ts, k)
      ensures exists i :: 0 <= i < |es| && es[i].0 == k
    {
      assert Get(ts[0], k) != Nil;
      var q := PositionOf(ts[0], k);
      ReturnedOrAhead(ts, None, es, 0, k, q, y);
    }
    hide TableValid, LiveAt, Calls, Get, ValAt, IndexOf, AllValid;
  }

  /** On a table that nobody touches, the keys returned are those that have a value. */
  lemma TraversalUntouched(t: T, ts: seq<T>, es: seq<(Key, Val)>)
    requires TableValid(t) && (forall i :: 0 <= i < |ts| ==> ts[i] == t) && Traversal(ts, None, es)
    ensures (set i | 0 <= i < |es| :: es[i].0) == LiveKeys(t) && |es| == |LiveKeys(t)|
  {
    hide TableValid, LiveKeys, Calls, Get;
    assert AllValid(ts);
    TraversalComplete(ts, es);
    var S := set i | 0 <= i < |es| :: es[i].0;
    CallCount(ts, None, es);
    forall k
      ensures k in S <==> k in LiveKeys(t)
    {
      LiveKeysAre(t, k);
      if k in S {
        var i :| 0 <= i < |es| && es[i].0 == k;
      }
      if Get(t, k) != Nil {
        assert Throughout(ts, k);
      }
    }
    CountDistinct(es, |es|);
  }

  lemma CountDistinct(es: seq<(Key, Val)>, n: nat)
    requires n <= |es| && forall i, j :: 0 <= i < j < |es| ==> es[i].0 != es[j].0
    ensures |set i | 0 <= i < n :: es[i].0| == n
  {
    var S := set i | 0 <= i < n :: es[i].0;
    if n == 0 {
      assert S == {};
    } else {
      CountDistinct(es, n - 1);
      var S' := set i | 0 <= i < n - 1 :: es[i].0;
      assert S == S' + {es[n - 1].0};
      assert es[n - 1].0 !in S';
    }
  }

  // ---------- unfinished traversals ----------

  /** One more call, and what is done to the table after it. */
  lemma {:induction false} CallsNext(ts: seq<T>, key: Option<Key>, es: seq<(Key, Val)>, e: (Key, Val), x: nat, b: T)
    requires Calls(ts, key, es) && Kept(ts[|es|], b)
    requires IndexOf(ts[|es|], LastKey(key, es), x) && Answer(ts[|es|], x, Entry(e.0, e.1))
    ensures Calls(ts + [b], key, es + [e]) && LastKey(key, es + [e]) == Some(e.0)
    decreases |es|
  {
    hide IndexOf, Answer, Kept;
    if es == [] {
      assert (es + [e])[1..] == [] && (ts + [b])[1..] == [b];
    } else {
      CallsNext(ts[1..], Some(es[0].0), es[1..], e, x, b);
      assert (ts + [b])[1..] == ts[1..] + [b] && (es + [e])[1..] == es[1..] + [e];
    }
  }

  /** Each call goes on behind the one before, so there are at most as many as the table has positions. */
  lemma {:induction false} Progress(ts: seq<T>, key: Option<Key>, es: seq<(Key, Val)>, x: nat)
    requires AllValid(ts) && Calls(ts, key, es)
    requires forall y: nat :: IndexOf(ts[0], key, y) ==> y == x
    ensures forall y: nat :: IndexOf(ts[|es|], LastKey(key, es), y) ==> x + |es| <= y
    ensures es != [] ==> x + |es| <= Positions(ts[0])
    decreases |es|
  {
    hide TableValid, IndexOf, LiveAt, Kept, FirstFull, ValAt;
    if es != [] {
      var p := FirstCall(ts, key, es, x);
      FirstIn(ts[0], ts[1], x, p, es[0].0);
      Progress(ts[1..], Some(es[0].0), es[1..], p + 1);
      assert ts[1..][|es[1..]|] == ts[|es|] && LastKey(Some(es[0].0), es[1..]) == LastKey(key, es);
    }
  }

  /** On a table that nobody touches, calls that go on where they left off return keys that have a value, none
      twice; the next answer is the end exactly when all of them have been returned. */
  lemma CallsUntouched(t: T, ts: seq<T>, es: seq<(Key, Val)>, y: nat, r: NextResult)
    requires TableValid(t) && (forall i :: 0 <= i < |ts| ==> ts[i] == t) && Calls(ts, None, es)
    requires IndexOf(t, LastKey(None, es), y) && Answer(t, y, r)
    ensures (set i | 0 <= i < |es| :: es[i].0) <= LiveKeys(t) && |es| <= |LiveKeys(t)|
    ensures r.End? <==> |es| == |LiveKeys(t)|
  {
    hide TableValid, LiveKeys, Calls, Get, IndexOf, Answer, Kept;
    assert AllValid(ts);
    CallCount(ts, None, es);
    ReturnedLive(t, ts, es);
    AnswerValid(t, y, r);
    if r.End? {
      Finished(ts, es, y);
      TraversalUntouched(t, ts, es);
    } else {
      KeptSelf(t);
      CallsNext(ts, None, es, (r.k, r.v), y, t);
      ReturnedLive(t, ts + [t], es + [(r.k, r.v)]);
    }
  }

  lemma Finished(ts: seq<T>, es: seq<(Key, Val)>, y: nat)
    requires Calls(ts, None, es) && IndexOf(ts[|es|], LastKey(None, es), y) && Answer(ts[|es|], y, End)
    ensures Traversal(ts, None, es)
  {
  }

  lemma ReturnedLive(t: T, ts: seq<T>, es: seq<(Key, Val)>)
    requires TableValid(t) && (forall i :: 0 <= i < |ts| ==> ts[i] == t) && Calls(ts, None, es)
    ensures (set i | 0 <= i < |es| :: es[i].0) <= LiveKeys(t) && |es| <= |LiveKeys(t)|
  {
    hide TableValid, LiveKeys, Calls, Get;
    assert AllValid(ts);
    CallsDistinct(ts, es);
    forall i | 0 <= i < |es|
      ensures es[i].0 in LiveKeys(t)
    {
      LiveKeysAre(t, es[i].0);
    }
    CountDistinct(es, |es|);
    SubsetSize(set i | 0 <= i < |es| :: es[i].0, LiveKeys(t));
  }

  lemma AnswerValid(t: T, y: nat, r: NextResult)
    requires Answer(t, y, r)
    ensures r != InvalidKey
  {
  }

  lemma KeptSelf(t: T)
    ensures Kept(t, t)
  {
  }

  // ---------- what keeps a table traversable ----------

  lemma StoreKept(t: T, cell: Cell, k: Key, v: Val)
    requires CellFor(t, cell, k)
    ensures Kept(t, Stored(t, cell, v))
  {
  }

  lemma BuryKept(t: T, i: nat)
    requires i < |t.node| && t.node[i].key.Live?
    ensures Kept(t, t.(node := Bury(t.node, i)))
  {
  }

  lemma KeptTrans(a: T, b: T, c: T)
    requires Kept(a, b) && Kept(b, c)
    ensures Kept(a, c)
  {
  }

  /** The next call never fails: a returned key still has its node, dead or alive. */
  lemma NeverInvalid(a: T, b: T, p: nat, k: Key)
    requires Kept(a, b) && LiveAt(a, p, k)
    ensures InArray(b, k) || exists i :: Named(b.node, i, k)
  {
    if p >= |a.arr| {
      assert Named(b.node, p - |a.arr|, k);
    }
  }
}
