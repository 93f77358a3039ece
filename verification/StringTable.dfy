/** The table of interned strings: chains through the strings themselves, rechained in place on resize. */
module StringTable {
  import opened Bytes
  import opened Division
  import opened Powers
  import opened Sequences

  type Id = nat

  datatype Link = Null | To(id: Id)

  const MAX_INT: nat := 0x7fff_ffff
  const MINSTRTABSIZE: nat := 128

  // ---------- chains ----------

  /** `s` is the chain that starts at `l`. */
  ghost predicate IsChain(hnext: map<Id, Link>, l: Link, s: seq<Id>)
    decreases |s|
  {
    if s == [] then l == Null else l == To(s[0]) && s[0] in hnext && IsChain(hnext, hnext[s[0]], s[1..])
  }

  lemma {:induction false} ChainSame(hnext: map<Id, Link>, hnext': map<Id, Link>, l: Link, s: seq<Id>)
    requires IsChain(hnext, l, s) && forall i :: 0 <= i < |s| ==> s[i] in hnext' && (s[i] in hnext ==> hnext'[s[i]] == hnext[s[i]])
    ensures IsChain(hnext', l, s)
    decreases |s|
  {
    if s != [] {
      assert hnext'[s[0]] == hnext[s[0]];
      ChainSame(hnext, hnext', hnext[s[0]], s[1..]);
    }
  }

  lemma {:induction false} ChainTail(hnext: map<Id, Link>, l: Link, s: seq<Id>, i: nat)
    requires IsChain(hnext, l, s) && i < |s|
    ensures s[i] in hnext && IsChain(hnext, To(s[i]), s[i..]) && IsChain(hnext, hnext[s[i]], s[i + 1..])
    decreases |s|
  {
    if i > 0 {
      ChainTail(hnext, hnext[s[0]], s[1..], i - 1);
      assert s[1..][i - 1..] == s[i..] && s[1..][i..] == s[i + 1..];
    }
  }

  /** No string is in two chains or twice in one. */
  ghost predicate Distinct(chains: seq<seq<Id>>) {
    forall i, j, a, b :: 0 <= i < |chains| && 0 <= j < |chains| && 0 <= a < |chains[i]| && 0 <= b < |chains[j]| && chains[i][a] == chains[j][b] ==> i == j && a == b
  }

  ghost function Ids(chains: seq<seq<Id>>): set<Id> {
    set i, a | 0 <= i < |chains| && 0 <= a < |chains[i]| :: chains[i][a]
  }

  ghost predicate Linked(bucket: seq<Link>, hnext: map<Id, Link>, chains: seq<seq<Id>>) {
    |chains| == |bucket| && forall i :: 0 <= i < |bucket| ==> IsChain(hnext, bucket[i], chains[i])
  }

  // ---------- moving a string to the front of a chain ----------

  function PushTo(chains: seq<seq<Id>>, h: nat, p: Id): seq<seq<Id>>
    requires h < |chains|
  {
    chains[h := [p] + chains[h]]
  }

  lemma PushLinked(bucket: seq<Link>, hnext: map<Id, Link>, chains: seq<seq<Id>>, h: nat, p: Id)
    requires Linked(bucket, hnext, chains) && h < |bucket| && p !in Ids(chains)
    ensures Linked(bucket[h := To(p)], hnext[p := bucket[h]], PushTo(chains, h, p))
  {
    var hnext' := hnext[p := bucket[h]];
    forall i | 0 <= i < |bucket|
      ensures IsChain(hnext', bucket[i], chains[i])
    {
      forall a | 0 <= a < |chains[i]|
        ensures chains[i][a] in hnext' && (chains[i][a] in hnext ==> hnext'[chains[i][a]] == hnext[chains[i][a]])
      {
        ChainTail(hnext, bucket[i], chains[i], a);
        assert chains[i][a] in Ids(chains);
      }
      ChainSame(hnext, hnext', bucket[i], chains[i]);
    }
    assert ([p] + chains[h])[1..] == chains[h];
  }

  lemma PushDistinct(chains: seq<seq<Id>>, h: nat, p: Id)
    requires Distinct(chains) && h < |chains| && p !in Ids(chains)
    ensures Distinct(PushTo(chains, h, p)) && Ids(PushTo(chains, h, p)) == Ids(chains) + {p}
  {
    var d := PushTo(chains, h, p);
    forall j, b | 0 <= j < |chains| && 0 <= b < |chains[j]|
      ensures chains[j][b] != p
    {
      assert chains[j][b] in Ids(chains);
    }
    forall i, j, a, b | 0 <= i < |d| && 0 <= j < |d| && 0 <= a < |d[i]| && 0 <= b < |d[j]| && d[i][a] == d[j][b]
      ensures i == j && a == b
    {
      var a', b' := if i == h then a - 1 else a, if j == h then b - 1 else b;
      assert a' >= 0 ==> d[i][a] == chains[i][a'];
      assert b' >= 0 ==> d[j][b] == chains[j][b'];
    }
    PushIds(chains, h, p);
  }

  lemma PushIds(chains: seq<seq<Id>>, h: nat, p: Id)
    requires h < |chains|
    ensures Ids(PushTo(chains, h, p)) == Ids(chains) + {p}
  {
    var d := PushTo(chains, h, p);
    forall x
      ensures x in Ids(d) <==> x in Ids(chains) || x == p
    {
      if x in Ids(chains) {
        var i, a :| 0 <= i < |chains| && 0 <= a < |chains[i]| && chains[i][a] == x;
        assert d[i][if i == h then a + 1 else a] == x;
      }
      if x == p {
        assert d[h][0] == p;
      }
      if x in Ids(d) {
        var i, a :| 0 <= i < |d| && 0 <= a < |d[i]| && d[i][a] == x;
        if i == h && a == 0 {
        } else {
          assert chains[i][if i == h then a - 1 else a] == x;
        }
      }
    }
  }

  /** A chain taken out of the table. */
  lemma TakeOut(chains: seq<seq<Id>>, i: nat)
    requires Distinct(chains) && i < |chains|
    ensures Distinct(chains[i := []]) && Ids(chains) == Ids(chains[i := []]) + (set a | 0 <= a < |chains[i]| :: chains[i][a])
    ensures forall a :: 0 <= a < |chains[i]| ==> chains[i][a] !in Ids(chains[i := []])
  {
    var d, S := chains[i := []], set a | 0 <= a < |chains[i]| :: chains[i][a];
    forall x
      ensures x in Ids(chains) <==> x in Ids(d) || x in S
    {
      if x in Ids(chains) {
        var j, a :| 0 <= j < |chains| && 0 <= a < |chains[j]| && chains[j][a] == x;
        if j != i {
          assert d[j][a] == x;
        }
      }
      if x in Ids(d) {
        var j, a :| 0 <= j < |d| && 0 <= a < |d[j]| && d[j][a] == x;
        assert chains[j][a] == x;
      }
    }
    forall a | 0 <= a < |chains[i]|
      ensures chains[i][a] !in Ids(d)
    {
      forall j, b | 0 <= j < |d| && 0 <= b < |d[j]|
        ensures d[j][b] != chains[i][a]
      {
        assert d[j][b] == chains[j][b];
      }
    }
  }

  // ---------- positions ----------

  /** One size is a multiple of the other, as powers of two are. */
  ghost predicate Compatible(a: nat, b: nat) {
    a > 0 && b > 0 && ((exists k: nat :: IsTimes(b, a, k)) || (exists k: nat :: IsTimes(a, b, k)))
  }

  predicate IsTimes(b: nat, a: nat, k: nat) {
    b == a * k
  }

  lemma ModTimes(x: nat, a: nat, k: nat)
    requires a > 0 && k > 0
    ensures a * k > 0 && (x % (a * k)) % a == x % a
  {
    var b := a * k;
    assert b > 0;
    var q, r := x / b, x % b;
    assert x == b * q + r;
    assert b * q == a * (k * q);
    ModPlus(r, a, k * q);
  }

  lemma ModPlus(r: nat, a: nat, m: nat)
    requires a > 0
    ensures (a * m + r) % a == r % a
  {
    if m > 0 {
      assert a * m + r == (a * (m - 1) + r) + a;
      ModPlus(r, a, m - 1);
      AddOnce(a * (m - 1) + r, a);
    }
  }

  lemma AddOnce(y: nat, a: nat)
    requires a > 0
    ensures (y + a) % a == y % a
  {
    var q, r := y / a, y % a;
    assert y + a == a * (q + 1) + r;
    DivUnique(y + a, a, q + 1, r);
  }

  lemma TimesPositive(b: nat, a: nat, k: nat)
    requires IsTimes(b, a, k) && b > 0
    ensures k > 0
  {
  }

  /** A string of bucket `i` stays there, or goes to a bucket that has been dealt with or is new. */
  lemma NewPosition(x: nat, oldsize: nat, newsize: nat, i: nat)
    requires Compatible(oldsize, newsize) && x % oldsize == i
    ensures x % newsize == i || x % newsize >= oldsize || (x % newsize < i && newsize <= i)
    ensures x % newsize < newsize
  {
    if k: nat :| IsTimes(newsize, oldsize, k) {
      TimesPositive(newsize, oldsize, k);
      ModTimes(x, oldsize, k);
      if x % newsize < oldsize {
        SmallMod(x % newsize, oldsize);
      }
    } else {
      var k: nat :| IsTimes(oldsize, newsize, k);
      TimesPositive(oldsize, newsize, k);
      ModTimes(x, newsize, k);
      if i < newsize {
        SmallMod(i, newsize);
      }
    }
  }

  lemma SmallMod(x: nat, a: nat)
    requires x < a
    ensures x % a == x
  {
  }

  /** Every two sizes that the table may have are compatible. */
  lemma PowersCompatible(i: nat, j: nat)
    ensures Compatible(Pow2(i), Pow2(j))
  {
    if i <= j {
      Pow2Add(i, j - i);
      assert IsTimes(Pow2(j), Pow2(i), Pow2(j - i));
    } else {
      Pow2Add(j, i - j);
      assert IsTimes(Pow2(i), Pow2(j), Pow2(i - j));
    }
  }

  // ---------- resizing ----------

  /** Strings in buckets from `i` up to the old size are still where the old size puts them, the others
      where the new one does. */
  ghost predicate Located(hash: map<Id, nat>, chains: seq<seq<Id>>, i: nat, oldsize: nat, newsize: nat)
    requires oldsize > 0 && newsize > 0
  {
    forall j, a :: 0 <= j < |chains| && 0 <= a < |chains[j]| ==> LocatedAt(hash, chains[j][a], j, if i <= j < oldsize then oldsize else newsize)
  }

  ghost predicate LocatedAt(hash: map<Id, nat>, id: Id, j: nat, size: nat)
    requires size > 0
  {
    id in hash && hash[id] % size == j
  }

  ghost predicate AllLocated(hash: map<Id, nat>, ids: seq<Id>, j: nat, size: nat)
    requires size > 0
  {
    forall a :: 0 <= a < |ids| ==> LocatedAt(hash, ids[a], j, size)
  }

  lemma PushLocated(hash: map<Id, nat>, chains: seq<seq<Id>>, i: nat, oldsize: nat, newsize: nat, p: Id)
    requires oldsize > 0 && newsize > 0 && Compatible(oldsize, newsize) && i < oldsize && oldsize <= |chains| && newsize <= |chains|
    requires Located(hash, chains, i + 1, oldsize, newsize) && LocatedAt(hash, p, i, oldsize)
    ensures Located(hash, PushTo(chains, hash[p] % newsize, p), i + 1, oldsize, newsize)
  {
    NewPosition(hash[p], oldsize, newsize, i);
    var h := hash[p] % newsize;
    var d := PushTo(chains, h, p);
    forall j, a | 0 <= j < |d| && 0 <= a < |d[j]|
      ensures LocatedAt(hash, d[j][a], j, if i + 1 <= j < oldsize then oldsize else newsize)
    {
      if j == h && a > 0 {
        assert d[j][a] == chains[j][a - 1];
      } else if j != h {
        assert d[j][a] == chains[j][a];
      }
    }
  }

  /** What the inner loop of the resize keeps: `rest` is still to be moved from bucket `i`. */
  ghost predicate Moving(bucket: seq<Link>, hnext: map<Id, Link>, chains: seq<seq<Id>>, p: Link, rest: seq<Id>, ids: set<Id>) {
    && Linked(bucket, hnext, chains) && Distinct(chains) && IsChain(hnext, p, rest)
    && (forall a, b :: 0 <= a < b < |rest| ==> rest[a] != rest[b])
    && (forall a :: 0 <= a < |rest| ==> rest[a] !in Ids(chains))
    && ids == Ids(chains) + (set a | 0 <= a < |rest| :: rest[a])
  }

  lemma MoveStart(bucket: seq<Link>, hnext: map<Id, Link>, chains: seq<seq<Id>>, i: nat)
    requires Linked(bucket, hnext, chains) && Distinct(chains) && i < |bucket|
    ensures Moving(bucket[i := Null], hnext, chains[i := []], bucket[i], chains[i], Ids(chains))
  {
    TakeOut(chains, i);
  }

  lemma MoveStep(bucket: seq<Link>, hnext: map<Id, Link>, chains: seq<seq<Id>>, rest: seq<Id>, ids: set<Id>, h: nat)
    requires rest != [] && Moving(bucket, hnext, chains, To(rest[0]), rest, ids) && h < |bucket|
    ensures rest[0] in hnext
    ensures var q := rest[0];
      Moving(bucket[h := To(q)], hnext[q := bucket[h]], PushTo(chains, h, q), hnext[q], rest[1..], ids)
  {
    var q := rest[0];
    var hnext' := hnext[q := bucket[h]];
    PushLinked(bucket, hnext, chains, h, q);
    PushDistinct(chains, h, q);
    forall a | 0 <= a < |rest[1..]|
      ensures rest[1..][a] in hnext'
    {
      ChainTail(hnext, To(q), rest, a + 1);
    }
    ChainSame(hnext, hnext', hnext[q], rest[1..]);
    assert forall a :: 0 <= a < |rest| - 1 ==> rest[1..][a] == rest[a + 1];
    assert (set a | 0 <= a < |rest| :: rest[a]) == {q} + (set a | 0 <= a < |rest[1..]| :: rest[1..][a]) by {
      assert forall x :: x in (set a | 0 <= a < |rest| :: rest[a]) ==> x == q || x in rest[1..];
      assert forall x :: x in rest[1..] ==> x in rest;
    }
    hide Linked, Distinct, Ids, IsChain;
  }

  lemma NotBeyond(hash: map<Id, nat>, id: Id, j: nat, size: nat)
    requires 0 < size <= j
    ensures !LocatedAt(hash, id, j, size)
  {
  }

  lemma EmptyBeyond(hash: map<Id, nat>, s: seq<Id>, j: nat, size: nat)
    requires 0 < size <= j && forall a :: 0 <= a < |s| ==> LocatedAt(hash, s[a], j, size)
    ensures s == []
  {
    if |s| > 0 {
      NotBeyond(hash, s[0], j, size);
    }
  }

  /** After the resize, the buckets beyond the new size are empty. */
  lemma VanishingEmpty(hash: map<Id, nat>, chains: seq<seq<Id>>, oldsize: nat, newsize: nat)
    requires oldsize > 0 && newsize > 0 && Located(hash, chains, oldsize, oldsize, newsize) && newsize <= |chains|
    ensures forall j :: newsize <= j < |chains| ==> chains[j] == []
    ensures Ids(chains[..newsize]) == Ids(chains)
  {
    forall j, a | 0 <= j < |chains| && 0 <= a < |chains[j]|
      ensures LocatedAt(hash, chains[j][a], j, newsize)
    {
      assert chains[j][a] == chains[j][a];
    }
    forall j | newsize <= j < |chains|
      ensures chains[j] == []
    {
      EmptyBeyond(hash, chains[j], j, newsize);
    }
    var d := chains[..newsize];
    forall x
      ensures x in Ids(d) <==> x in Ids(chains)
    {
      if x in Ids(chains) {
        var j, a :| 0 <= j < |chains| && 0 <= a < |chains[j]| && chains[j][a] == x;
        assert d[j][a] == x;
      }
      if x in Ids(d) {
        var j, a :| 0 <= j < |d| && 0 <= a < |d[j]| && d[j][a] == x;
        assert chains[j][a] == x;
      }
    }
  }

  // ---------- the table ----------

  /** Every string is in the bucket of its hash. */
  ghost predicate Placed(hash: map<Id, nat>, chains: seq<seq<Id>>) {
    forall i, a :: 0 <= i < |chains| && 0 <= a < |chains[i]| ==> LocatedAt(hash, chains[i][a], i, |chains|)
  }

  /** Strings know their hashes, and no two strings of the table are equal. */
  ghost predicate Interned(hashOf: seq<byte> -> nat, str: map<Id, seq<byte>>, hash: map<Id, nat>, ids: set<Id>) {
    && (forall x :: x in ids ==> x in str && x in hash && hash[x] == hashOf(str[x]))
    && (forall x, y :: x in ids && y in ids && x in str && y in str && str[x] == str[y] ==> x == y)
  }

  class Table {
    const hashOf: seq<byte> -> nat
    var str: map<Id, seq<byte>>
    var hash: map<Id, nat>
    var hnext: map<Id, Link>
    var bucket: seq<Link>
    var nuse: int
    ghost var chains: seq<seq<Id>>

    ghost predicate Valid()
      reads this
    {
      && |bucket| > 0 && Linked(bucket, hnext, chains) && Distinct(chains) && Placed(hash, chains)
      && Interned(hashOf, str, hash, Ids(chains)) && nuse == |Ids(chains)|
    }

    /** The strings of the table. */
    ghost function Strings(): set<Id>
      reads this
    {
      Ids(chains)
    }

    /** The table that `luaS_init` makes. */
    constructor (hashOf: seq<byte> -> nat)
      ensures Valid() && Strings() == {} && this.hashOf == hashOf && |bucket| == MINSTRTABSIZE
    {
      this.hashOf := hashOf;
      str, hash, hnext, nuse := map[], map[], map[], 0;
      bucket := Times(MINSTRTABSIZE, Null);
      chains := Times(MINSTRTABSIZE, []);
      new;
      assert Ids(chains) == {};
    }

    /** `luaS_resize`: the vector is rechained in place. */
    method Resize(newsize: nat)
      requires Valid() && Compatible(|bucket|, newsize)
      modifies `hnext, `bucket, `chains
      ensures Valid() && |bucket| == newsize && Strings() == old(Strings())
    {
      hide Linked, Distinct, Ids, Located, AllLocated, Moving, Placed, Interned, IsChain, Compatible;
      var size := |bucket|;
      ghost var ids := Ids(chains);
      CompatiblePositive(size, newsize);
      StartResize(bucket, hnext, hash, chains, newsize);
      if newsize > size {
        bucket := bucket + Times(newsize - size, Null);
        chains := chains + Times(newsize - size, []);
      }
      var i := 0;
      while i < size
        invariant 0 <= i <= size && |bucket| == |chains| == if newsize > size then newsize else size
        invariant Linked(bucket, hnext, chains) && Distinct(chains) && Ids(chains) == ids && Located(hash, chains, i, size, newsize)
      {
        var p := bucket[i];
        ghost var rest := chains[i];
        MoveStart(bucket, hnext, chains, i);
        LocatedStart(hash, chains, i, size, newsize);
        bucket := bucket[i := Null];
        chains := chains[i := []];
        while p != Null
          invariant |bucket| == |chains| == if newsize > size then newsize else size
          invariant Moving(bucket, hnext, chains, p, rest, ids) && Located(hash, chains, i + 1, size, newsize)
          invariant AllLocated(hash, rest, i, size)
          decreases |rest|
        {
          MoveTurn(bucket, hnext, hash, chains, p, rest, ids, i, size, newsize);
          var next := hnext[p.id];
          var h := hash[p.id] % newsize;
          hnext := hnext[p.id := bucket[h]];
          bucket := bucket[h := p];
          chains := PushTo(chains, h, p.id);
          rest := rest[1..];
          p := next;
        }
        MovingEnd(bucket, hnext, chains, rest, ids);
        i := i + 1;
      }
      VanishingEmpty(hash, chains, size, newsize);
      EndResize(bucket, hnext, hash, chains, size, newsize);
      if newsize < size {
        assert bucket[newsize] == Null && bucket[size - 1] == Null;
        bucket := bucket[..newsize];
        chains := chains[..newsize];
      }
    }

    /** The search of `internshrstr`: the string of the table with text `s`. */
    method Find(s: seq<byte>) returns (ts: Link)
      requires Valid()
      ensures ts != Null ==> ts.id in Strings() && ts.id in str && str[ts.id] == s
      ensures ts == Null ==> forall x :: x in Strings() && x in str ==> str[x] != s
    {
      hide Distinct, Placed;
      var h := hashOf(s) % |bucket|;
      ts := bucket[h];
      ghost var i := 0;
      assert chains[h][0..] == chains[h];
      while ts != Null
        invariant 0 <= i <= |chains[h]| && IsChain(hnext, ts, chains[h][i..])
        invariant forall a :: 0 <= a < i ==> chains[h][a] in str && str[chains[h][a]] != s
        decreases |chains[h]| - i
      {
        ChainMember(hnext, bucket[h], chains[h], i);
        assert chains[h][i] in Ids(chains);
        if str[ts.id] == s {
          return;
        }
        ts := hnext[ts.id];
        i := i + 1;
      }
      NotElsewhere(hashOf, str, hash, chains, s);
    }

    /** `internshrstr`, without the resurrection of dead strings, which does not concern the table. */
    method Intern(s: seq<byte>) returns (ts: Id)
      requires Valid()
      modifies this
      ensures Valid() && ts in Strings() && ts in str && str[ts] == s
      ensures (exists x :: x in old(Strings()) && x in old(str) && old(str)[x] == s) ==> ts in old(Strings()) && Strings() == old(Strings())
      ensures (forall x :: x in old(Strings()) && x in old(str) ==> old(str)[x] != s) ==> ts !in old(str) && Strings() == old(Strings()) + {ts}
      ensures forall x :: x in old(str) ==> x in str && str[x] == old(str)[x]
      ensures Strings() == old(Strings()) ==> |bucket| == old(|bucket|)
      ensures Strings() != old(Strings()) ==>
        |bucket| == if |old(Strings())| >= old(|bucket|) && old(|bucket|) <= 0x3fff_ffff then 2 * old(|bucket|) else old(|bucket|)
    {
      hide Linked, Distinct, Ids, Placed, Interned, IsChain, Compatible;
      var found := Find(s);
      if found != Null {
        return found.id;
      }
      if nuse >= |bucket| && |bucket| <= MAX_INT / 2 {
        Doubled(|bucket|);
        Resize(|bucket| * 2);
      }
      ts := Create(s);
    }

    /** `createstrobj`, and linking the new string in. */
    method Create(s: seq<byte>) returns (ts: Id)
      requires Valid() && forall x :: x in Strings() && x in str ==> str[x] != s
      modifies this
      ensures Valid() && ts !in old(str) && ts !in old(Strings()) && str == old(str)[ts := s]
      ensures Strings() == old(Strings()) + {ts} && |bucket| == old(|bucket|)
    {
      hide Linked, Distinct, Ids, Placed, Interned, IsChain, Compatible;
      ts := Fresh();
      var h := hashOf(s) % |bucket|;
      InternedIn(hashOf, str, hash, chains, ts);
      AddLinked(bucket, hnext, hash, chains, h, ts, hashOf(s));
      AddInterned(hashOf, str, hash, Ids(chains), ts, s);
      str, hash := str[ts := s], hash[ts := hashOf(s)];
      hnext := hnext[ts := bucket[h]];
      bucket := bucket[h := To(ts)];
      nuse := nuse + 1;
      chains := PushTo(chains, h, ts);
    }

    /** `createstrobj` gives an object not in use. */
    method Fresh() returns (id: Id)
      ensures id !in str && id !in hnext && id !in hash
    {
      ghost var used := str.Keys + hnext.Keys + hash.Keys;
      NotAll(used);
      id :| id !in str && id !in hnext && id !in hash;
    }

    /** `luaS_remove`: `ts` leaves its chain. */
    method Remove(ts: Id)
      requires Valid() && ts in Strings()
      modifies `hnext, `bucket, `nuse, `chains
      ensures Valid() && Strings() == old(Strings()) - {ts}
    {
      hide Linked, Distinct, Ids, Placed, Interned, IsChain;
      BucketsCount(bucket, hnext, chains);
      ghost var i := PlaceOf(hash, chains, ts);
      var h := hash[ts] % |bucket|;
      var prev, p := Null, bucket[h];
      ghost var a := 0;
      LinkedChain(bucket, hnext, chains, h);
      while p != To(ts)
        invariant 0 <= a <= i < |chains[h]| && IsChain(hnext, p, chains[h][a..])
        invariant if a == 0 then prev == Null else prev == To(chains[h][a - 1])
        modifies {}
        decreases i - a
      {
        ChainFirst(hnext, p, chains[h], a);
        prev, p, a := p, hnext[p.id], a + 1;
      }
      ChainFirst(hnext, p, chains[h], a);
      SameMember(chains, h, a, i, ts);
      RemoveLinked(bucket, hnext, hash, chains, h, i);
      RemoveInterned(hashOf, str, hash, Ids(chains), ts);
      if prev == Null {
        bucket := bucket[h := hnext[ts]];
      } else {
        hnext := hnext[prev.id := hnext[ts]];
      }
      nuse := nuse - 1;
      chains := chains[h := Without(chains[h], i)];
    }
  }

  lemma Doubled(size: nat)
    requires size > 0
    ensures Compatible(size, size * 2)
  {
    assert IsTimes(size * 2, size, 2);
  }

  lemma NotAll(used: set<Id>)
    ensures exists id: Id :: id !in used
  {
    var m := Bound(used);
    assert m !in used;
  }

  ghost function Bound(used: set<Id>): (m: nat)
    ensures forall x :: x in used ==> x < m
    decreases |used|
  {
    if used == {} then 0
    else
      var x :| x in used;
      var m := Bound(used - {x});
      assert forall y :: y in used ==> y == x || y in used - {x};
      if x < m then m else x + 1
  }

  lemma ChainMember(hnext: map<Id, Link>, l: Link, s: seq<Id>, i: nat)
    requires IsChain(hnext, l, s)
    ensures i < |s| ==> s[i] in hnext && IsChain(hnext, hnext[s[i]], s[i + 1..])
    ensures i < |s| ==> IsChain(hnext, To(s[i]), s[i..])
    ensures i == |s| ==> s[i..] == []
  {
    if i < |s| {
      ChainTail(hnext, l, s, i);
    }
  }

  lemma InternedIn(hashOf: seq<byte> -> nat, str: map<Id, seq<byte>>, hash: map<Id, nat>, chains: seq<seq<Id>>, ts: Id)
    requires Interned(hashOf, str, hash, Ids(chains)) && ts !in str
    ensures ts !in Ids(chains)
  {
  }

  lemma AddLinked(bucket: seq<Link>, hnext: map<Id, Link>, hash: map<Id, nat>, chains: seq<seq<Id>>, h: nat, ts: Id, v: nat)
    requires Linked(bucket, hnext, chains) && Distinct(chains) && Placed(hash, chains) && ts !in Ids(chains) && h < |bucket| && h == v % |bucket|
    ensures h < |chains|
    ensures Linked(bucket[h := To(ts)], hnext[ts := bucket[h]], PushTo(chains, h, ts)) && Distinct(PushTo(chains, h, ts))
    ensures Placed(hash[ts := v], PushTo(chains, h, ts)) && Ids(PushTo(chains, h, ts)) == Ids(chains) + {ts}
    ensures |Ids(PushTo(chains, h, ts))| == |Ids(chains)| + 1
  {
    PushLinked(bucket, hnext, chains, h, ts);
    PushDistinct(chains, h, ts);
    var d := PushTo(chains, h, ts);
    forall i, a | 0 <= i < |d| && 0 <= a < |d[i]|
      ensures LocatedAt(hash[ts := v], d[i][a], i, |d|)
    {
      if i == h && a == 0 {
      } else {
        assert d[i][a] == chains[i][if i == h then a - 1 else a];
        assert d[i][a] in Ids(chains);
      }
    }
  }

  lemma AddInterned(hashOf: seq<byte> -> nat, str: map<Id, seq<byte>>, hash: map<Id, nat>, ids: set<Id>, ts: Id, s: seq<byte>)
    requires Interned(hashOf, str, hash, ids) && ts !in ids && forall x :: x in ids && x in str ==> str[x] != s
    ensures Interned(hashOf, str[ts := s], hash[ts := hashOf(s)], ids + {ts})
  {
  }

  lemma RemoveInterned(hashOf: seq<byte> -> nat, str: map<Id, seq<byte>>, hash: map<Id, nat>, ids: set<Id>, ts: Id)
    requires Interned(hashOf, str, hash, ids)
    ensures Interned(hashOf, str, hash, ids - {ts})
  {
  }

  lemma PlaceOf(hash: map<Id, nat>, chains: seq<seq<Id>>, ts: Id) returns (i: nat)
    requires Placed(hash, chains) && ts in Ids(chains) && |chains| > 0
    ensures ts in hash && var h := hash[ts] % |chains|; i < |chains[h]| && chains[h][i] == ts
  {
    var j, a :| 0 <= j < |chains| && 0 <= a < |chains[j]| && chains[j][a] == ts;
    assert LocatedAt(hash, ts, j, |chains|);
    i := a;
  }

  lemma BucketsCount(bucket: seq<Link>, hnext: map<Id, Link>, chains: seq<seq<Id>>)
    requires Linked(bucket, hnext, chains)
    ensures |bucket| == |chains|
  {
  }

  lemma LinkedChain(bucket: seq<Link>, hnext: map<Id, Link>, chains: seq<seq<Id>>, h: nat)
    requires Linked(bucket, hnext, chains) && h < |bucket|
    ensures h < |chains| && IsChain(hnext, bucket[h], chains[h][0..])
  {
    assert chains[h][0..] == chains[h];
  }

  lemma ChainFirst(hnext: map<Id, Link>, p: Link, s: seq<Id>, a: nat)
    requires a < |s| && IsChain(hnext, p, s[a..])
    ensures p == To(s[a]) && p.id in hnext && IsChain(hnext, hnext[p.id], s[a + 1..])
  {
    assert s[a..][1..] == s[a + 1..];
  }

  /** A string of which the bucket of its hash has no copy is not in the table. */
  lemma NotElsewhere(hashOf: seq<byte> -> nat, str: map<Id, seq<byte>>, hash: map<Id, nat>, chains: seq<seq<Id>>, s: seq<byte>)
    requires |chains| > 0 && Placed(hash, chains) && Interned(hashOf, str, hash, Ids(chains))
    requires forall a :: 0 <= a < |chains[hashOf(s) % |chains|]| ==> chains[hashOf(s) % |chains|][a] in str && str[chains[hashOf(s) % |chains|][a]] != s
    ensures forall x :: x in Ids(chains) && x in str ==> str[x] != s
  {
    forall x | x in Ids(chains) && x in str
      ensures str[x] != s
    {
      var i := PlaceOf(hash, chains, x);
      assert hash[x] == hashOf(str[x]);
    }
  }

  lemma SameMember(chains: seq<seq<Id>>, h: nat, a: nat, i: nat, ts: Id)
    requires Distinct(chains) && h < |chains| && a < |chains[h]| && i < |chains[h]| && chains[h][a] == ts && chains[h][i] == ts
    ensures a == i
  {
  }

  function Without(s: seq<Id>, i: nat): seq<Id>
    requires i < |s|
  {
    s[..i] + s[i + 1..]
  }

  /** A chain from which the string at `i` has been unlinked. */
  lemma {:induction false} Unlink(hnext: map<Id, Link>, l: Link, s: seq<Id>, i: nat)
    requires IsChain(hnext, l, s) && 0 < i < |s| && forall a, b :: 0 <= a < b < |s| ==> s[a] != s[b]
    ensures s[i] in hnext && s[i - 1] in hnext
    ensures IsChain(hnext[s[i - 1] := hnext[s[i]]], l, Without(s, i))
    decreases |s|
  {
    ChainTail(hnext, l, s, i);
    ChainTail(hnext, l, s, i - 1);
    var hnext' := hnext[s[i - 1] := hnext[s[i]]];
    if i == 1 {
      ChainTail(hnext, l, s, 1);
      forall a | 0 <= a < |s[2..]|
        ensures s[2..][a] in hnext' && (s[2..][a] in hnext ==> hnext'[s[2..][a]] == hnext[s[2..][a]])
      {
        ChainTail(hnext, l, s, a + 2);
      }
      ChainSame(hnext, hnext', hnext[s[1]], s[2..]);
      assert Without(s, 1)[1..] == s[2..];
    } else {
      Unlink(hnext, hnext[s[0]], s[1..], i - 1);
      assert Without(s, i)[1..] == Without(s[1..], i - 1);
    }
  }

  lemma RemoveLinked(bucket: seq<Link>, hnext: map<Id, Link>, hash: map<Id, nat>, chains: seq<seq<Id>>, h: nat, i: nat)
    requires Linked(bucket, hnext, chains) && Distinct(chains) && Placed(hash, chains) && h < |chains| && i < |chains[h]|
    ensures var d, ts := chains[h := Without(chains[h], i)], chains[h][i];
      && ts in hnext && (i > 0 ==> chains[h][i - 1] in hnext)
      && (i == 0 ==> Linked(bucket[h := hnext[ts]], hnext, d))
      && (i > 0 ==> Linked(bucket, hnext[chains[h][i - 1] := hnext[ts]], d))
      && Distinct(d) && Placed(hash, d) && Ids(d) == Ids(chains) - {ts} && |Ids(d)| == |Ids(chains)| - 1
  {
    hide Linked, Distinct, Placed, Ids, IsChain;
    var d, ts := chains[h := Without(chains[h], i)], chains[h][i];
    RemoveChains(bucket, hnext, chains, h, i);
    RemoveIds(chains, h, i);
    RemoveKept(hash, chains, h, i);
  }

  lemma RemoveKept(hash: map<Id, nat>, chains: seq<seq<Id>>, h: nat, i: nat)
    requires Distinct(chains) && Placed(hash, chains) && h < |chains| && i < |chains[h]|
    ensures var d := chains[h := Without(chains[h], i)]; Distinct(d) && Placed(hash, d)
  {
    var d := chains[h := Without(chains[h], i)];
    forall j, a | 0 <= j < |d| && 0 <= a < |d[j]|
      ensures LocatedAt(hash, d[j][a], j, |d|)
    {
      RemovedAt(chains, h, i, j, a);
    }
    forall j, k, a, b | 0 <= j < |d| && 0 <= k < |d| && 0 <= a < |d[j]| && 0 <= b < |d[k]| && d[j][a] == d[k][b]
      ensures j == k && a == b
    {
      RemovedAt(chains, h, i, j, a);
      RemovedAt(chains, h, i, k, b);
    }
  }

  lemma RemovedAt(chains: seq<seq<Id>>, h: nat, i: nat, j: nat, a: nat)
    requires h < |chains| && i < |chains[h]| && j < |chains| && a < |chains[h := Without(chains[h], i)][j]|
    ensures var b := if j == h && a >= i then a + 1 else a;
      b < |chains[j]| && chains[h := Without(chains[h], i)][j][a] == chains[j][b]
  {
  }

  lemma RemoveIds(chains: seq<seq<Id>>, h: nat, i: nat)
    requires Distinct(chains) && h < |chains| && i < |chains[h]|
    ensures var d, ts := chains[h := Without(chains[h], i)], chains[h][i];
      Ids(d) == Ids(chains) - {ts} && |Ids(d)| == |Ids(chains)| - 1
  {
    var d, ts := chains[h := Without(chains[h], i)], chains[h][i];
    forall x
      ensures x in Ids(d) <==> x in Ids(chains) && x != ts
    {
      if x in Ids(chains) && x != ts {
        var j, a :| 0 <= j < |chains| && 0 <= a < |chains[j]| && chains[j][a] == x;
        assert d[j][if j == h && a > i then a - 1 else a] == x;
      }
      if x in Ids(d) {
        var j, a :| 0 <= j < |d| && 0 <= a < |d[j]| && d[j][a] == x;
        assert chains[j][if j == h && a >= i then a + 1 else a] == x;
      }
    }
    assert ts in Ids(chains);
  }

  lemma RemoveChains(bucket: seq<Link>, hnext: map<Id, Link>, chains: seq<seq<Id>>, h: nat, i: nat)
    requires Linked(bucket, hnext, chains) && Distinct(chains) && h < |chains| && i < |chains[h]|
    ensures var d, ts := chains[h := Without(chains[h], i)], chains[h][i];
      && ts in hnext && (i > 0 ==> chains[h][i - 1] in hnext)
      && (i == 0 ==> Linked(bucket[h := hnext[ts]], hnext, d))
      && (i > 0 ==> Linked(bucket, hnext[chains[h][i - 1] := hnext[ts]], d))
  {
    var d, ts := chains[h := Without(chains[h], i)], chains[h][i];
    ChainTail(hnext, bucket[h], chains[h], i);
    if i == 0 {
      assert Without(chains[h], 0) == chains[h][1..];
    } else {
      Unlink(hnext, bucket[h], chains[h], i);
      var hnext' := hnext[chains[h][i - 1] := hnext[ts]];
      forall j | 0 <= j < |bucket| && j != h
        ensures IsChain(hnext', bucket[j], chains[j])
      {
        forall a | 0 <= a < |chains[j]|
          ensures chains[j][a] in hnext' && (chains[j][a] in hnext ==> hnext'[chains[j][a]] == hnext[chains[j][a]])
        {
          ChainTail(hnext, bucket[j], chains[j], a);
          assert chains[j][a] != chains[h][i - 1];
        }
        ChainSame(hnext, hnext', bucket[j], chains[j]);
      }
    }
  }

  lemma CompatiblePositive(a: nat, b: nat)
    requires Compatible(a, b)
    ensures a > 0 && b > 0
  {
  }

  lemma StartResize(bucket: seq<Link>, hnext: map<Id, Link>, hash: map<Id, nat>, chains: seq<seq<Id>>, newsize: nat)
    requires Linked(bucket, hnext, chains) && Distinct(chains) && Placed(hash, chains) && |bucket| > 0 && newsize > 0
    ensures |chains| == |bucket|
    ensures var m := if newsize > |bucket| then newsize - |bucket| else 0;
      var b, c := bucket + Times(m, Null), chains + Times(m, []);
      Linked(b, hnext, c) && Distinct(c) && Ids(c) == Ids(chains) && Located(hash, c, 0, |bucket|, newsize)
    ensures newsize <= |bucket| ==> Located(hash, chains, 0, |bucket|, newsize)
  {
    var m := if newsize > |bucket| then newsize - |bucket| else 0;
    var b, c := bucket + Times(m, Null), chains + Times(m, []);
    forall x
      ensures x in Ids(c) <==> x in Ids(chains)
    {
      if x in Ids(chains) {
        var j, a :| 0 <= j < |chains| && 0 <= a < |chains[j]| && chains[j][a] == x;
        assert c[j][a] == x;
      }
      if x in Ids(c) {
        var j, a :| 0 <= j < |c| && 0 <= a < |c[j]| && c[j][a] == x;
        assert chains[j][a] == x;
      }
    }
    if m == 0 {
      assert c == chains && b == bucket;
    }
  }

  lemma LocatedStart(hash: map<Id, nat>, chains: seq<seq<Id>>, i: nat, oldsize: nat, newsize: nat)
    requires oldsize > 0 && newsize > 0 && i < oldsize <= |chains| && Located(hash, chains, i, oldsize, newsize)
    ensures Located(hash, chains[i := []], i + 1, oldsize, newsize)
    ensures AllLocated(hash, chains[i], i, oldsize)
  {
    var d := chains[i := []];
    forall j, a | 0 <= j < |d| && 0 <= a < |d[j]|
      ensures LocatedAt(hash, d[j][a], j, if i + 1 <= j < oldsize then oldsize else newsize)
    {
      assert d[j][a] == chains[j][a];
    }
  }

  /** What the inner loop of `Resize` needs for one string and keeps by moving it. */
  lemma MoveTurn(bucket: seq<Link>, hnext: map<Id, Link>, hash: map<Id, nat>, chains: seq<seq<Id>>, p: Link, rest: seq<Id>, ids: set<Id>,
      i: nat, oldsize: nat, newsize: nat)
    requires i < oldsize <= |chains| && 0 < newsize <= |chains| && Compatible(oldsize, newsize) && |bucket| == |chains|
    requires Moving(bucket, hnext, chains, p, rest, ids) && p != Null
    requires Located(hash, chains, i + 1, oldsize, newsize) && AllLocated(hash, rest, i, oldsize)
    ensures rest != [] && p == To(rest[0]) && p.id in hnext && p.id in hash
    ensures var h := hash[p.id] % newsize; var c := PushTo(chains, h, p.id);
      && Moving(bucket[h := p], hnext[p.id := bucket[h]], c, hnext[p.id], rest[1..], ids)
      && Located(hash, c, i + 1, oldsize, newsize) && AllLocated(hash, rest[1..], i, oldsize)
  {
    hide Moving, Located, Compatible;
    MovingHead(bucket, hnext, chains, p, rest, ids);
    assert LocatedAt(hash, rest[0], i, oldsize);
    MoveStep(bucket, hnext, chains, rest, ids, hash[p.id] % newsize);
    PushLocated(hash, chains, i, oldsize, newsize, p.id);
  }

  lemma MovingHead(bucket: seq<Link>, hnext: map<Id, Link>, chains: seq<seq<Id>>, p: Link, rest: seq<Id>, ids: set<Id>)
    requires Moving(bucket, hnext, chains, p, rest, ids) && p != Null
    ensures rest != [] && p == To(rest[0]) && p.id in hnext
  {
  }

  lemma MovingEnd(bucket: seq<Link>, hnext: map<Id, Link>, chains: seq<seq<Id>>, rest: seq<Id>, ids: set<Id>)
    requires Moving(bucket, hnext, chains, Null, rest, ids)
    ensures Linked(bucket, hnext, chains) && Distinct(chains) && Ids(chains) == ids
  {
  }

  lemma EndResize(bucket: seq<Link>, hnext: map<Id, Link>, hash: map<Id, nat>, chains: seq<seq<Id>>, oldsize: nat, newsize: nat)
    requires oldsize > 0 && newsize > 0 && Located(hash, chains, oldsize, oldsize, newsize)
    requires Linked(bucket, hnext, chains) && Distinct(chains) && |chains| == if newsize > oldsize then newsize else oldsize
    requires forall j :: newsize <= j < |chains| ==> chains[j] == []
    ensures forall j :: newsize <= j < |chains| ==> bucket[j] == Null
    ensures Linked(bucket[..newsize], hnext, chains[..newsize]) && Distinct(chains[..newsize]) && Placed(hash, chains[..newsize])
    ensures newsize >= oldsize ==> Placed(hash, chains)
  {
    var d := chains[..newsize];
    forall i, a | 0 <= i < |d| && 0 <= a < |d[i]|
      ensures LocatedAt(hash, d[i][a], i, |d|)
    {
      assert d[i][a] == chains[i][a];
    }
    if newsize >= oldsize {
      assert d == chains;
    }
  }
}
