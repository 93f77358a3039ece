/** Insertion, rehash and resize of a table, as they update its vectors in place. */
module TableInsert {
  import opened Powers
  import opened TableNodes
  import opened TableSizes
  import opened TableMap
  import opened TableSteps
  import opened TableCount
  import opened TableFill
  import opened TableTraverse
  import opened Wrappers
  import opened Sequences

  const MAXHBITS: nat := 30

  /** A key as the program gives it. */
  datatype RawKey = NilKey | NaN | IntegralFloat(i: int64) | Plain(k: Key)

  /** The key under which an entry is kept: floats with integer values become integers. */
  function Normal(key: RawKey): Key
    requires key.IntegralFloat? || key.Plain?
  {
    if key.Plain? then key.k else Int(key.i)
  }

  datatype PutOutcome = Put | IndexIsNil | IndexIsNaN | TooLarge

  /** What may happen to a table between two calls of `next`: assignments to existing fields, and the collector. */
  datatype Change = Assign(k: Key, v: Val) | Collect(i: nat)

  datatype Outcome = Done | TableOverflow | SizesOverrun

  class LuaTable {
    var arr: seq<Val>
    var node: seq<Node>
    var lastfree: nat
    var dummy: bool

    ghost function View(): T
      reads this
    {
      T(arr, node, lastfree, dummy)
    }

    /** `luaH_new`. */
    constructor ()
      ensures TableValid(View()) && forall k :: Get(View(), k) == Nil
    {
      arr, node, lastfree, dummy := [], [EMPTY], 0, true;
      new;
      FreshNodes(1);
      assert node == Times(1, EMPTY);
      assert Pow2(0) == 1;
    }

    /** The search loop of `luaH_getint`, `luaH_getshortstr` and `getgeneric`. */
    method Search(k: Key) returns (i: int)
      requires TableValid(View())
      ensures if HasKey(node, k) then 0 <= i < |node| && node[i].key == Live(k) else i == -1
    {
      hide Valid, LiveFirst, Reaches, Finite, HasKey, Ends;
      i := MainPosition(k, |node|);
      SearchStart(node, k);
      ghost var n: nat := FiniteBound(node, i);
      while true
        invariant 0 <= i < |node| && Ends(node, i, n)
        invariant forall j :: 0 <= j < |node| && node[j].key == Live(k) ==> Reaches(node, i, j)
        decreases n
      {
        if node[i].key == Live(k) {
          HasKeyAt(node, i, k);
          return;
        }
        SearchNext(node, i, k);
        if node[i].next == 0 {
          return -1;
        }
        EndsNext(node, i, n);
        i, n := i + node[i].next, n - 1;
      }
    }

    /** Where the value of `k` is; `None` stands for the shared `luaO_nilobject`. */
    method GetCell(k: Key) returns (c: Option<Cell>)
      requires TableValid(View())
      ensures match c
        case None => Absent(View(), k)
        case Some(cell) => CellFor(View(), cell, k)
    {
      if k.Int? && 1 <= k.i <= |arr| {
        assert |arr| <= MAXASIZE;
        return Some(InArr(k.i - 1));
      }
      var i := Search(k);
      c := if i == -1 then None else Some(InNode(i));
      hide TableValid, HasKey;
    }

    method GetFreePos() returns (f: int)
      requires TableValid(View())
      modifies `lastfree
      ensures f == -1 ==> !HasFree(old(View())) && View() == old(View()).(lastfree := 0) && TableValid(View())
      ensures f != -1 ==> f >= 0 && FreeAt(View(), f) && View() == old(View()).(lastfree := f)
    {
      hide Valid, LiveFirst;
      ghost var t := View();
      while lastfree > 0
        invariant View() == t.(lastfree := lastfree) && lastfree <= t.lastfree
        invariant TableValid(View())
      {
        lastfree := lastfree - 1;
        if node[lastfree].key == NoKey {
          return lastfree;
        }
      }
      return -1;
    }

    /** The loop that looks for the predecessor of node `mp` in the chain from `start`. */
    method FindPrevious(start: nat, mp: nat) returns (o: nat)
      requires Valid(node) && start < |node| && mp < |node| && start != mp && Reaches(node, start, mp)
      ensures o < |node| && node[o].next != 0 && o + node[o].next == mp
    {
      hide Valid, Reaches, Ends;
      o := start;
      ghost var n: nat := FiniteBound(node, o);
      ReachesNext(node, o, mp);
      while o + node[o].next != mp
        invariant o < |node| && node[o].next != 0 && Ends(node, o, n)
        invariant o != mp && Reaches(node, o, mp)
        decreases n
      {
        EndsNext(node, o, n);
        ReachesNext(node, o, mp);
        EndsIn(node, o + node[o].next, n - 1);
        o, n := o + node[o].next, n - 1;
        ReachesNext(node, o, mp);
      }
    }

    /** The colliding node, out of its main position, moves to the free node `f`. */
    method MoveColliding(mp: nat, f: nat, othern: nat)
      requires mp < |node| && f < |node| && othern < |node| && f != mp && othern != f && othern != mp
      modifies `node
      ensures |node| == |old(node)|
      ensures forall k :: node[mp := node[mp].(key := Live(k))] == Move(old(node), mp, f, othern, k)
    {
      node := node[othern := node[othern].(next := f - othern)];
      node := node[f := node[mp]];
      if node[mp].next != 0 {
        node := node[f := node[f].(next := node[f].next + (mp - f))];
        node := node[mp := node[mp].(next := 0)];
      }
      node := node[mp := node[mp].(val := Nil)];
    }

    /** The free node `f` is chained after the colliding node, which is in its main position. */
    method ChainFree(mp: nat, f: nat)
      requires mp < |node| && f < |node| && f != mp && node[f] == EMPTY
      modifies `node
      ensures |node| == |old(node)|
      ensures forall k :: node[f := node[f].(key := Live(k))] == Chain(old(node), mp, f, k)
    {
      if node[mp].next != 0 {
        node := node[f := node[f].(next := mp + node[mp].next - f)];
      }
      node := node[mp := node[mp].(next := f - mp)];
    }

    /** The part of `luaH_newkey` in which a free position is found or not needed. */
    method InsertKey(k: Key) returns (done: bool, p: nat)
      requires TableValid(View()) && Absent(View(), k)
      modifies `node, `lastfree
      ensures done ==> !dummy && Grown(old(View()), View(), k) && CellFor(View(), InNode(p), k)
      ensures !done ==> !HasFree(old(View())) && TableValid(View()) && View() == old(View()).(lastfree := 0)
      ensures done <==> HasPlace(old(View()), k)
    {
      hide TableValid, Absent, FreeAt, Grown, HasFree, CellFor, Inserted, Move, Chain, HasPlace;
      ghost var t := View();
      PlaceIs(t, k);
      NonEmpty(t);
      MainNode(t, k);
      var mp: nat := MainPosition(k, |node|);
      done, p := true, mp;
      if node[mp].val != Nil || dummy {
        var f := GetFreePos();
        if f == -1 {
          return false, 0;
        }
        ghost var u := View();
        FreeIs(t, u, f);
        FreeNode(u, f);
        hide Valid, Threaded, Reaches;
        FreeUsable(t, f, k, mp);
        var othern: nat := MainPosition(node[mp].key.k, |node|);
        if othern != mp {
          Colliding(node, mp);
          othern := FindPrevious(othern, mp);
          MoveApart(u, mp, f, othern);
          MoveColliding(mp, f, othern);
          node := node[mp := node[mp].(key := Live(k))];
          MoveInserted(u, View(), mp, f, othern, k);
        } else {
          ChainFree(mp, f);
          p := f;
          node := node[f := node[f].(key := Live(k))];
          ChainInserted(u, View(), mp, f, k);
        }
        InsertedGrown(t, u, View(), p, k);
        InsertedCell(u, View(), p, k);
      } else {
        node := node[mp := node[mp].(key := Live(k))];
        PlaceInserted(t, View(), mp, k);
        InsertedGrown(t, t, View(), mp, k);
        InsertedCell(t, View(), mp, k);
      }
    }

    /** `setobj2t` into a cell that belongs to key `k`. */
    method SetValue(cell: Cell, v: Val)
      requires match cell case InArr(i) => i < |arr| case InNode(i) => i < |node|
      modifies `arr, `node
      ensures View() == Stored(old(View()), cell, v)
    {
      match cell
      case InArr(i) => arr := arr[i := v];
      case InNode(i) => node := node[i := node[i].(val := v)];
    }

    /** `setnodevector`. */
    method SetNodeVector(size: nat) returns (r: Outcome)
      modifies `node, `lastfree, `dummy
      ensures r == if size > Pow2(MAXHBITS) then TableOverflow else Done
      ensures r != Done ==> View() == old(View())
      ensures r.Done? ==> NodeCount(size, |node|) && |node| <= MAXNODES && node == Times(|node|, EMPTY) && (dummy <==> size == 0)
      ensures r.Done? ==> lastfree == if dummy then 0 else |node|
    {
      PowersOfTwo();
      if size == 0 {
        node, lastfree, dummy := [EMPTY], 0, true;
        assert node == Times(1, EMPTY);
      } else {
        var lsize := CeilLog2(size);
        if lsize > MAXHBITS {
          Pow2Monotone(MAXHBITS, lsize - 1);
          return TableOverflow;
        }
        Pow2Monotone(lsize, MAXHBITS);
        node := Times(Pow2(lsize), EMPTY);
        lastfree, dummy := |node|, false;
      }
      return Done;
    }

    /** `luaH_newkey`, for a key that is neither nil nor NaN. */
    method NewKey(k: Key) returns (r: Outcome, cell: Cell)
      requires TableValid(View()) && Absent(View(), k)
      modifies this
      ensures r.Done? ==> TableValid(View()) && SameMap(old(View()), View()) && CellFor(View(), cell, k)
      ensures HasFree(old(View())) ==> r.Done? && Grown(old(View()), View(), k)
      ensures r.Done? <==> Fits(old(View()), k)
      decreases Rank(View(), k), 1
    {
      hide TableValid, Absent, Grown, HasFree, CellFor, LiveKeys, SameMap, Rank, Fits, HasPlace, NoRoom;
      ghost var t := View();
      FitsAbsent(t, k);
      var done, p := InsertKey(k);
      if done {
        GrownSame(t, View(), k);
        return Done, InNode(p);
      }
      ghost var u := View();
      SpentFree(t, u, k);
      r := Rehash(k);
      cell := InNode(0);
      if r.Done? {
        ghost var v := View();
        RehashedRank(u, v, k);
        RankFits(v, k);
        r, cell := SetCell(k);
        SameMapTrans(t, u, v);
        GrownSame(v, View(), k);
        SameMapTrans(t, v, View());
      }
    }

    /** `luaH_set`, for a key that is neither nil nor NaN. */
    method SetCell(k: Key) returns (r: Outcome, cell: Cell)
      requires TableValid(View())
      modifies this
      ensures r.Done? ==> TableValid(View()) && SameMap(old(View()), View()) && CellFor(View(), cell, k)
      ensures Rank(old(View()), k) == 0 ==> r.Done? && Grown(old(View()), View(), k)
      ensures r.Done? <==> Fits(old(View()), k)
      decreases Rank(View(), k), 2
    {
      hide TableValid, Absent, Grown, HasFree, CellFor, LiveKeys, SameMap, HasPlace, NoRoom;
      var c := GetCell(k);
      match c
      case Some(found) =>
        GrownSelf(View(), k);
        GrownSame(View(), View(), k);
        CellPresent(View(), found, k);
        return Done, found;
      case None =>
        r, cell := NewKey(k);
    }

    /** Puts an entry of the old parts into the resized ones. */
    method Reinsert(ghost o: T, k: Key, v: Val, ghost P: set<Key>, nasize: nat, nhsize: nat)
      requires Filling(o, View(), P, nasize, nhsize) && k in LiveKeys(o) && v == Get(o, k)
      requires |HashBound(LiveKeys(o), nasize)| <= nhsize
      modifies this
      ensures Filling(o, View(), P + {k}, nasize, nhsize)
      decreases 0, 3
    {
      hide TableValid, Absent, Grown, HasFree, CellFor, LiveKeys, SameMap, Filling, HashBound, Get, Stored;
      ghost var b := View();
      FillRoom(o, b, P, nasize, nhsize, k);
      FillValid(o, b, P, nasize, nhsize);
      RankZero(b, k);
      var r, cell := SetCell(k);
      ghost var b1 := View();
      FillStep(o, b, P, nasize, nhsize, b1, cell, k, v);
      CellIn(b1, cell, k);
      SetValue(cell, v);
    }

    /** `luaH_resize`. Its callers make the new hash part large enough for what does not fit in the
        new array part. */
    method Resize(nasize: nat, nhsize: nat) returns (r: Outcome)
      requires TableValid(View()) && nasize <= MAXASIZE && |HashBound(LiveKeys(View()), nasize)| <= nhsize
      modifies this
      ensures r == if nhsize > Pow2(MAXHBITS) then TableOverflow else Done
      ensures r.Done? ==> Resized(old(View()), View(), nasize, nhsize)
      decreases 0, 4
    {
      hide TableValid, LiveKeys, HashBound, Filling, Resized, Covered, NodeCount, Pow2, Ints, ArrayOf;
      ghost var o := View();
      var oldasize, nold := |arr|, node;
      if nasize > oldasize {
        arr := ArrayOf(arr, nasize);
      }
      r := SetNodeVector(nhsize);
      if r != Done {
        return;
      }
      var slots := arr;
      arr := ArrayOf(arr, nasize);
      ghost var P := Ints(if nasize < oldasize then nasize else oldasize);
      FillStart(o, View(), nasize, nhsize);
      CoveredStart(o, nasize);
      var i := nasize;
      while i < oldasize
        invariant nasize <= i && Filling(o, View(), P, nasize, nhsize) && Covered(o, P, i, |nold|)
      {
        ghost var Q := P;
        if slots[i] != Nil {
          ArrayLive(o, i);
          Reinsert(o, Int(i + 1), slots[i], P, nasize, nhsize);
          Q := P + {Int(i + 1)};
        }
        CoveredSlot(o, P, Q, i, |nold|);
        P := Q;
        i := i + 1;
      }
      var j := |nold|;
      while j > 0
        invariant 0 <= j <= |nold| && Filling(o, View(), P, nasize, nhsize) && Covered(o, P, i, j)
      {
        j := j - 1;
        ghost var Q := P;
        if nold[j].val != Nil {
          NodeLiveGet(o, j);
          Reinsert(o, nold[j].key.k, nold[j].val, P, nasize, nhsize);
          Q := P + {nold[j].key.k};
        }
        CoveredNode(o, P, Q, i, j);
        P := Q;
      }
      CoveredAll(o, P, i);
      FillEnd(o, View(), P, nasize, nhsize);
    }

    /** `rehash`. */
    method Rehash(ek: Key) returns (r: Outcome)
      requires TableValid(View()) && Absent(View(), ek)
      modifies this
      ensures r.Done? <==> !NoRoom(LiveKeys(old(View())) + {ek})
      ensures r.Done? ==> Rehashed(old(View()), View(), ek)
      decreases 1, 0
    {
      hide TableValid, Absent, LiveKeys, Tally, HashBound, ArrayKeys, Optimal, Resized, Rehashed, BestArray, Counted, NoRoom;
      ghost var o := View();
      AbsentDead(o, ek);
      var nums := new nat[MAXABITS + 1](_ => 0);
      ArrayFits(o);
      var na := NumUseArray(arr, nums);
      var totaluse := na;
      var used, ause := NumUseHash(o, node, nums, na);
      totaluse := totaluse + used;
      na := na + ause;
      var one := CountInt(ek, nums, na, LiveKeys(o));
      na := na + one;
      totaluse := totaluse + 1;
      ghost var K := LiveKeys(o) + {ek};
      TallySum(nums[..], na, K);
      var sizes := ComputeSizes(nums[..], na);
      if sizes.Overrun? {
        TooManyInts(K);
        return SizesOverrun;
      }
      BestIs(nums[..], na, K, sizes.asize, sizes.na);
      BestFits(K, sizes.asize);
      SizesFit(o, ek, sizes.asize, sizes.na);
      RoomIs(K, sizes.asize);
      r := Resize(sizes.asize, totaluse - sizes.na);
      if r.Done? {
        RehashDone(o, View(), ek, sizes.asize, totaluse - sizes.na);
      }
    }

    // ---------- operations on a table ----------

    /** `luaH_get`. */
    method Lookup(key: RawKey) returns (v: Val)
      requires TableValid(View())
      ensures v == Found(View(), key)
    {
      hide TableValid, Absent, CellFor, Get;
      if key.NilKey? || key.NaN? {
        return Nil;
      }
      var k := Normal(key);
      var c := GetCell(k);
      match c
      case None =>
        AbsentGet(View(), k);
        v := Nil;
      case Some(cell) =>
        CellGet(View(), cell, k);
        v := if cell.InArr? then arr[cell.i] else node[cell.i].val;
    }

    /** `t[key] = v`: `luaH_set` and the store into the cell that it returns. */
    method Store(key: RawKey, v: Val) returns (r: PutOutcome)
      requires TableValid(View())
      modifies this
      ensures key.NilKey? ==> r == IndexIsNil && View() == old(View())
      ensures key.NaN? ==> r == IndexIsNaN && View() == old(View())
      ensures key.IntegralFloat? || key.Plain? ==> r == Put || r == TooLarge
      ensures key.Plain? ==> (r == Put <==> Fits(old(View()), key.k))
      ensures key.IntegralFloat? ==> (r == Put <==> Fits(old(View()), Int(key.i)))
      ensures (key.IntegralFloat? || key.Plain?) && |LiveKeys(old(View()))| < Pow2(30) ==> r == Put
      ensures r == Put ==> TableValid(View()) && Wrote(old(View()), View(), key, v)
    {
      hide TableValid, Absent, CellFor, LiveKeys, SameMap, Rank, Stored, Grown, Updated, Fits;
      if key.NilKey? {
        return IndexIsNil;
      }
      if key.NaN? {
        return IndexIsNaN;
      }
      var k := Normal(key);
      ghost var t := View();
      FewFit(t, k);
      var outcome, cell := SetCell(k);
      if outcome != Done {
        return TooLarge;
      }
      CellIn(View(), cell, k);
      UpdatedBy(t, View(), cell, k, v);
      SetValue(cell, v);
      return Put;
    }

    /** The collector removes an entry that has lost its value and whose key it has not marked. */
    method RemoveEntry(i: nat)
      requires TableValid(View()) && i < |node| && node[i].key.Live? && node[i].val == Nil
      modifies `node
      ensures TableValid(View()) && SameMap(old(View()), View()) && Kept(old(View()), View())
    {
      hide TableValid, SameMap, Kept;
      BuryTable(View(), i);
      BuryKept(View(), i);
      node := node[i := node[i].(key := Dead(node[i].key.k))];
    }

    /** `findindex`; `None` stands for the error "invalid key to 'next'". */
    method FindIndex(key: Option<Key>) returns (x: Option<nat>)
      requires TableValid(View())
      ensures match x
        case Some(i) => IndexOf(View(), key, i)
        case None => key.Some? && !InArray(View(), key.value) && forall j :: !Named(node, j, key.value)
    {
      hide TableValid, Valid, LiveFirst, Reaches, Finite, Ends, MainPosition, Linked, Threaded, Distinct, Homed;
      if key.None? {
        return Some(0);
      }
      var k := key.value;
      if k.Int? && 1 <= k.i <= |arr| {
        return Some(k.i);
      }
      NonEmpty(View());
      var i: int := MainPosition(k, |node|);
      NamedStart(node, k);
      ghost var n: nat := FiniteBound(node, i);
      EndsIn(node, i, n);
      while true
        invariant 0 <= i < |node| && Ends(node, i, n)
        invariant forall j :: Named(node, j, k) ==> Reaches(node, i, j)
        decreases n
      {
        if node[i].key != NoKey && node[i].key.k == k {
          return Some(i + 1 + |arr|);
        }
        NamedNext(node, i, k);
        if node[i].next == 0 {
          return None;
        }
        EndsNext(node, i, n);
        EndsIn(node, i + node[i].next, n - 1);
        i, n := i + node[i].next, n - 1;
      }
    }

    /** `luaH_next`. */
    method Next(key: Option<Key>) returns (r: NextResult)
      requires TableValid(View())
      ensures r.InvalidKey? ==> key.Some? && !InArray(View(), key.value) && forall j :: !Named(node, j, key.value)
      ensures !r.InvalidKey? ==> exists x: nat :: IndexOf(View(), key, x) && Answer(View(), x, r)
    {
      hide IndexOf;
      var start := FindIndex(key);
      if start.None? {
        return InvalidKey;
      }
      ghost var x: nat := start.value;
      IndexBound(View(), key, x);
      ArrayFits(View());
      var i: nat := start.value;
      while i < |arr|
        invariant x <= i && forall j :: x <= j < i && j < Positions(View()) ==> ValAt(View(), j) == Nil
      {
        if arr[i] != Nil {
          assert FirstFull(View(), x, i) && LiveAt(View(), i, Int(i + 1));
          return Entry(Int(i + 1), arr[i]);
        }
        i := i + 1;
      }
      i := i - |arr|;
      while i < |node|
        invariant x <= i + |arr| && forall j :: x <= j < i + |arr| && j < Positions(View()) ==> ValAt(View(), j) == Nil
      {
        if node[i].val != Nil {
          ValueKey(View(), i);
          assert FirstFull(View(), x, i + |arr|) && LiveAt(View(), i + |arr|, node[i].key.k);
          return Entry(node[i].key.k, node[i].val);
        }
        i := i + 1;
      }
      return End;
    }

    /** One change. Keys without a cell are not assigned to, and only entries without value are removed. */
    method Apply(c: Change)
      requires TableValid(View())
      modifies `arr, `node
      ensures TableValid(View()) && Kept(old(View()), View())
      ensures c.Assign? && Absent(old(View()), c.k) ==> View() == old(View())
      ensures c.Assign? && !Absent(old(View()), c.k) ==> Updated(old(View()), View(), c.k, c.v)
      ensures c.Collect? ==> SameMap(old(View()), View())
    {
      ghost var t := View();
      KeptSelf(t);
      SameMapSelf(t);
      match c
      case Assign(k, v) =>
        var found := GetCell(k);
        if found.Some? {
          var cell := found.value;
          CellPresent(t, cell, k);
          hide TableValid, Absent, CellFor, Kept, Stored, SameMap, Updated;
          CellIn(t, cell, k);
          UpdatedBy(t, t, cell, k, v);
          StoreKept(t, cell, k, v);
          SetValue(cell, v);
        }
      case Collect(i) =>
        if i < |node| && node[i].key.Live? && node[i].val == Nil {
          hide TableValid, Absent, Kept, SameMap;
          RemoveEntry(i);
        }
    }

    method ApplyAll(cs: seq<Change>)
      requires TableValid(View())
      modifies `arr, `node
      ensures TableValid(View()) && Kept(old(View()), View()) && (cs == [] ==> View() == old(View()))
    {
      hide TableValid, Absent, Kept, SameMap, Updated;
      ghost var t := View();
      KeptSelf(t);
      for i := 0 to |cs|
        invariant TableValid(View()) && Kept(t, View()) && (cs == [] ==> View() == t)
      {
        ghost var u := View();
        Apply(cs[i]);
        KeptTrans(t, u, View());
      }
    }

    /** A loop over the table whose body makes the changes of the plan: it ends after at most as many turns as
        the table has positions, whatever the plan. */
    method Traverse(plan: seq<seq<Change>>) returns (es: seq<(Key, Val)>, ghost ts: seq<T>)
      requires TableValid(View())
      modifies `arr, `node
      ensures AllValid(ts) && Traversal(ts, None, es) && ts[0] == old(View()) && ts[|es|] == View()
      ensures |es| <= Positions(old(View()))
      ensures plan == [] ==> View() == old(View()) && (set i | 0 <= i < |es| :: es[i].0) == LiveKeys(View()) && |es| == |LiveKeys(View())|
    {
      hide TableValid, Kept, IndexOf, Answer, Calls, LiveAt, LiveKeys;
      ghost var o := View();
      ghost var x: nat := 0;
      es, ts := [], [o];
      CallsStart(o);
      var key: Option<Key> := None;
      while true
        invariant TableValid(View()) && AllValid(ts) && Calls(ts, None, es) && key == LastKey(None, es)
        invariant |ts| == |es| + 1 && ts[0] == o && ts[|es|] == View() && x <= Positions(View()) == Positions(o)
        invariant CanGoOn(View(), key, x)
        invariant plan == [] ==> forall i :: 0 <= i < |ts| ==> ts[i] == o
        decreases Positions(o) - x
      {
        var r := Next(key);
        CallProgress(ts, es);
        GoesOn(View(), key, x);
        ghost var y: nat :| IndexOf(View(), key, y) && Answer(View(), y, r);
        ItsIndex(View(), key, x, y);
        if r == End {
          if plan == [] {
            TraversalUntouched(o, ts, es);
          }
          return;
        }
        ghost var u := View();
        ghost var p := AnswerAt(u, x, r);
        if |es| < |plan| {
          ApplyAll(plan[|es|]);
        } else {
          KeptSelf(u);
        }
        CallsNext(ts, None, es, (r.k, r.v), x, View());
        GoOnAfter(u, View(), p, r.k);
        x := p + 1;
        es, ts, key := es + [(r.k, r.v)], ts + [View()], Some(r.k);
      }
    }

    // ---------- the length operator ----------

    /** `unbound_search`: `j0` is 0 or the index of an entry. */
    method UnboundSearch(j0: nat) returns (n: nat)
      requires TableValid(View()) && j0 <= MAXASIZE && (j0 == 0 || GetInt(View(), j0) != Nil)
      ensures Boundary(View(), n)
    {
      hide TableValid, GetInt;
      var i: nat, j: nat := j0, j0 + 1;
      var v := Lookup(Plain(Int(j)));
      IntGet(View(), j);
      while v != Nil
        invariant i < j && (i == 0 || GetInt(View(), i) != Nil) && v == GetInt(View(), j) && j <= MAXASIZE + 1
        decreases MAXASIZE + 1 - j
      {
        i := j;
        if j > 0x7fff_ffff / 2 {
          n := LinearSearch();
          return;
        }
        j := j * 2;
        v := Lookup(Plain(Int(j)));
        IntGet(View(), j);
      }
      while j - i > 1
        invariant i < j <= MAXASIZE + 1 && (i == 0 || GetInt(View(), i) != Nil) && GetInt(View(), j) == Nil
      {
        var m := (i + j) / 2;
        v := Lookup(Plain(Int(m)));
        IntGet(View(), m);
        if v == Nil {
          j := m;
        } else {
          i := m;
        }
      }
      return i;
    }

    /** The linear search for "bad purposes"; as many entries as it passes, the table must have. */
    method LinearSearch() returns (n: nat)
      requires TableValid(View())
      ensures Boundary(View(), n)
    {
      hide TableValid, GetInt, LiveKeys;
      var i: nat := 1;
      FewEntries(View());
      var v := Lookup(Plain(Int(1)));
      IntGet(View(), 1);
      while v != Nil
        invariant 1 <= i <= MAXASIZE + MAXNODES + 1 && v == GetInt(View(), i)
        invariant forall x: nat :: 1 <= x < i ==> GetInt(View(), x) != Nil
        decreases MAXASIZE + MAXNODES + 1 - i
      {
        PassedEntries(View(), i);
        i := i + 1;
        v := Lookup(Plain(Int(i)));
        IntGet(View(), i);
      }
      return i - 1;
    }

    /** `luaH_getn`. */
    method Getn() returns (n: nat)
      requires TableValid(View())
      ensures Boundary(View(), n)
    {
      ArrayFits(View());
      var j: nat := |arr|;
      if j > 0 && arr[j - 1] == Nil {
        var i: nat := 0;
        while j - i > 1
          invariant i < j <= |arr| && (i == 0 || arr[i - 1] != Nil) && arr[j - 1] == Nil
        {
          var m := (i + j) / 2;
          if arr[m - 1] == Nil {
            j := m;
          } else {
            i := m;
          }
        }
        return i;
      } else if dummy {
        DummyGet(View(), j + 1);
        return j;
      } else {
        n := UnboundSearch(j);
      }
    }
  }

  /** The next call finds its key, and goes on at `x`. */
  ghost predicate CanGoOn(t: T, key: Option<Key>, x: nat) {
    && (key.Some? ==> InArray(t, key.value) || exists i :: Named(t.node, i, key.value))
    && forall y: nat :: IndexOf(t, key, y) ==> y == x
  }

  lemma GoesOn(t: T, key: Option<Key>, x: nat)
    requires CanGoOn(t, key, x)
    ensures key.Some? ==> InArray(t, key.value) || exists i :: Named(t.node, i, key.value)
  {
  }

  lemma ItsIndex(t: T, key: Option<Key>, x: nat, y: nat)
    requires CanGoOn(t, key, x) && IndexOf(t, key, y)
    ensures y == x
  {
    hide IndexOf;
  }

  lemma GoOnAfter(a: T, b: T, p: nat, k: Key)
    requires TableValid(a) && TableValid(b) && Kept(a, b) && LiveAt(a, p, k)
    ensures CanGoOn(b, Some(k), p + 1) && Positions(a) == Positions(b)
  {
    hide TableValid, IndexOf, LiveAt, Named;
    NeverInvalid(a, b, p, k);
    OnlyIndex(a, b, p, k);
  }

  lemma AnswerAt(t: T, x: nat, r: NextResult) returns (p: nat)
    requires Answer(t, x, r) && r.Entry?
    ensures x <= p < Positions(t) && LiveAt(t, p, r.k)
  {
    hide LiveAt, ValAt;
    p :| FirstFull(t, x, p) && LiveAt(t, p, r.k) && r.v == ValAt(t, p);
  }

  lemma CallsStart(t: T)
    ensures Calls([t], None, []) && LastKey(None, []) == None && CanGoOn(t, None, 0)
  {
  }

  lemma CallProgress(ts: seq<T>, es: seq<(Key, Val)>)
    requires AllValid(ts) && Calls(ts, None, es)
    ensures |es| <= Positions(ts[0])
  {
    hide AllValid, Calls;
    Progress(ts, None, es, 0);
  }

  lemma SameMapSelf(t: T)
    ensures SameMap(t, t)
  {
  }

  lemma CellPresent(t: T, cell: Cell, k: Key)
    requires CellFor(t, cell, k)
    ensures !Absent(t, k) && SameMap(t, t)
  {
    hide Get;
    if cell.InNode? {
      HasKeyAt(t.node, cell.i, k);
    }
  }

  // ---------- when there is room ----------

  /** A new key can be put in the hash part as it is: in its main position, or in a free node. */
  ghost predicate HasPlace(t: T, k: Key) {
    HasFree(t) || (|t.node| > 0 && !t.dummy && t.node[MainPosition(k, |t.node|)].val == Nil)
  }

  lemma PlaceIs(t: T, k: Key)
    requires TableValid(t)
    ensures var mp := MainPosition(k, |t.node|); mp < |t.node| && (HasPlace(t, k) <==> HasFree(t) || !(t.node[mp].val != Nil || t.dummy))
  {
    hide TableValid, HasFree;
    MainNode(t, k);
  }

  lemma FreeIs(t: T, u: T, f: nat)
    requires FreeAt(u, f) && u == t.(lastfree := f)
    ensures HasFree(t)
  {
    hide TableValid;
  }

  /** A table for the keys `K` needs too much: the array part has more than 2^30 candidates, for which
      `computesizes` overruns, or the hash part that goes with the best array part more than 2^30 nodes. */
  ghost predicate NoRoom(K: set<Key>) {
    |Candidates(K)| > Pow2(MAXHBITS) || exists n: nat :: BestArray(K, n) && |HashBound(K, n)| > Pow2(MAXHBITS)
  }

  /** The key has a cell, or can get one, if need be by a rehash. */
  ghost predicate Fits(t: T, k: Key) {
    !Absent(t, k) || HasPlace(t, k) || !NoRoom(LiveKeys(t) + {k})
  }

  lemma FitsAbsent(t: T, k: Key)
    requires Absent(t, k)
    ensures Fits(t, k) <==> HasPlace(t, k) || !NoRoom(LiveKeys(t) + {k})
  {
    hide Absent, HasPlace, NoRoom, LiveKeys;
  }

  lemma RankFits(t: T, k: Key)
    requires Rank(t, k) == 0
    ensures Fits(t, k)
  {
    hide Absent, NoRoom, LiveKeys, HasFree;
  }

  lemma TooManyInts(K: set<Key>)
    requires |Candidates(K)| > Pow2(30)
    ensures NoRoom(K)
  {
    hide Candidates, BestArray, HashBound;
  }

  lemma BestUnique(K: set<Key>, m: nat, n: nat)
    requires BestArray(K, m) && BestArray(K, n)
    ensures m == n
  {
    if m != n {
      var a, b := if m < n then m else n, if m < n then n else m;
      var l: nat :| b == Pow2(l);
      if l > MAXABITS {
        PowersOfTwo();
        Pow2Monotone(MAXABITS + 1, l);
      }
    }
    hide Candidates, UpTo, Pow2;
  }

  lemma RoomIs(K: set<Key>, n: nat)
    requires BestArray(K, n) && |Candidates(K)| <= Pow2(30)
    ensures NoRoom(K) <==> |HashBound(K, n)| > Pow2(30)
  {
    hide BestArray, Candidates, HashBound, Pow2;
    if m: nat :| BestArray(K, m) && |HashBound(K, m)| > Pow2(MAXHBITS) {
      BestUnique(K, m, n);
    }
  }

  lemma HashBoundFew(K: set<Key>, n: nat)
    ensures |HashBound(K, n)| <= |K|
  {
    SubsetSize(HashBound(K, n), K);
  }

  /** Below 2^30 keys every key fits. */
  lemma FewFit(t: T, k: Key)
    requires TableValid(t)
    ensures |LiveKeys(t)| < Pow2(30) ==> Fits(t, k)
  {
    hide TableValid, Absent, HasPlace, LiveKeys, BestArray, HashBound, Candidates, Pow2;
    if Absent(t, k) && |LiveKeys(t)| < Pow2(30) {
      var K := LiveKeys(t) + {k};
      FewCandidates(t, k);
      if n: nat :| BestArray(K, n) && |HashBound(K, n)| > Pow2(MAXHBITS) {
        HashBoundFew(K, n);
      }
    }
  }

  /** A bound on the length of the chain from `i`. */
  ghost function FiniteBound(ns: seq<Node>, i: nat): (n: nat)
    requires Valid(ns) && i < |ns|
    ensures Ends(ns, i, n)
  {
    assert Finite(ns, i);
    var n: nat :| Ends(ns, i, n);
    n
  }

  lemma HasKeyAt(ns: seq<Node>, i: nat, k: Key)
    requires i < |ns| && ns[i].key == Live(k)
    ensures HasKey(ns, k)
  {
  }

  lemma NonEmpty(t: T)
    requires TableValid(t)
    ensures |t.node| > 0 && Valid(t.node)
  {
  }

  lemma EndsIn(ns: seq<Node>, i: int, n: nat)
    requires Ends(ns, i, n)
    ensures 0 <= i < |ns|
  {
  }

  lemma InsertedCell(u: T, b: T, p: nat, k: Key)
    requires Inserted(u, b, p, k)
    ensures CellFor(b, InNode(p), k) && !b.dummy
  {
    hide TableValid, SameMap;
  }

  /** What is known when a free position `f` has been found for key `k`, whose main position is taken. */
  lemma FreeUsable(t: T, f: nat, k: Key, mp: nat)
    requires TableValid(t) && Absent(t, k) && mp < |t.node| && FreeAt(t.(lastfree := f), f) && (t.node[mp].val != Nil || t.dummy)
    ensures !t.dummy && Absent(t.(lastfree := f), k) && Keyed(t.node, mp) && t.node[mp].key.Live? && f != mp
    ensures Collides(t.node, mp, f)
  {
    hide Valid, LiveFirst, HasKey, Threaded;
    MainNode(t, k);
    FreeNode(t.(lastfree := f), f);
  }

  lemma MoveApart(u: T, mp: nat, f: nat, o: nat)
    requires FreeAt(u, f) && Keyed(u.node, mp) && o < |u.node| && u.node[o].next != 0 && o + u.node[o].next == mp
    ensures Displaced(u.node, mp, f, o) && f != mp && o != f && o != mp
  {
    FreeNode(u, f);
    hide FreeAt, Threaded;
    DisplacedApart(u.node, mp, f, o);
  }

  // ---------- glue ----------

  lemma GrownSame(t: T, b: T, k: Key)
    requires Grown(t, b, k)
    ensures TableValid(b) && SameMap(t, b)
  {
  }

  lemma SpentFree(t: T, u: T, k: Key)
    requires TableValid(t) && Absent(t, k) && !HasFree(t) && TableValid(u) && u == t.(lastfree := 0)
    ensures Absent(u, k) && LiveKeys(u) == LiveKeys(t) && Rank(t, k) == 1 && SameMap(t, u)
  {
    hide TableValid, HasKey, HashGet;
    forall q
      ensures Get(t, q) == Get(u, q)
    {
    }
  }

  /** The table has been rehashed: same map, room for `ek`, and the best array size for all keys. */
  ghost predicate Rehashed(o: T, b: T, ek: Key) {
    && TableValid(b) && SameMap(o, b) && Rank(b, ek) == 0 && BestArray(LiveKeys(o) + {ek}, |b.arr|)
    && NodeCount(|HashBound(LiveKeys(o) + {ek}, |b.arr|)|, |b.node|)
  }

  lemma RehashedRank(o: T, b: T, ek: Key)
    requires Rehashed(o, b, ek)
    ensures TableValid(b) && SameMap(o, b) && Rank(b, ek) == 0
  {
  }

  lemma FillValid(o: T, b: T, P: set<Key>, nasize: nat, nhsize: nat)
    requires Filling(o, b, P, nasize, nhsize)
    ensures TableValid(b)
  {
    hide TableValid, NodeCount, LiveKeys, Get;
  }

  lemma RankZero(b: T, k: Key)
    requires Absent(b, k) ==> HasFree(b)
    ensures Rank(b, k) == 0
  {
  }

  lemma CellIn(b: T, cell: Cell, k: Key)
    requires CellFor(b, cell, k)
    ensures match cell case InArr(i) => i < |b.arr| case InNode(i) => i < |b.node|
  {
  }

  lemma CoveredStart(o: T, nasize: nat)
    ensures Covered(o, Ints(if nasize < |o.arr| then nasize else |o.arr|), nasize, |o.node|)
  {
    assert NodeLive(o.node, |o.node|) == {};
  }

  lemma ArrayFits(o: T)
    requires TableValid(o)
    ensures |o.arr| <= MAXASIZE
  {
  }

  lemma TallySum(nums: seq<nat>, na: nat, K: set<Key>)
    requires Tally(nums, na, K)
    ensures |nums| == MAXABITS + 1 && WithinSlices(nums) && na == Sum(nums, |nums|) && na == |Candidates(K)|
  {
    hide Candidates;
    CountedAll(nums, Candidates(K));
  }

  lemma BestFits(K: set<Key>, n: nat)
    requires BestArray(K, n)
    ensures n <= MAXASIZE
  {
  }

  lemma RehashDone(o: T, b: T, ek: Key, asize: nat, nhsize: nat)
    requires TableValid(o) && Absent(o, ek) && asize <= MAXASIZE && BestArray(LiveKeys(o) + {ek}, asize)
    requires Resized(o, b, asize, nhsize) && |HashBound(LiveKeys(o) + {ek}, asize)| == nhsize
    ensures Rehashed(o, b, ek)
  {
    hide TableValid, Absent, LiveKeys, BestArray, HashBound, NodeCount, SameMap;
    Rehashed1(o, b, ek, asize, nhsize, LiveKeys(o) + {ek});
  }

  // ---------- glue for the operations ----------

  /** The map of `b` is that of `a` with `v` stored under `k`. */
  ghost predicate Updated(a: T, b: T, k: Key, v: Val) {
    forall q :: Get(b, q) == if q == k then v else Get(a, q)
  }

  /** What a program finds under a key that it gives. */
  ghost function Found(t: T, key: RawKey): Val {
    match key
    case Plain(k) => Get(t, k)
    case IntegralFloat(i) => Get(t, Int(i))
    case _ => Nil
  }

  /** `v` has been stored under a key that the program gives. */
  ghost predicate Wrote(a: T, b: T, key: RawKey, v: Val) {
    match key
    case Plain(k) => Updated(a, b, k, v)
    case IntegralFloat(i) => Updated(a, b, Int(i), v)
    case _ => false
  }

  /** A float with an integer value and that integer are one key, whichever of them is stored under and looked up. */
  lemma FloatIsInteger(a: T, b: T, i: int64, v: Val, float: bool)
    requires Wrote(a, b, if float then IntegralFloat(i) else Plain(Int(i)), v)
    ensures Found(b, Plain(Int(i))) == v && Found(b, IntegralFloat(i)) == v
    ensures forall j: int64 :: j != i ==> Found(b, Plain(Int(j))) == Found(a, Plain(Int(j))) && Found(b, IntegralFloat(j)) == Found(a, IntegralFloat(j))
    ensures forall k: Key :: !k.Int? ==> Found(b, Plain(k)) == Found(a, Plain(k))
  {
  }

  /** A value stored under any other key is found under it and nowhere else; nothing is found under nil and NaN. */
  lemma OthersStay(a: T, b: T, k: Key, v: Val, q: RawKey)
    requires Wrote(a, b, Plain(k), v)
    ensures Found(b, Plain(k)) == v
    ensures q != Plain(k) && !(q.IntegralFloat? && k == Int(q.i)) ==> Found(b, q) == Found(a, q)
    ensures Found(b, NilKey) == Nil && Found(b, NaN) == Nil
  {
  }

  lemma UpdatedBy(t: T, u: T, cell: Cell, k: Key, v: Val)
    requires SameMap(t, u) && TableValid(u) && CellFor(u, cell, k)
    ensures TableValid(Stored(u, cell, v)) && Updated(t, Stored(u, cell, v), k, v)
  {
    hide TableValid, Get, SetVal;
    StoreValid(u, cell, k, v);
    forall q
      ensures Get(Stored(u, cell, v), q) == if q == k then v else Get(t, q)
    {
      StoreGet(u, cell, k, v, q);
      assert Get(t, q) == Get(u, q);
    }
  }

  lemma AbsentGet(t: T, k: Key)
    requires Absent(t, k)
    ensures Get(t, k) == Nil
  {
  }

  lemma CellGet(t: T, cell: Cell, k: Key)
    requires TableValid(t) && CellFor(t, cell, k)
    ensures match cell case InArr(i) => i < |t.arr| case InNode(i) => i < |t.node|
    ensures Get(t, k) == if cell.InArr? then t.arr[cell.i] else t.node[cell.i].val
  {
    hide Threaded, Homed, LiveFirst;
    if cell.InNode? {
      HashGetAt(t.node, cell.i, k);
    }
  }

  lemma NamedStart(ns: seq<Node>, k: Key)
    requires Valid(ns)
    ensures forall i :: Named(ns, i, k) ==> Reaches(ns, MainPosition(k, |ns|), i)
  {
    forall i | Named(ns, i, k)
      ensures Reaches(ns, MainPosition(k, |ns|), i)
    {
      assert AtHome(ns, i);
    }
  }

  lemma NamedNext(ns: seq<Node>, p: int, k: Key)
    requires 0 <= p < |ns| && !Named(ns, p, k) && forall j :: Named(ns, j, k) ==> Reaches(ns, p, j)
    ensures ns[p].next == 0 ==> forall j :: !Named(ns, j, k)
    ensures forall j :: Named(ns, j, k) ==> Reaches(ns, p + ns[p].next, j)
  {
    hide Reaches;
    forall j | Named(ns, j, k)
      ensures ns[p].next != 0 && Reaches(ns, p + ns[p].next, j)
    {
      ReachesNext(ns, p, j);
    }
  }

  lemma IndexBound(t: T, key: Option<Key>, x: nat)
    requires IndexOf(t, key, x)
    ensures x <= Positions(t)
  {
    hide Reaches;
  }

  lemma ValueKey(t: T, i: nat)
    requires TableValid(t) && i < |t.node| && t.node[i].val != Nil
    ensures t.node[i].key.Live?
  {
    hide Valid, LiveFirst;
  }

  ghost function GetInt(t: T, n: nat): Val {
    if n < TWO_TO_63 then Get(t, Int(n)) else Nil
  }

  /** An index `n` such that `t[n]` is not nil, or 0, and `t[n + 1]` is nil. */
  ghost predicate Boundary(t: T, n: nat) {
    (n == 0 || GetInt(t, n) != Nil) && GetInt(t, n + 1) == Nil
  }

  lemma IntGet(t: T, n: nat)
    requires n < TWO_TO_63
    ensures GetInt(t, n) == Get(t, Int(n))
  {
  }

  lemma DummyGet(t: T, n: nat)
    requires TableValid(t) && t.dummy && n > |t.arr|
    ensures GetInt(t, n) == Nil
  {
    hide Valid, LiveFirst;
    assert forall i :: 0 <= i < |t.node| ==> t.node[i] == EMPTY;
  }

  lemma FewEntries(t: T)
    requires TableValid(t)
    ensures |LiveKeys(t)| <= MAXASIZE + MAXNODES
  {
    hide Valid, LiveFirst, SizeOk;
    UsedAll(t.arr);
    IntervalSize(0, |t.arr|);
    SubsetSize(Used(t.arr, |t.arr|), Interval(0, |t.arr|));
    FewNodes(t.node, 0);
    Disjoint(ArrayKeys(t.arr), NodeLive(t.node, 0));
  }

  lemma Disjoint(a: set<Key>, b: set<Key>)
    ensures |a + b| <= |a| + |b|
  {
    assert |a + b| == |a| + |b - a| by {
      assert a + b == a + (b - a);
    }
    SubsetSize(b - a, b);
  }

  lemma FewNodes(ns: seq<Node>, i: nat)
    requires i <= |ns|
    ensures |NodeLive(ns, i)| <= |ns| - i
    decreases |ns| - i
  {
    if i == |ns| {
      assert NodeLive(ns, i) == {};
    } else {
      FewNodes(ns, i + 1);
      if ns[i].val != Nil && ns[i].key.Live? {
        assert NodeLive(ns, i) == NodeLive(ns, i + 1) + {ns[i].key.k};
      } else {
        assert NodeLive(ns, i) == NodeLive(ns, i + 1);
      }
    }
  }

  lemma PassedEntries(t: T, n: nat)
    requires TableValid(t) && n < TWO_TO_63 && forall x: nat :: 1 <= x <= n ==> GetInt(t, x) != Nil
    ensures n <= |LiveKeys(t)|
  {
    hide TableValid, Get, LiveKeys;
    var A := Ints63(n);
    forall k | k in A
      ensures k in LiveKeys(t)
    {
      assert GetInt(t, k.i) != Nil;
      LiveKeysAre(t, k);
    }
    Ints63Size(n);
    SubsetSize(A, LiveKeys(t));
  }

  ghost function Ints63(n: nat): (r: set<Key>)
    requires n < TWO_TO_63
    ensures forall k :: k in r <==> k.Int? && 1 <= k.i <= n
  {
    if n == 0 then {} else Ints63(n - 1) + {Int(n)}
  }

  lemma Ints63Size(n: nat)
    requires n < TWO_TO_63
    ensures |Ints63(n)| == n
  {
    if n > 0 {
      Ints63Size(n - 1);
    }
  }
}
