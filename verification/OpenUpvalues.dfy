/** Open upvalues of a thread, and the stack that they point into: sharing, closing, moving. */
module OpenUpvalues {

  type Id = nat

  const LUAI_MAXSTACK: int := 1000000
  const EXTRA_STACK: int := 5
  const ERRORSTACKSIZE: int := LUAI_MAXSTACK + 200
  const LUA_MINSTACK: int := 20

  /** The largest frame of a Lua function: `luaK_checkstack` refuses 255 registers. */
  const MAXFRAME: int := 254

  datatype Value = Nil | Data(bits: nat)

  datatype Link = Null | To(id: Id)

  /** Where an upvalue's value lives: a stack slot, given by its address, or the upvalue itself. */
  datatype Place = Slot(addr: int) | Own

  datatype UpVal = UpVal(v: Place, refcount: nat, next: Link, touched: bool, value: Value)

  datatype CallInfo = CallInfo(func: int, top: int, base: int, isLua: bool)

  datatype Outcome = Done | StackOverflow | ErrorInError

  // ---------- the list of open upvalues ----------

  ghost function At(s: seq<Id>, i: int): Link {
    if 0 <= i < |s| then To(s[i]) else Null
  }

  /** The address of the slot of an open upvalue. */
  ghost function Addr(h: map<Id, UpVal>, u: Id): int {
    if u in h && h[u].v.Slot? then h[u].v.addr else 0
  }

  ghost predicate OpenAt(h: map<Id, UpVal>, s: seq<Id>, i: nat)
    requires i < |s|
  {
    s[i] in h && h[s[i]].v.Slot? && h[s[i]].next == At(s, i + 1)
  }

  /** `s` is the list from `l` on, strictly descending by address: no slot has two upvalues in it. */
  ghost predicate OpenList(h: map<Id, UpVal>, l: Link, s: seq<Id>) {
    && l == At(s, 0) && (forall i :: 0 <= i < |s| ==> OpenAt(h, s, i))
    && forall i, j :: 0 <= i < j < |s| ==> Addr(h, s[i]) > Addr(h, s[j])
  }

  lemma OpenOnce(h: map<Id, UpVal>, l: Link, s: seq<Id>)
    requires OpenList(h, l, s)
    ensures forall i, j :: 0 <= i < |s| && 0 <= j < |s| && s[i] == s[j] ==> i == j
  {
    assert forall i :: 0 <= i < |s| ==> OpenAt(h, s, i);
  }

  function Inserted(s: seq<Id>, i: nat, u: Id): seq<Id>
    requires i <= |s|
  {
    s[..i] + [u] + s[i..]
  }

  /** The heap after `u` was linked in at place `i`. */
  function LinkedIn(h: map<Id, UpVal>, s: seq<Id>, i: nat, u: Id, uv: UpVal): map<Id, UpVal>
    requires i <= |s| && (i > 0 ==> s[i - 1] in h)
  {
    (if i == 0 then h else h[s[i - 1] := h[s[i - 1]].(next := To(u))])[u := uv]
  }

  lemma InsertOpen(h: map<Id, UpVal>, l: Link, s: seq<Id>, i: nat, u: Id, level: int, uv: UpVal)
    requires OpenList(h, l, s) && i <= |s| && u !in h && uv.v == Slot(level) && uv.next == At(s, i)
    requires i > 0 ==> OpenAt(h, s, i - 1) && Addr(h, s[i - 1]) > level
    requires i < |s| ==> OpenAt(h, s, i) && Addr(h, s[i]) < level
    ensures OpenList(LinkedIn(h, s, i, u, uv), if i == 0 then To(u) else l, Inserted(s, i, u))
  {
    var h', s' := LinkedIn(h, s, i, u, uv), Inserted(s, i, u);
    forall k | 0 <= k < |s'|
      ensures OpenAt(h', s', k) && Addr(h', s'[k]) == AddrIn(h, s, i, level, k)
    {
      InsertAt(h, l, s, i, u, level, uv, k);
    }
    forall j, k | 0 <= j < k < |s'|
      ensures Addr(h', s'[j]) > Addr(h', s'[k])
    {
      InsertOrder(h, l, s, i, level, j, k);
    }
  }

  ghost function AddrIn(h: map<Id, UpVal>, s: seq<Id>, i: nat, level: int, k: nat): int
    requires i <= |s| && k <= |s|
  {
    if k < i then Addr(h, s[k]) else if k == i then level else Addr(h, s[k - 1])
  }

  lemma InsertAt(h: map<Id, UpVal>, l: Link, s: seq<Id>, i: nat, u: Id, level: int, uv: UpVal, k: nat)
    requires OpenList(h, l, s) && i <= |s| && u !in h && uv.v == Slot(level) && uv.next == At(s, i) && k <= |s|
    requires i > 0 ==> s[i - 1] in h
    ensures OpenAt(LinkedIn(h, s, i, u, uv), Inserted(s, i, u), k)
    ensures Addr(LinkedIn(h, s, i, u, uv), Inserted(s, i, u)[k]) == AddrIn(h, s, i, level, k)
  {
    OpenOnce(h, l, s);
    if k < i {
      assert OpenAt(h, s, k);
    } else if k > i {
      assert OpenAt(h, s, k - 1);
    }
  }

  lemma InsertOrder(h: map<Id, UpVal>, l: Link, s: seq<Id>, i: nat, level: int, j: nat, k: nat)
    requires OpenList(h, l, s) && i <= |s| && j < k <= |s|
    requires i > 0 ==> Addr(h, s[i - 1]) > level
    requires i < |s| ==> Addr(h, s[i]) < level
    ensures AddrIn(h, s, i, level, j) > AddrIn(h, s, i, level, k)
  {
    assert j < i - 1 ==> Addr(h, s[j]) > Addr(h, s[i - 1]);
    assert k - 1 > i ==> Addr(h, s[i]) > Addr(h, s[k - 1]);
  }

  /** Every address in the list shifted by the same amount. */
  lemma ShiftOpen(h: map<Id, UpVal>, l: Link, s: seq<Id>, h': map<Id, UpVal>, d: int)
    requires OpenList(h, l, s)
    requires forall i :: 0 <= i < |s| ==> s[i] in h && s[i] in h' && h[s[i]].v.Slot? && h'[s[i]] == h[s[i]].(v := Slot(h[s[i]].v.addr + d))
    ensures OpenList(h', l, s)
  {
    forall k | 0 <= k < |s|
      ensures OpenAt(h', s, k)
    {
      assert OpenAt(h, s, k);
    }
  }

  // ---------- the thread, as a value ----------

  /** A thread: `ci` is the list of active calls, the current one first, and `open` the list of upvalues. */
  datatype View = View(upvals: map<Id, UpVal>, head: Link, open: seq<Id>, stack: int, slots: seq<Value>, top: int, ci: seq<CallInfo>)

  /** The slots below the top, or below the top of some call. */
  ghost predicate Used(x: View, a: int) {
    x.stack <= a && (a < x.top || exists i :: 0 <= i < |x.ci| && a < x.ci[i].top)
  }

  ghost predicate FrameIn(x: View, f: CallInfo) {
    x.stack <= f.func < f.top <= x.stack + |x.slots| && (f.isLua ==> f.func < f.base <= f.top)
  }

  ghost predicate Framed(x: View) {
    x.stack <= x.top <= x.stack + |x.slots| && forall i :: 0 <= i < |x.ci| ==> FrameIn(x, x.ci[i])
  }

  /** Every upvalue that is not closed is in the list, and its slot is in use. */
  ghost predicate Sound(x: View) {
    && Framed(x) && OpenList(x.upvals, x.head, x.open)
    && forall u :: u in x.upvals && x.upvals[u].v.Slot? ==> u in x.open && Used(x, x.upvals[u].v.addr)
  }

  /** The value that an upvalue has for the closures that use it. */
  ghost function Read(x: View, u: Id): Value {
    if u !in x.upvals then Nil
    else if x.upvals[u].v.Own? then x.upvals[u].value
    else var k := x.upvals[u].v.addr - x.stack; if 0 <= k < |x.slots| then x.slots[k] else Nil
  }

  lemma UsedInside(x: View, a: int)
    requires Framed(x) && Used(x, a)
    ensures 0 <= a - x.stack < |x.slots|
  {
    assert forall i :: 0 <= i < |x.ci| ==> FrameIn(x, x.ci[i]);
  }

  // ---------- a new upvalue ----------

  lemma InsertSound(x: View, y: View, i: nat, u: Id, level: int, uv: UpVal)
    requires Sound(x) && i <= |x.open| && u !in x.upvals && uv.v == Slot(level) && uv.next == At(x.open, i) && Used(x, level)
    requires i > 0 ==> Addr(x.upvals, x.open[i - 1]) > level
    requires i < |x.open| ==> Addr(x.upvals, x.open[i]) < level
    ensures i > 0 ==> OpenAt(x.upvals, x.open, i - 1)
    ensures y == AfterInsert(x, i, u, uv) ==>
      Sound(y) && u in y.open && forall w :: w in x.upvals ==> w in y.upvals && Read(y, w) == Read(x, w)
  {
    hide OpenList;
    InsertPlace(x, i);
    InsertOpen(x.upvals, x.head, x.open, i, u, level, uv);
    if y == AfterInsert(x, i, u, uv) {
      hide OpenAt;
      InsertedHas(x.open, i, u);
      InsertUsed(x, y);
    }
  }

  ghost function AfterInsert(x: View, i: nat, u: Id, uv: UpVal): View
    requires i <= |x.open| && (i > 0 ==> x.open[i - 1] in x.upvals)
  {
    x.(upvals := LinkedIn(x.upvals, x.open, i, u, uv), head := if i == 0 then To(u) else x.head, open := Inserted(x.open, i, u))
  }

  lemma InsertPlace(x: View, i: nat)
    requires Sound(x) && i <= |x.open|
    ensures i > 0 ==> OpenAt(x.upvals, x.open, i - 1)
    ensures i < |x.open| ==> OpenAt(x.upvals, x.open, i)
  {
  }

  lemma InsertUsed(x: View, y: View)
    requires Framed(x) && y == x.(upvals := y.upvals, head := y.head, open := y.open)
    ensures Framed(y) && forall a :: Used(x, a) ==> Used(y, a)
  {
    forall k | 0 <= k < |y.ci|
      ensures FrameIn(y, y.ci[k])
    {
      assert FrameIn(x, x.ci[k]);
    }
  }

  lemma InsertedHas(s: seq<Id>, i: nat, u: Id)
    requires i <= |s|
    ensures forall w :: w in Inserted(s, i, u) <==> w in s || w == u
  {
    forall w
      ensures w in Inserted(s, i, u) <==> w in s || w == u
    {
      assert s == s[..i] + s[i..];
    }
  }

  // ---------- closing ----------

  /** What closing does to an open upvalue. */
  ghost predicate ClosedUp(x: View, h: map<Id, UpVal>, u: Id) {
    u in x.upvals && if x.upvals[u].refcount == 0 then u !in h
      else u in h && h[u].v == Own && h[u].refcount == x.upvals[u].refcount && h[u].value == Read(x, u)
  }

  /** The first `k` upvalues of the list have been closed, and the others are as they were. */
  ghost predicate ClosedTo(x: View, h: map<Id, UpVal>, k: nat)
    requires k <= |x.open|
  {
    && (forall i :: 0 <= i < k ==> ClosedUp(x, h, x.open[i]))
    && (forall u :: u in x.upvals && u !in x.open[..k] ==> u in h && h[u] == x.upvals[u])
    && forall u :: u in h ==> u in x.upvals
  }

  ghost function CloseOne(x: View, h: map<Id, UpVal>, u: Id): map<Id, UpVal>
    requires u in h
  {
    if h[u].refcount == 0 then h - {u} else h[u := h[u].(value := Read(x, u), v := Own)]
  }

  lemma CloseStep(x: View, h: map<Id, UpVal>, k: nat)
    requires Sound(x) && k < |x.open| && ClosedTo(x, h, k)
    ensures x.open[k] in h && h[x.open[k]] == x.upvals[x.open[k]] && OpenAt(x.upvals, x.open, k)
    ensures ClosedTo(x, CloseOne(x, h, x.open[k]), k + 1)
  {
    OpenOnce(x.upvals, x.head, x.open);
    assert OpenAt(x.upvals, x.open, k);
    var u := x.open[k];
    assert u !in x.open[..k];
    var h' := CloseOne(x, h, u);
    forall i | 0 <= i < k + 1
      ensures ClosedUp(x, h', x.open[i])
    {
      if i < k {
        assert ClosedUp(x, h, x.open[i]) && x.open[i] != u;
      }
    }
    assert forall w :: w in x.open[..k] || w == u ==> w in x.open[..k + 1] by {
      assert x.open[..k + 1] == x.open[..k] + [u];
    }
  }

  lemma ReadOpen(x: View, i: nat)
    requires Sound(x) && i < |x.open|
    ensures x.open[i] in x.upvals && x.upvals[x.open[i]].v.Slot? && Addr(x.upvals, x.open[i]) == x.upvals[x.open[i]].v.addr
    ensures x.upvals[x.open[i]].next == At(x.open, i + 1) && Used(x, Addr(x.upvals, x.open[i]))
    ensures 0 <= Addr(x.upvals, x.open[i]) - x.stack < |x.slots| && Read(x, x.open[i]) == x.slots[Addr(x.upvals, x.open[i]) - x.stack]
  {
    assert OpenAt(x.upvals, x.open, i);
    UsedInside(x, x.upvals[x.open[i]].v.addr);
  }

  /** A suffix of the list, over a heap that agrees on it. */
  lemma SuffixOpen(x: View, h: map<Id, UpVal>, k: nat)
    requires Sound(x) && k <= |x.open| && ClosedTo(x, h, k)
    ensures OpenList(h, At(x.open, k), x.open[k..])
  {
    OpenOnce(x.upvals, x.head, x.open);
    var t := x.open[k..];
    assert forall i :: 0 <= i < |t| ==> t[i] == x.open[k + i];
    forall i | 0 <= i < |t|
      ensures t[i] in h && h[t[i]] == x.upvals[t[i]] && OpenAt(h, t, i)
    {
      assert OpenAt(x.upvals, x.open, k + i) && t[i] !in x.open[..k];
    }
  }

  /** The list was followed down to `level`: exactly the upvalues from there on have been closed. */
  lemma CloseEnd(x: View, y: View, k: nat, level: int)
    requires Sound(x) && k <= |x.open| && ClosedTo(x, y.upvals, k)
    requires y == x.(upvals := y.upvals, head := At(x.open, k), open := x.open[k..])
    requires forall i :: 0 <= i < k ==> Addr(x.upvals, x.open[i]) >= level
    requires k < |x.open| ==> Addr(x.upvals, x.open[k]) < level
    ensures Sound(y) && Detached(x, y, level)
  {
    hide OpenList, OpenAt, Addr, ClosedTo, ClosedUp, Sound, Framed;
    CloseOrder(x, k, level);
    CloseSound(x, y, k, level);
    forall u | u in x.upvals
      ensures DetachedAt(x, y, level, u)
    {
      CloseEach(x, y, k, level, u);
    }
    OnlyOld(x, y.upvals, k);
  }

  lemma OnlyOld(x: View, h: map<Id, UpVal>, k: nat)
    requires k <= |x.open| && ClosedTo(x, h, k)
    ensures forall u :: u in h ==> u in x.upvals
  {
  }

  lemma CloseSound(x: View, y: View, k: nat, level: int)
    requires Sound(x) && k <= |x.open| && ClosedTo(x, y.upvals, k)
    requires y == x.(upvals := y.upvals, head := At(x.open, k), open := x.open[k..])
    requires forall i :: 0 <= i < |x.open| ==> (Addr(x.upvals, x.open[i]) >= level <==> i < k)
    ensures Sound(y)
  {
    hide OpenAt, Addr, ClosedUp, Used;
    SuffixOpen(x, y.upvals, k);
    forall i | 0 <= i < |y.ci|
      ensures FrameIn(y, y.ci[i])
    {
      assert FrameIn(x, x.ci[i]);
    }
    forall u | u in y.upvals && y.upvals[u].v.Slot?
      ensures u in y.open && Used(y, y.upvals[u].v.addr)
    {
      CloseEach(x, y, k, level, u);
      UsedSame(x, y, x.upvals[u].v.addr);
    }
  }

  lemma UsedSame(x: View, y: View, a: int)
    requires Used(x, a) && y.stack == x.stack && y.top == x.top && y.ci == x.ci
    ensures Used(y, a)
  {
  }

  lemma CloseOrder(x: View, k: nat, level: int)
    requires Sound(x) && k <= |x.open|
    requires forall i :: 0 <= i < k ==> Addr(x.upvals, x.open[i]) >= level
    requires k < |x.open| ==> Addr(x.upvals, x.open[k]) < level
    ensures forall i :: 0 <= i < |x.open| ==> (Addr(x.upvals, x.open[i]) >= level <==> i < k)
  {
    forall i | 0 <= i < |x.open|
      ensures Addr(x.upvals, x.open[i]) >= level <==> i < k
    {
      if i > k {
        assert Addr(x.upvals, x.open[k]) > Addr(x.upvals, x.open[i]);
      }
    }
  }

  lemma CloseEach(x: View, y: View, k: nat, level: int, u: Id)
    requires Sound(x) && k <= |x.open| && ClosedTo(x, y.upvals, k) && u in x.upvals
    requires forall i :: 0 <= i < |x.open| ==> (Addr(x.upvals, x.open[i]) >= level <==> i < k)
    ensures DetachedAt(x, y, level, u)
    ensures u in y.upvals && y.upvals[u].v.Slot? ==> y.upvals[u] == x.upvals[u] && u in x.open[k..]
  {
    hide Framed, Used, Sound;
    AllOpen(x, u);
    if i: nat :| i < |x.open| && x.open[i] == u {
      if i < k {
        assert ClosedUp(x, y.upvals, x.open[i]);
      } else {
        NotBefore(x, i, k);
        assert x.open[k..][i - k] == u;
      }
    }
  }

  lemma AllOpen(x: View, u: Id)
    requires Sound(x) && u in x.upvals
    ensures x.upvals[u].v.Slot? ==> u in x.open
    ensures forall i :: 0 <= i < |x.open| && x.open[i] == u ==> OpenAt(x.upvals, x.open, i)
    ensures u !in x.open ==> forall i :: 0 <= i < |x.open| ==> x.open[i] != u
  {
  }

  lemma NotBefore(x: View, i: nat, k: nat)
    requires Sound(x) && k <= i < |x.open|
    ensures x.open[i] !in x.open[..k]
  {
    OpenOnce(x.upvals, x.head, x.open);
  }

  /** Open upvalues from `level` on are closed over their value, or freed if no closure uses them; all the
      others are untouched. */
  ghost predicate DetachedAt(x: View, y: View, level: int, u: Id)
    requires u in x.upvals
  {
    if x.upvals[u].v.Slot? && x.upvals[u].v.addr >= level then ClosedUp(x, y.upvals, u)
    else u in y.upvals && y.upvals[u] == x.upvals[u]
  }

  ghost predicate Detached(x: View, y: View, level: int) {
    && (forall u :: u in x.upvals ==> DetachedAt(x, y, level, u)) && (forall u :: u in y.upvals ==> u in x.upvals)
    && y.stack == x.stack && y.slots == x.slots && y.top == x.top && y.ci == x.ci
  }

  /** None is left open at `level` or above, those below are as they were, and the others have their values or are gone. */
  lemma DetachedIs(x: View, y: View, level: int)
    requires Sound(x) && Detached(x, y, level)
    ensures forall u :: u in y.upvals && y.upvals[u].v.Slot? ==> y.upvals[u].v.addr < level
    ensures forall u :: u in x.upvals && x.upvals[u].v.Slot? && x.upvals[u].v.addr < level ==> u in y.upvals && y.upvals[u] == x.upvals[u]
    ensures forall u :: u in x.upvals && x.upvals[u].v.Slot? && x.upvals[u].v.addr >= level ==>
      var i := x.upvals[u].v.addr - x.stack;
      (u in y.upvals <==> x.upvals[u].refcount > 0) && (u in y.upvals ==> y.upvals[u].v == Own && 0 <= i < |x.slots| && y.upvals[u].value == x.slots[i])
  {
    hide Used, OpenList, Framed;
    forall u | u in x.upvals
      ensures DetachedAt(x, y, level, u)
      ensures x.upvals[u].v.Slot? ==> 0 <= x.upvals[u].v.addr - x.stack < |x.slots|
    {
      if x.upvals[u].v.Slot? {
        UsedInside(x, x.upvals[u].v.addr);
      }
    }
  }

  /** Closing changes the value of no upvalue, and frees only those that no closure refers to. */
  lemma ClosingKeepsValues(x: View, y: View, level: int)
    requires Sound(x) && Sound(y) && Detached(x, y, level)
    ensures forall u :: u in x.upvals && (x.upvals[u].refcount > 0 || u in y.upvals) ==> u in y.upvals && Read(y, u) == Read(x, u)
    ensures forall u :: u in y.open ==> Addr(y.upvals, u) < level
    ensures forall u :: u in x.open && Addr(x.upvals, u) < level ==> u in y.open
  {
    forall u | u in x.upvals && (x.upvals[u].refcount > 0 || u in y.upvals)
      ensures u in y.upvals && Read(y, u) == Read(x, u)
    {
      assert DetachedAt(x, y, level, u);
    }
    forall u | u in y.open
      ensures Addr(y.upvals, u) < level
    {
      var i :| 0 <= i < |y.open| && y.open[i] == u;
      assert OpenAt(y.upvals, y.open, i) && DetachedAt(x, y, level, u);
    }
    forall u | u in x.open && Addr(x.upvals, u) < level
      ensures u in y.open
    {
      var i :| 0 <= i < |x.open| && x.open[i] == u;
      assert OpenAt(x.upvals, x.open, i) && DetachedAt(x, y, level, u);
    }
  }

  // ---------- moving the stack ----------

  function MoveFrame(f: CallInfo, oldstack: int, stack: int): CallInfo {
    var g := f.(top := f.top - oldstack + stack, func := f.func - oldstack + stack);
    if f.isLua then g.(base := f.base - oldstack + stack) else g
  }

  function MoveUpVal(u: UpVal, oldstack: int, stack: int): UpVal {
    if u.v.Slot? then u.(v := Slot(u.v.addr - oldstack + stack)) else u
  }

  /** The same thread with its stack somewhere else: everything that pointed into it points to the same place
      of the new one, and slots that were not there before hold nil. */
  ghost predicate Moved(x: View, y: View) {
    && y.upvals.Keys == x.upvals.Keys && y.open == x.open && y.head == x.head
    && (forall u :: u in x.upvals ==> y.upvals[u] == MoveUpVal(x.upvals[u], x.stack, y.stack))
    && y.top == x.top - x.stack + y.stack
    && |y.ci| == |x.ci| && (forall i :: 0 <= i < |x.ci| ==> y.ci[i] == MoveFrame(x.ci[i], x.stack, y.stack))
    && forall k :: 0 <= k < |y.slots| ==> y.slots[k] == if k < |x.slots| then x.slots[k] else Nil
  }

  /** The part of the stack in use fits in `size` slots. */
  ghost predicate Fits(x: View, size: int) {
    x.top - x.stack <= size && forall i :: 0 <= i < |x.ci| ==> x.ci[i].top - x.stack <= size
  }

  lemma MovedUsed(x: View, y: View, a: int)
    requires Moved(x, y) && Framed(x) && Fits(x, |y.slots|) && Used(x, a)
    ensures Used(y, a - x.stack + y.stack) && 0 <= a - x.stack < |y.slots| && a - x.stack < |x.slots|
  {
    UsedInside(x, a);
    if a >= x.top {
      var i :| 0 <= i < |x.ci| && a < x.ci[i].top;
      assert y.ci[i] == MoveFrame(x.ci[i], x.stack, y.stack);
    }
  }

  lemma MovedFramed(x: View, y: View)
    requires Moved(x, y) && Framed(x) && Fits(x, |y.slots|)
    ensures Framed(y)
  {
    forall i | 0 <= i < |y.ci|
      ensures FrameIn(y, y.ci[i])
    {
      assert FrameIn(x, x.ci[i]) && y.ci[i] == MoveFrame(x.ci[i], x.stack, y.stack);
    }
  }

  lemma MovedOpen(x: View, y: View)
    requires Moved(x, y) && OpenList(x.upvals, x.head, x.open)
    ensures OpenList(y.upvals, y.head, y.open)
  {
    forall i | 0 <= i < |x.open|
      ensures var h, u := x.upvals, x.open[i]; u in h && h[u].v.Slot? && y.upvals[u] == h[u].(v := Slot(h[u].v.addr + (y.stack - x.stack)))
    {
      assert OpenAt(x.upvals, x.open, i);
    }
    ShiftOpen(x.upvals, x.head, x.open, y.upvals, y.stack - x.stack);
  }

  /** Wherever the stack goes, every upvalue keeps its value. */
  lemma MovingKeepsValues(x: View, y: View)
    requires Moved(x, y) && Sound(x) && Fits(x, |y.slots|)
    ensures Sound(y) && forall u :: u in x.upvals ==> Read(y, u) == Read(x, u)
  {
    hide OpenList;
    MovedFramed(x, y);
    MovedOpen(x, y);
    forall u | u in x.upvals
      ensures Read(y, u) == Read(x, u) && (y.upvals[u].v.Slot? ==> u in y.open && Used(y, y.upvals[u].v.addr))
    {
      MovedEach(x, y, u);
    }
  }

  lemma MovedEach(x: View, y: View, u: Id)
    requires Moved(x, y) && Sound(x) && Fits(x, |y.slots|) && u in x.upvals
    ensures u in y.upvals && Read(y, u) == Read(x, u) && (y.upvals[u].v.Slot? ==> u in y.open && Used(y, y.upvals[u].v.addr))
  {
    hide OpenList;
    assert y.upvals[u] == MoveUpVal(x.upvals[u], x.stack, y.stack);
    if x.upvals[u].v.Slot? {
      MovedUsed(x, y, x.upvals[u].v.addr);
    }
  }

  /** The first `i` upvalues of the list have been moved. */
  ghost predicate MovedTo(x: View, h: map<Id, UpVal>, i: nat, stack: int)
    requires i <= |x.open|
  {
    && h.Keys == x.upvals.Keys
    && (forall j :: 0 <= j < i ==> x.open[j] in h && h[x.open[j]] == MoveUpVal(x.upvals[x.open[j]], x.stack, stack))
    && forall u :: u in h && u !in x.open[..i] ==> h[u] == x.upvals[u]
  }

  lemma MoveOne(x: View, h: map<Id, UpVal>, i: nat, stack: int)
    requires Sound(x) && i < |x.open| && MovedTo(x, h, i, stack)
    ensures x.open[i] in h && h[x.open[i]] == x.upvals[x.open[i]] && OpenAt(x.upvals, x.open, i)
    ensures MovedTo(x, h[x.open[i] := MoveUpVal(h[x.open[i]], x.stack, stack)], i + 1, stack)
  {
    OpenOnce(x.upvals, x.head, x.open);
    assert OpenAt(x.upvals, x.open, i);
    assert x.open[..i + 1] == x.open[..i] + [x.open[i]];
    assert x.open[i] !in x.open[..i];
  }

  lemma MovedAll(x: View, h: map<Id, UpVal>, stack: int)
    requires Sound(x) && MovedTo(x, h, |x.open|, stack)
    ensures forall u :: u in x.upvals ==> h[u] == MoveUpVal(x.upvals[u], x.stack, stack)
  {
    forall u | u in x.upvals
      ensures h[u] == MoveUpVal(x.upvals[u], x.stack, stack)
    {
      assert x.open[..|x.open|] == x.open;
      if u in x.open {
        var i :| 0 <= i < |x.open| && x.open[i] == u;
        assert OpenAt(x.upvals, x.open, i);
      }
    }
  }

  // ---------- the sizes of the stack ----------

  /** `l` is the highest address in use. */
  ghost predicate IsLimit(x: View, n: nat, l: int)
    requires n <= |x.ci|
  {
    && l >= x.top && (forall i :: 0 <= i < n ==> l >= x.ci[i].top)
    && (l == x.top || exists i :: 0 <= i < n && l == x.ci[i].top)
  }

  function GoodSize(inuse: int): int {
    var good := inuse + inuse / 8 + 2 * EXTRA_STACK;
    if good > LUAI_MAXSTACK then LUAI_MAXSTACK else good
  }

  /** Every call ends below the slots kept in reserve: what `stackinuse` asserts. */
  ghost predicate Room(x: View) {
    forall i :: 0 <= i < |x.ci| ==> x.ci[i].top <= x.stack + |x.slots| - EXTRA_STACK
  }

  /** The stack has its extra size for error handling, the part in use is within the normal limit, but some
      call reaches into what is the reserve of a stack of the normal size. */
  ghost predicate Squeezed(x: View, inuse: int) {
    |x.slots| > LUAI_MAXSTACK >= inuse && exists i :: 0 <= i < |x.ci| && x.ci[i].top - x.stack > LUAI_MAXSTACK - EXTRA_STACK
  }

  lemma RoomAfterShrink(x: View, y: View, inuse: int)
    requires Framed(x) && Moved(x, y) && IsLimit(x, |x.ci|, x.stack + inuse - 1)
    requires |y.slots| == if inuse <= LUAI_MAXSTACK && GoodSize(inuse) < |x.slots| then GoodSize(inuse) else |x.slots|
    requires Room(x)
    ensures Room(y) <==> !Squeezed(x, inuse)
  {
    forall i | 0 <= i < |x.ci|
      ensures y.ci[i] == MoveFrame(x.ci[i], x.stack, y.stack) && x.ci[i].top - x.stack <= inuse - 1
    {
    }
    if Squeezed(x, inuse) {
      var i :| 0 <= i < |x.ci| && x.ci[i].top - x.stack > LUAI_MAXSTACK - EXTRA_STACK;
      assert y.ci[i].top > y.stack + |y.slots| - EXTRA_STACK;
    }
  }

  /** Calls as `luaD_precall` makes them: below all, the entry from C; each of the others a Lua function called from
      inside the frame of the one before, with a frame of at most `MAXFRAME` registers. */
  ghost predicate CallChain(x: View) {
    && x.ci != [] && x.ci[0] == CallInfo(x.stack, x.stack + 1 + LUA_MINSTACK, x.ci[0].base, false)
    && forall i :: 0 < i < |x.ci| ==> CalledFrom(x.ci[i - 1], x.ci[i])
  }

  ghost predicate CalledFrom(f: CallInfo, g: CallInfo) {
    f.func < g.func <= f.top && g.isLua && g.base == g.func + 1 && g.base <= g.top <= g.base + MAXFRAME
  }

  function DeepCall(i: nat): CallInfo {
    if i == 0 then CallInfo(0, 1 + LUA_MINSTACK, 0, false)
    else
      var func := 1 + MAXFRAME * (i - 1);
      CallInfo(func, func + 1 + if i == DEPTH then MAXFRAME - 1 else MAXFRAME, func + 1, true)
  }

  const DEPTH: nat := 3937

  lemma DeepCallIn(i: nat)
    requires i <= DEPTH
    ensures 0 <= DeepCall(i).func < DeepCall(i).top < LUAI_MAXSTACK && (i == DEPTH ==> DeepCall(i).top == LUAI_MAXSTACK - 1)
    ensures i > 0 ==> CalledFrom(DeepCall(i - 1), DeepCall(i))
  {
  }

  /** A thread that was given the extra size, with calls that go up to one slot below the normal limit: shrinking
      the stack to the normal size leaves the last of them inside the reserve. */
  lemma SqueezedThread() returns (x: View, y: View)
    ensures Sound(x) && Room(x) && CallChain(x) && IsLimit(x, |x.ci|, x.stack + LUAI_MAXSTACK - 1)
    ensures Moved(x, y) && |y.slots| == GoodSize(LUAI_MAXSTACK) < |x.slots| && Fits(x, |y.slots|) && !Room(y)
  {
    x := View(map[], Null, [], 0, seq(ERRORSTACKSIZE, _ => Nil), LUAI_MAXSTACK - 1, seq(DEPTH + 1, (i: nat) => DeepCall(i)));
    y := x.(slots := seq(LUAI_MAXSTACK, _ => Nil));
    forall i | 0 <= i < |x.ci|
      ensures FrameIn(x, x.ci[i]) && x.ci[i].top < LUAI_MAXSTACK && (i > 0 ==> CalledFrom(x.ci[i - 1], x.ci[i]))
    {
      DeepCallIn(i);
    }
    DeepCallIn(DEPTH);
    assert x.ci[DEPTH].top == LUAI_MAXSTACK - 1;
    RoomAfterShrink(x, y, LUAI_MAXSTACK);
  }

  // ---------- the thread ----------

  class State {
    var stack: int
    var slots: seq<Value>
    var stackLast: int
    var top: int
    var ci: seq<CallInfo>
    var openupval: Link
    var upvals: map<Id, UpVal>
    var inTwups: bool
    ghost var open: seq<Id>

    ghost function V(): View
      reads this
    {
      View(upvals, openupval, open, stack, slots, top, ci)
    }

    ghost predicate Valid()
      reads this
    {
      Sound(V()) && stackLast == stack + |slots| - EXTRA_STACK && (openupval != Null ==> inTwups)
    }

    /** `stack_init`: a new thread, whose stack lies at `stack`. */
    constructor (stack: int)
      ensures Valid() && top == stack + 1 && |slots| == 40 && (forall i :: 0 <= i < 40 ==> slots[i] == Nil) && upvals == map[]
    {
      this.stack, slots := stack, seq(2 * LUA_MINSTACK, _ => Nil);
      stackLast, top := stack + 2 * LUA_MINSTACK - EXTRA_STACK, stack + 1;
      ci := [CallInfo(stack, stack + 1 + LUA_MINSTACK, 0, false)];
      openupval, upvals, inTwups, open := Null, map[], false, [];
    }

    /** `luaF_findupval`: the upvalue of a slot, the one that other closures already share if there is one.
        `block` is the memory that `luaM_new` would give. */
    method FindUpval(level: int, block: Id) returns (uv: Id)
      requires Valid() && Used(V(), level) && block !in upvals
      modifies `openupval, `upvals, `inTwups, `open
      ensures Valid() && uv in open && uv in upvals && upvals[uv].v == Slot(level)
      ensures forall u :: u in upvals && upvals[u].v == Slot(level) ==> u == uv
      ensures uv in old(upvals) ==> old(upvals)[uv].v == Slot(level) && V() == old(V())
      ensures uv !in old(upvals) ==> uv == block && upvals[uv].refcount == 0 && upvals.Keys == old(upvals.Keys) + {uv}
      ensures forall u :: u in old(upvals) ==> u in upvals && upvals[u].(next := Null) == old(upvals)[u].(next := Null)
      ensures forall u :: u in old(upvals) ==> Read(V(), u) == Read(old(V()), u)
    {
      hide Used, Framed, Sound, OpenList, OpenAt, Addr, Read, Inserted;
      ghost var x := V();
      var prev, p := Null, openupval;
      ghost var i := 0;
      PlaceAt(x, 0);
      while p != Null && upvals[p.id].v.addr >= level
        modifies {}
        invariant 0 <= i <= |open| && p == At(open, i) && prev == At(open, i - 1)
        invariant p != Null ==> p.id in upvals && upvals[p.id].v.Slot?
        invariant i > 0 ==> Addr(upvals, open[i - 1]) > level
        decreases |open| - i
      {
        PlaceAt(x, i);
        if upvals[p.id].v.addr == level {
          OnlyOne(x, i, level);
          return p.id;
        }
        PlaceAt(x, i + 1);
        prev, p, i := p, upvals[p.id].next, i + 1;
      }
      PlaceAt(x, i);
      uv := block;
      ghost var u := UpVal(Slot(level), 0, p, true, Nil);
      InsertSound(x, AfterInsert(x, i, uv, u), i, uv, level, u);
      if prev == Null {
        openupval := To(uv);
      } else {
        upvals := upvals[prev.id := upvals[prev.id].(next := To(uv))];
      }
      upvals := upvals[uv := UpVal(Slot(level), 0, p, true, Nil)];
      open := Inserted(open, i, uv);
      OnlyIn(V(), uv, level);
      InsertKeeps(x, i, uv, u);
      if !inTwups {
        inTwups := true;
      }
    }

    /** `luaF_close`: the upvalues from `level` on leave the stack. */
    method Close(level: int)
      requires Valid()
      modifies `openupval, `upvals, `open
      ensures Valid() && Detached(old(V()), V(), level)
      ensures forall u :: u in upvals && upvals[u].v.Slot? ==> upvals[u].v.addr < level
      ensures forall u :: u in old(upvals) && old(upvals)[u].v.Slot? && old(upvals)[u].v.addr < level ==> u in upvals && upvals[u] == old(upvals)[u]
      ensures forall u :: u in old(upvals) && old(upvals)[u].v.Slot? && old(upvals)[u].v.addr >= level ==>
        var i := old(upvals)[u].v.addr - stack;
        (u in upvals <==> old(upvals)[u].refcount > 0) && (u in upvals ==> upvals[u].v == Own && 0 <= i < |slots| && upvals[u].value == slots[i])
    {
      hide Used, Framed, Sound, OpenList, ClosedTo, Detached, Addr, Read, ClosedUp;
      ghost var x := V();
      ghost var k := 0;
      PlaceAt(x, 0);
      CloseStart(x);
      while openupval != Null && upvals[openupval.id].v.addr >= level
        invariant 0 <= k <= |x.open| && openupval == At(x.open, k) && ClosedTo(x, upvals, k)
        invariant V() == x.(upvals := upvals, head := openupval, open := open) && open == x.open
        invariant openupval != Null ==> openupval.id in upvals && openupval.id in x.upvals && upvals[openupval.id] == x.upvals[openupval.id] && upvals[openupval.id].v.Slot?
        invariant forall i :: 0 <= i < k ==> Addr(x.upvals, x.open[i]) >= level
        decreases |x.open| - k
      {
        var uv := openupval.id;
        ReadOpen(x, k);
        CloseStep(x, upvals, k);
        openupval := upvals[uv].next;
        if upvals[uv].refcount == 0 {
          upvals := upvals - {uv};
        } else {
          upvals := upvals[uv := upvals[uv].(value := slots[upvals[uv].v.addr - stack], v := Own)];
        }
        k := k + 1;
        PlaceAt(x, k);
        CloseNext(x, upvals, k);
      }
      PlaceAt(x, k);
      open := open[k..];
      CloseEnd(x, V(), k, level);
      DetachedIs(x, V(), level);
    }

    /** `correctstack`: the pointers into the old stack become pointers into the new one. */
    method CorrectStack(oldstack: int, ghost x: View)
      requires Sound(x) && oldstack == x.stack && V() == x.(stack := stack, slots := slots)
      modifies `top, `upvals, `ci
      ensures top == x.top - x.stack + stack && upvals.Keys == x.upvals.Keys
      ensures forall u :: u in x.upvals ==> upvals[u] == MoveUpVal(x.upvals[u], x.stack, stack)
      ensures |ci| == |x.ci| && forall i :: 0 <= i < |x.ci| ==> ci[i] == MoveFrame(x.ci[i], x.stack, stack)
    {
      hide Used, Framed, Sound, OpenList, MovedTo;
      top := (top - oldstack) + stack;
      var up := openupval;
      ghost var i := 0;
      PlaceAt(x, 0);
      MoveStart(x, stack);
      while up != Null
        invariant 0 <= i <= |x.open| && up == At(x.open, i) && MovedTo(x, upvals, i, stack)
        invariant ci == x.ci && top == x.top - x.stack + stack
        decreases |x.open| - i
      {
        PlaceAt(x, i);
        MoveOne(x, upvals, i, stack);
        upvals := upvals[up.id := upvals[up.id].(v := Slot((upvals[up.id].v.addr - oldstack) + stack))];
        up, i := upvals[up.id].next, i + 1;
      }
      MovedAll(x, upvals, stack);
      MovedKeys(x, upvals, i, stack);
      var c := 0;
      while c < |ci|
        invariant 0 <= c <= |ci| == |x.ci|
        invariant forall j :: 0 <= j < c ==> ci[j] == MoveFrame(x.ci[j], x.stack, stack)
        invariant forall j :: c <= j < |ci| ==> ci[j] == x.ci[j]
        invariant top == x.top - x.stack + stack && upvals.Keys == x.upvals.Keys
        invariant forall u :: u in x.upvals ==> upvals[u] == MoveUpVal(x.upvals[u], x.stack, stack)
      {
        var f := ci[c].(top := (ci[c].top - oldstack) + stack, func := (ci[c].func - oldstack) + stack);
        if f.isLua {
          f := f.(base := (f.base - oldstack) + stack);
        }
        ci := ci[c := f];
        c := c + 1;
      }
    }

    /** `luaD_reallocstack`: the allocator puts the stack at `newstack`, with `garbage` in its new slots. */
    method ReallocStack(newsize: nat, newstack: int, garbage: nat -> Value)
      requires Valid() && Fits(V(), newsize) && (newsize <= LUAI_MAXSTACK || newsize == ERRORSTACKSIZE)
      modifies `stack, `slots, `stackLast, `top, `upvals, `ci
      ensures Valid() && Moved(old(V()), V()) && stack == newstack && |slots| == newsize
      ensures forall u :: u in upvals ==> Read(V(), u) == Read(old(V()), u)
    {
      hide Used, Framed, Sound, OpenList, Fits, Read;
      ghost var x := V();
      var oldstack, lim, kept := stack, |slots|, slots;
      stack, slots := newstack, seq(newsize, i requires i >= 0 => if i < |kept| then kept[i] else garbage(i));
      while lim < newsize
        invariant |slots| == newsize && lim >= |x.slots| && V() == x.(stack := newstack, slots := slots)
        invariant forall k :: 0 <= k < newsize && k < lim ==> slots[k] == if k < |x.slots| then x.slots[k] else Nil
      {
        slots := slots[lim := Nil];
        lim := lim + 1;
      }
      stackLast := stack + newsize - EXTRA_STACK;
      CorrectStack(oldstack, x);
      MovingKeepsValues(x, V());
    }

    /** `luaD_growstack`: room for `n` more slots above the top. */
    method GrowStack(n: nat, newstack: int, garbage: nat -> Value) returns (outcome: Outcome)
      requires Valid() && |slots| <= ERRORSTACKSIZE
      modifies `stack, `slots, `stackLast, `top, `upvals, `ci
      ensures Valid() && forall u :: u in upvals ==> Read(V(), u) == Read(old(V()), u)
      ensures outcome == if old(|slots|) > LUAI_MAXSTACK then ErrorInError
        else if old(top - stack) + n + EXTRA_STACK > LUAI_MAXSTACK then StackOverflow else Done
      ensures outcome == ErrorInError ==> V() == old(V())
      ensures outcome != ErrorInError ==> Moved(old(V()), V()) && |slots| >= old(|slots|)
      ensures outcome == StackOverflow ==> |slots| == ERRORSTACKSIZE
      ensures outcome == Done ==> stackLast - top >= n && |slots| <= 1000000
      ensures outcome == Done ==>
        var double, needed := if 2 * old(|slots|) > 1000000 then 1000000 else 2 * old(|slots|), old(top - stack) + n + 5;
        |slots| == if double < needed then needed else double
      ensures outcome == StackOverflow ==> |slots| == 1000200
    {
      var size := |slots|;
      if size > LUAI_MAXSTACK {
        return ErrorInError;
      }
      var needed := top - stack + n + EXTRA_STACK;
      var newsize := 2 * size;
      if newsize > LUAI_MAXSTACK {
        newsize := LUAI_MAXSTACK;
      }
      if newsize < needed {
        newsize := needed;
      }
      FramesFit(V(), newsize);
      FramesFit(V(), ERRORSTACKSIZE);
      hide Used, Framed, Sound, OpenList, Fits, Read;
      if newsize > LUAI_MAXSTACK {
        ReallocStack(ERRORSTACKSIZE, newstack, garbage);
        return StackOverflow;
      }
      ReallocStack(newsize, newstack, garbage);
      outcome := Done;
    }

    /** `stackinuse`: the number of slots up to the highest in use. */
    method StackInUse() returns (n: int)
      ensures IsLimit(V(), |ci|, stack + n - 1)
    {
      var lim := top;
      var i := 0;
      while i < |ci|
        invariant 0 <= i <= |ci| && IsLimit(V(), i, lim)
      {
        ghost var l := lim;
        if lim < ci[i].top {
          lim := ci[i].top;
        }
        assert l == top || exists j :: 0 <= j < i && l == ci[j].top;
        assert lim == l || lim == ci[i].top;
        i := i + 1;
      }
      n := lim - stack + 1;
    }

    /** `luaD_shrinkstack`. All calls end below the reserve afterwards, except in the one case. */
    method ShrinkStack(newstack: int, garbage: nat -> Value) returns (ghost inuse: int)
      requires Valid() && |slots| <= ERRORSTACKSIZE
      modifies `stack, `slots, `stackLast, `top, `upvals, `ci
      ensures Valid() && Moved(old(V()), V()) && |slots| <= old(|slots|)
      ensures forall u :: u in upvals ==> Read(V(), u) == Read(old(V()), u)
      ensures IsLimit(old(V()), |old(ci)|, old(stack) + inuse - 1)
      ensures |slots| == if inuse <= LUAI_MAXSTACK && GoodSize(inuse) < old(|slots|) then GoodSize(inuse) else old(|slots|)
      ensures var good := if inuse + inuse / 8 + 10 > 1000000 then 1000000 else inuse + inuse / 8 + 10;
        |slots| == if inuse <= 1000000 && good < old(|slots|) then good else old(|slots|)
      ensures old(Room(V())) ==> (Room(V()) <==> !Squeezed(old(V()), inuse))
    {
      ghost var x := V();
      var used := StackInUse();
      inuse := used;
      var good := GoodSize(used);
      LimitFits(x, used);
      hide Used, Framed, Sound, OpenList, Fits, Read, IsLimit, Squeezed, Room;
      if used <= LUAI_MAXSTACK && good < |slots| {
        ReallocStack(good, newstack, garbage);
      } else {
        NotMoved(x);
      }
      ShrinkRoom(x, V(), used);
    }
  }

  lemma PlaceAt(x: View, i: nat)
    requires Sound(x) && i <= |x.open|
    ensures i == 0 ==> x.head == At(x.open, 0)
    ensures i > 0 ==> x.open[i - 1] in x.upvals
    ensures i < |x.open| ==> x.open[i] in x.upvals && OpenAt(x.upvals, x.open, i) && x.upvals[x.open[i]].v.Slot? && x.upvals[x.open[i]].next == At(x.open, i + 1)
    ensures i < |x.open| ==> Addr(x.upvals, x.open[i]) == x.upvals[x.open[i]].v.addr
  {
    assert i < |x.open| ==> OpenAt(x.upvals, x.open, i);
    assert i > 0 ==> OpenAt(x.upvals, x.open, i - 1);
  }

  lemma SameAddr(x: View, i: nat, j: nat)
    requires Sound(x) && i < |x.open| && j < |x.open| && Addr(x.upvals, x.open[i]) == Addr(x.upvals, x.open[j])
    ensures i == j
  {
  }

  lemma OnlyOne(x: View, i: nat, level: int)
    requires Sound(x) && i < |x.open| && Addr(x.upvals, x.open[i]) == level
    ensures forall u :: u in x.upvals && x.upvals[u].v == Slot(level) ==> u == x.open[i]
  {
    forall u | u in x.upvals && x.upvals[u].v == Slot(level)
      ensures u == x.open[i]
    {
      var j :| 0 <= j < |x.open| && x.open[j] == u;
      SameAddr(x, i, j);
    }
  }

  lemma OnlyIn(x: View, uv: Id, level: int)
    requires Sound(x) && uv in x.open && uv in x.upvals && x.upvals[uv].v == Slot(level)
    ensures forall u :: u in x.upvals && x.upvals[u].v == Slot(level) ==> u == uv
  {
    var i :| 0 <= i < |x.open| && x.open[i] == uv;
    OnlyOne(x, i, level);
  }

  lemma InsertKeeps(x: View, i: nat, uv: Id, u: UpVal)
    requires i <= |x.open| && (i > 0 ==> x.open[i - 1] in x.upvals)
    ensures forall w :: w in x.upvals && w != uv ==>
      w in AfterInsert(x, i, uv, u).upvals && AfterInsert(x, i, uv, u).upvals[w].(next := Null) == x.upvals[w].(next := Null)
    ensures AfterInsert(x, i, uv, u).upvals.Keys == x.upvals.Keys + {uv} && AfterInsert(x, i, uv, u).upvals[uv] == u
  {
  }

  lemma CloseStart(x: View)
    requires Sound(x)
    ensures ClosedTo(x, x.upvals, 0)
  {
  }

  lemma CloseNext(x: View, h: map<Id, UpVal>, k: nat)
    requires Sound(x) && k <= |x.open| && ClosedTo(x, h, k)
    ensures k < |x.open| ==> x.open[k] in h && x.open[k] in x.upvals && h[x.open[k]] == x.upvals[x.open[k]]
  {
    OpenOnce(x.upvals, x.head, x.open);
    assert k < |x.open| ==> OpenAt(x.upvals, x.open, k) && x.open[k] !in x.open[..k];
  }

  lemma MoveStart(x: View, stack: int)
    ensures MovedTo(x, x.upvals, 0, stack)
  {
  }

  lemma MovedKeys(x: View, h: map<Id, UpVal>, i: nat, stack: int)
    requires i <= |x.open| && MovedTo(x, h, i, stack)
    ensures h.Keys == x.upvals.Keys
  {
  }

  lemma FramesFit(x: View, size: int)
    requires Framed(x)
    ensures |x.slots| <= size ==> Fits(x, size)
  {
    assert forall i :: 0 <= i < |x.ci| ==> FrameIn(x, x.ci[i]);
  }

  lemma LimitFits(x: View, inuse: int)
    requires Framed(x) && IsLimit(x, |x.ci|, x.stack + inuse - 1)
    ensures inuse > 0 && inuse <= |x.slots| + 1
    ensures inuse <= LUAI_MAXSTACK ==> Fits(x, GoodSize(inuse)) && inuse <= GoodSize(inuse) <= LUAI_MAXSTACK
  {
    assert forall i :: 0 <= i < |x.ci| ==> FrameIn(x, x.ci[i]);
  }

  lemma NotMoved(x: View)
    ensures Moved(x, x)
  {
    forall i | 0 <= i < |x.ci|
      ensures x.ci[i] == MoveFrame(x.ci[i], x.stack, x.stack)
    {
    }
  }

  lemma ShrinkRoom(x: View, y: View, inuse: int)
    requires Framed(x) && Moved(x, y) && IsLimit(x, |x.ci|, x.stack + inuse - 1)
    requires |y.slots| == if inuse <= LUAI_MAXSTACK && GoodSize(inuse) < |x.slots| then GoodSize(inuse) else |x.slots|
    ensures Room(x) ==> (Room(y) <==> !Squeezed(x, inuse))
  {
    if Room(x) {
      RoomAfterShrink(x, y, inuse);
    }
  }
}
