/** Section 6.4.1 of the Lua 5.3 manual: what the items of patterns are, over the bytes of the C locale. */
module MatchLaws {
  import opened Bytes
  import opened MatchPattern
  import opened MatchRun
  import opened Wrappers

  // ---------- character classes ----------

  /** The bytes of the classes. */
  lemma ClassBytes(c: byte)
    ensures MatchClass(c, 'd' as int) <==> 48 <= c <= 57
    ensures MatchClass(c, 'l' as int) <==> 97 <= c <= 122
    ensures MatchClass(c, 'u' as int) <==> 65 <= c <= 90
    ensures MatchClass(c, 's' as int) <==> 9 <= c <= 13 || c == 32
    ensures MatchClass(c, 'x' as int) <==> 48 <= c <= 57 || 65 <= c <= 70 || 97 <= c <= 102
    ensures MatchClass(c, 'c' as int) <==> c <= 31 || c == 127
    ensures MatchClass(c, 'g' as int) <==> 33 <= c <= 126
    ensures MatchClass(c, 'z' as int) <==> c == 0
  {
  }

  /** How the classes are composed. */
  lemma ClassParts(c: byte)
    ensures MatchClass(c, 'a' as int) <==> MatchClass(c, 'l' as int) || MatchClass(c, 'u' as int)
    ensures !(MatchClass(c, 'l' as int) && MatchClass(c, 'u' as int))
    ensures MatchClass(c, 'w' as int) <==> MatchClass(c, 'a' as int) || MatchClass(c, 'd' as int)
    ensures MatchClass(c, 'p' as int) <==> MatchClass(c, 'g' as int) && !MatchClass(c, 'w' as int)
  {
  }

  predicate ClassLetter(l: int) {
    || l == 'a' as int || l == 'c' as int || l == 'd' as int || l == 'g' as int || l == 'l' as int || l == 'p' as int
    || l == 's' as int || l == 'u' as int || l == 'w' as int || l == 'x' as int || l == 'z' as int
  }

  /** An upper-case letter is the complement of its class. */
  lemma ClassComplement(c: byte, cl: byte)
    requires ClassLetter(cl)
    ensures cl >= 97 && (MatchClass(c, cl - 32) <==> !MatchClass(c, cl))
  {
  }

  /** Every other escape stands for the character itself. */
  lemma ClassLiteral(c: byte, cl: byte)
    requires !ClassLetter(cl) && !(65 <= cl <= 90 && ClassLetter(cl + 32))
    ensures MatchClass(c, cl) <==> c == cl
  {
  }

  // ---------- single-character items ----------

  /** At `p`, the pattern has a single-character item up to `ep`, which stands for the characters of `S`. */
  ghost predicate Stands(pat: seq<byte>, p: nat, ep: nat, S: set<int>) {
    && p < ep <= |pat| && KindAt(pat, p) == Item && ClassEnd(pat, p) == Some(ep)
    && forall src: seq<byte>, s: nat :: Single(src, pat, s, p, ep) <==> s < |src| && src[s] in S
  }

  const ALL: set<int> := set c | 0 <= c < 256 :: c

  function ClassSet(cl: byte): set<int> {
    set c: byte | c in ALL && MatchClass(c, cl) :: c
  }

  function RangeSet(x: byte, y: byte): set<int> {
    set c: byte | c in ALL && x <= c <= y :: c
  }

  lemma AnyItem(pat: seq<byte>, p: nat)
    requires p < |pat| && pat[p] == '.' as int
    ensures Stands(pat, p, p + 1, ALL)
  {
    forall src: seq<byte>, s: nat
      ensures Single(src, pat, s, p, p + 1) <==> s < |src| && src[s] in ALL
    {
      if s < |src| {
        assert 0 <= src[s] < 256;
      }
    }
  }

  /** Characters without a meaning of their own. */
  lemma LiteralItem(pat: seq<byte>, p: nat)
    requires p < |pat| && pat[p] !in ['.' as int, '%' as int, '[' as int, '(' as int, ')' as int]
    requires pat[p] == '$' as int ==> p + 1 < |pat|
    ensures Stands(pat, p, p + 1, {pat[p]})
  {
    assert ['.' as int, '%' as int, '[' as int, '(' as int, ')' as int] == [46, 37, 91, 40, 41];
    assert pat[p] != 46 && pat[p] != 37 && pat[p] != 91 && pat[p] != 40 && pat[p] != 41 by {
      var q := [46, 37, 91, 40, 41];
      assert q[0] in q && q[1] in q && q[2] in q && q[3] in q && q[4] in q;
    }
  }

  /** Escapes that are no balanced text, frontier or back reference. */
  lemma EscapedItem(pat: seq<byte>, p: nat)
    requires p + 1 < |pat| && pat[p] == '%' as int && pat[p + 1] != 'b' as int && pat[p + 1] != 'f' as int && !(48 <= pat[p + 1] <= 57)
    ensures Stands(pat, p, p + 2, ClassSet(pat[p + 1]))
  {
  }

  /** What a set holds, item by item from `q` on: escaped classes, ranges, single characters. */
  lemma SetItem(pat: seq<byte>, c: byte, q: nat, ec: nat)
    requires q < ec < |pat|
    ensures pat[q] == '%' as int ==> (InItems(pat, c, q, ec) <==> MatchClass(c, pat[q + 1]) || InItems(pat, c, q + 2, ec))
    ensures pat[q] != '%' as int && pat[q + 1] == '-' as int && q + 2 < ec ==>
      (InItems(pat, c, q, ec) <==> pat[q] <= c <= pat[q + 2] || InItems(pat, c, q + 3, ec))
    ensures pat[q] != '%' as int && !(pat[q + 1] == '-' as int && q + 2 < ec) ==> (InItems(pat, c, q, ec) <==> c == pat[q] || InItems(pat, c, q + 1, ec))
    ensures !InItems(pat, c, ec, ec)
  {
  }

  /** A set of characters none of which is an escape or a hyphen. */
  lemma {:induction false} SetOfCharacters(pat: seq<byte>, c: byte, q: nat, ec: nat)
    requires q <= ec < |pat| && forall m :: q <= m < ec ==> pat[m] != '%' as int && pat[m] != '-' as int
    requires pat[ec] == ']' as int
    ensures InItems(pat, c, q, ec) <==> c in pat[q..ec]
    decreases ec - q
  {
    if q < ec {
      SetOfCharacters(pat, c, q + 1, ec);
      assert pat[q..ec] == [pat[q]] + pat[q + 1..ec];
      assert pat[q + 1] != '-' as int;
    }
  }

  lemma RangeIn(pat: seq<byte>, c: byte, q: nat, x: byte, y: byte)
    requires q + 3 < |pat| && pat[q] == x && pat[q + 1] == '-' as int && pat[q + 2] == y && x != '%' as int
    ensures InItems(pat, c, q, q + 3) <==> x <= c <= y
  {
    assert !InItems(pat, c, q + 3, q + 3);
  }

  /** A set ends at the first closing bracket after its first character. */
  lemma {:induction false} SetEndsAt(pat: seq<byte>, q: nat, e: nat)
    requires q < e < |pat| && pat[e] == ']' as int
    requires forall m :: q <= m < e ==> pat[m] != '%' as int && (m > q ==> pat[m] != ']' as int)
    ensures SetEnd(pat, q) == Some(e + 1)
    decreases e - q
  {
    if q + 1 < e {
      SetEndsAt(pat, q + 1, e);
    }
  }

  /** `[abc]`. */
  lemma CharacterSet(pat: seq<byte>, p: nat, e: nat)
    requires p + 1 < e < |pat| && pat[p] == '[' as int && pat[p + 1] != '^' as int && pat[e] == ']' as int
    requires forall m :: p < m < e ==> pat[m] != '%' as int && pat[m] != '-' as int && (m > p + 1 ==> pat[m] != ']' as int)
    ensures Stands(pat, p, e + 1, set m | p < m < e :: pat[m])
  {
    SetEndsAt(pat, p + 1, e);
    forall src: seq<byte>, s: nat
      ensures Single(src, pat, s, p, e + 1) <==> s < |src| && src[s] in (set m | p < m < e :: pat[m])
    {
      if s < |src| {
        SetOfCharacters(pat, src[s], p + 1, e);
        MemberAt(pat[p + 1..e], src[s]);
        assert forall m :: p < m < e ==> pat[m] == pat[p + 1..e][m - p - 1];
      }
    }
  }

  lemma MemberAt(q: seq<byte>, c: byte)
    ensures c in q <==> exists m :: 0 <= m < |q| && q[m] == c
  {
  }

  /** `[x-y]` and `[^x-y]`. */
  lemma RangeItem(pat: seq<byte>, p: nat, x: byte, y: byte)
    requires x != '%' as int && x != '^' as int && y != ']' as int && y != '%' as int && x != ']' as int
    requires p + 5 <= |pat| && pat[p..p + 5] == ['[' as int, x, '-' as int, y, ']' as int]
    ensures Stands(pat, p, p + 5, RangeSet(x, y))
  {
    var t := pat[p..p + 5];
    assert pat[p] == t[0] && pat[p + 1] == t[1] && pat[p + 2] == t[2] && pat[p + 3] == t[3] && pat[p + 4] == t[4];
    assert SetEnd(pat, p + 1) == SetEnd(pat, p + 2) == SetEnd(pat, p + 3) == Some(p + 5);
    forall src: seq<byte>, s: nat
      ensures Single(src, pat, s, p, p + 5) <==> s < |src| && src[s] in RangeSet(x, y)
    {
      if s < |src| {
        RangeIn(pat, src[s], p + 1, x, y);
        assert src[s] in ALL;
      }
    }
  }

  lemma NoRangeItem(pat: seq<byte>, p: nat, x: byte, y: byte)
    requires x != '%' as int && y != ']' as int && y != '%' as int && x != ']' as int
    requires p + 6 <= |pat| && pat[p..p + 6] == ['[' as int, '^' as int, x, '-' as int, y, ']' as int]
    ensures Stands(pat, p, p + 6, ALL - RangeSet(x, y))
  {
    var t := pat[p..p + 6];
    assert pat[p] == t[0] && pat[p + 1] == t[1] && pat[p + 2] == t[2] && pat[p + 3] == t[3] && pat[p + 4] == t[4] && pat[p + 5] == t[5];
    assert SetEnd(pat, p + 2) == SetEnd(pat, p + 3) == SetEnd(pat, p + 4) == Some(p + 6);
    forall src: seq<byte>, s: nat
      ensures Single(src, pat, s, p, p + 6) <==> s < |src| && src[s] in ALL - RangeSet(x, y)
    {
      if s < |src| {
        RangeIn(pat, src[s], p + 2, x, y);
        assert src[s] in ALL;
      }
    }
  }

  // ---------- suffixes ----------

  /** The outcome of the rest of the pattern after `k` more characters. */
  ghost function Rest(src: seq<byte>, pat: seq<byte>, i: nat, ep: nat, caps: seq<Cap>, k: nat): Outcome {
    Run(src, pat, i + k, ep + 1, caps)
  }

  /** `n` characters from `i` on are in `S`, and the next one is not. */
  ghost predicate InRow(src: seq<byte>, i: nat, S: set<int>, n: nat) {
    && (n > 0 ==> i + n <= |src|) && (forall m :: i <= m < i + n ==> m < |src| && src[m] in S)
    && !(i + n < |src| && src[i + n] in S)
  }

  lemma CountIs(src: seq<byte>, pat: seq<byte>, i: nat, p: nat, ep: nat, S: set<int>, n: nat)
    requires Stands(pat, p, ep, S) && InRow(src, i, S, n)
    ensures Count(src, pat, i, p, ep) == n
  {
    hide Single, Stands;
    var m := Count(src, pat, i, p, ep);
    StandsAt(src, pat, i + m, p, ep, S);
    StandsAt(src, pat, i + n, p, ep, S);
  }

  /** `*` and `+`: the longest row of characters, then one less at a time, down to none or to one. */
  lemma Greedy(src: seq<byte>, pat: seq<byte>, i: nat, p: nat, ep: nat, caps: seq<Cap>, S: set<int>, n: nat) returns (k: nat)
    requires Stands(pat, p, ep, S) && ep < |pat| && InRow(src, i, S, n)
    requires pat[ep] == '*' as int || (pat[ep] == '+' as int && n > 0)
    ensures (if pat[ep] == '+' as int then 1 else 0) <= k <= n && Run(src, pat, i, p, caps) == Rest(src, pat, i, ep, caps, k)
    ensures forall m :: k < m <= n ==> Rest(src, pat, i, ep, caps, m).Failed?
    ensures Rest(src, pat, i, ep, caps, k).Failed? ==> k == if pat[ep] == '+' as int then 1 else 0
  {
    hide Single, Stands, ClassEnd;
    StandsAt(src, pat, i, p, ep, S);
    if n == 0 {
      k := 0;
      ItemRuns(src, pat, i, p, ep, caps);
    } else {
      var least := if pat[ep] == '+' as int then 1 else 0;
      RowTail(src, i, S, n);
      CountIs(src, pat, i + least, p, ep, S, n - least);
      k := Down(src, pat, i + least, p, ep, caps, n - least);
      k := k + least;
      ItemRuns(src, pat, i, p, ep, caps);
      forall m | k < m <= n
        ensures Rest(src, pat, i, ep, caps, m).Failed?
      {
        assert Rest(src, pat, i + least, ep, caps, m - least).Failed?;
      }
    }
  }

  lemma RowTail(src: seq<byte>, i: nat, S: set<int>, n: nat)
    requires InRow(src, i, S, n) && n > 0
    ensures i < |src| && src[i] in S && InRow(src, i + 1, S, n - 1)
  {
  }

  lemma StandsAt(src: seq<byte>, pat: seq<byte>, i: nat, p: nat, ep: nat, S: set<int>)
    requires Stands(pat, p, ep, S)
    ensures p < ep <= |pat| && KindAt(pat, p) == Item && ClassEnd(pat, p) == Some(ep)
    ensures Single(src, pat, i, p, ep) <==> i < |src| && src[i] in S
  {
  }

  lemma ItemRuns(src: seq<byte>, pat: seq<byte>, i: nat, p: nat, ep: nat, caps: seq<Cap>)
    requires p < ep <= |pat| && KindAt(pat, p) == Item && ClassEnd(pat, p) == Some(ep)
    ensures Run(src, pat, i, p, caps) == RunItem(src, pat, i, p, ep, caps)
  {
  }

  lemma {:induction false} Down(src: seq<byte>, pat: seq<byte>, i: nat, p: nat, ep: nat, caps: seq<Cap>, n: nat) returns (k: nat)
    requires p < ep < |pat|
    ensures k <= n && RunDown(src, pat, i, p, ep, caps, n) == Rest(src, pat, i, ep, caps, k)
    ensures forall m :: k < m <= n ==> Rest(src, pat, i, ep, caps, m).Failed?
    ensures Rest(src, pat, i, ep, caps, k).Failed? ==> k == 0
  {
    if Rest(src, pat, i, ep, caps, n).Failed? && n > 0 {
      k := Down(src, pat, i, p, ep, caps, n - 1);
    } else {
      k := n;
    }
  }

  /** `-`: no character, then one more at a time. */
  lemma Lazy(src: seq<byte>, pat: seq<byte>, i: nat, p: nat, ep: nat, caps: seq<Cap>, S: set<int>, n: nat) returns (k: nat)
    requires Stands(pat, p, ep, S) && ep < |pat| && InRow(src, i, S, n) && pat[ep] == '-' as int
    ensures k <= n && Run(src, pat, i, p, caps) == Rest(src, pat, i, ep, caps, k)
    ensures forall m :: 0 <= m < k ==> Rest(src, pat, i, ep, caps, m).Failed?
    ensures Rest(src, pat, i, ep, caps, k).Failed? ==> k == n
  {
    hide Single, Stands, ClassEnd;
    StandsAt(src, pat, i, p, ep, S);
    ItemRuns(src, pat, i, p, ep, caps);
    if n == 0 {
      k := 0;
    } else {
      k := Up(src, pat, i, p, ep, caps, S, n);
    }
  }

  lemma {:induction false} Up(src: seq<byte>, pat: seq<byte>, i: nat, p: nat, ep: nat, caps: seq<Cap>, S: set<int>, n: nat) returns (k: nat)
    requires Stands(pat, p, ep, S) && ep < |pat| && InRow(src, i, S, n)
    ensures k <= n && (RunUp(src, pat, i, p, ep, caps) == Rest(src, pat, i, ep, caps, k))
    ensures forall m :: 0 <= m < k ==> Rest(src, pat, i, ep, caps, m).Failed?
    ensures Rest(src, pat, i, ep, caps, k).Failed? ==> k == n
    decreases n
  {
    hide Single, Stands;
    StandsAt(src, pat, i, p, ep, S);
    if !Rest(src, pat, i, ep, caps, 0).Failed? || n == 0 {
      k := 0;
    } else {
      RowTail(src, i, S, n);
      var h := Up(src, pat, i + 1, p, ep, caps, S, n - 1);
      k := h + 1;
      forall m | 0 <= m < k
        ensures Rest(src, pat, i, ep, caps, m).Failed?
      {
        if m > 0 {
          assert Rest(src, pat, i + 1, ep, caps, m - 1).Failed?;
        }
      }
    }
  }

  /** `?`: with the character if that leads to a match or an error, else without; no suffix: one character. `+` needs one. */
  lemma OptionalOrOnce(src: seq<byte>, pat: seq<byte>, i: nat, p: nat, ep: nat, caps: seq<Cap>, S: set<int>)
    requires Stands(pat, p, ep, S)
    ensures var one := i < |src| && src[i] in S;
      && (ep < |pat| && pat[ep] == '?' as int ==>
           Run(src, pat, i, p, caps) == if one && !Rest(src, pat, i, ep, caps, 1).Failed? then Rest(src, pat, i, ep, caps, 1) else Rest(src, pat, i, ep, caps, 0))
      && (ep == |pat| || pat[ep] !in ['?' as int, '*' as int, '+' as int, '-' as int] ==>
           Run(src, pat, i, p, caps) == if one then Run(src, pat, i + 1, ep, caps) else Failed)
      && (ep < |pat| && pat[ep] == '+' as int && !one ==> Run(src, pat, i, p, caps) == Failed)
  {
    hide Single, Stands, ClassEnd;
    StandsAt(src, pat, i, p, ep, S);
    ItemRuns(src, pat, i, p, ep, caps);
    var q := ['?' as int, '*' as int, '+' as int, '-' as int];
    assert q[0] in q && q[1] in q && q[2] in q && q[3] in q;
  }

  lemma FirstIsEnough(src: seq<byte>, pat: seq<byte>, i: nat, p: nat, ep: nat, caps: seq<Cap>, n: nat)
    requires p < ep < |pat|
    ensures !Rest(src, pat, i, ep, caps, 0).Failed? ==> WorkUp(src, pat, i, p, ep, caps) == Work(src, pat, i, ep + 1, caps)
    ensures !Rest(src, pat, i, ep, caps, n).Failed? ==> WorkDown(src, pat, i, p, ep, caps, n) == Work(src, pat, i + n, ep + 1, caps)
  {
    hide Work, Run;
  }

  lemma ItemWorks(src: seq<byte>, pat: seq<byte>, i: nat, p: nat, ep: nat, caps: seq<Cap>)
    requires p < ep <= |pat| && KindAt(pat, p) == Item && ClassEnd(pat, p) == Some(ep)
    ensures Work(src, pat, i, p, caps) == WorkItem(src, pat, i, p, ep, caps)
  {
    hide WorkItem;
  }

  /** Every character that an item matches counts once, whatever its suffix; repetitions beyond it do not. */
  lemma ItemWork(src: seq<byte>, pat: seq<byte>, i: nat, p: nat, ep: nat, caps: seq<Cap>, S: set<int>)
    requires Stands(pat, p, ep, S)
    ensures var one, next := i < |src| && src[i] in S, if ep < |pat| then pat[ep] else 0;
      && (!one && next in ['*' as int, '?' as int, '-' as int] ==> Work(src, pat, i, p, caps) == Work(src, pat, i, ep + 1, caps))
      && (!one && next !in ['*' as int, '?' as int, '-' as int] ==> Work(src, pat, i, p, caps) == 0)
      && (one && next !in ['?' as int, '*' as int, '+' as int, '-' as int] ==> Work(src, pat, i, p, caps) == 1 + Work(src, pat, i + 1, ep, caps))
      && (one && next == '?' as int && !Rest(src, pat, i, ep, caps, 1).Failed? ==> Work(src, pat, i, p, caps) == 1 + Work(src, pat, i + 1, ep + 1, caps))
      && (one && next == '-' as int && !Rest(src, pat, i, ep, caps, 0).Failed? ==> Work(src, pat, i, p, caps) == 1 + Work(src, pat, i, ep + 1, caps))
  {
    hide Single, Stands, ClassEnd, Run, Work, WorkUp, WorkDown;
    StandsAt(src, pat, i, p, ep, S);
    ItemWorks(src, pat, i, p, ep, caps);
    if ep < |pat| {
      FirstIsEnough(src, pat, i, p, ep, caps, 0);
    }
    var q, e := ['?' as int, '*' as int, '+' as int, '-' as int], ['*' as int, '?' as int, '-' as int];
    assert q[0] in q && q[1] in q && q[2] in q && q[3] in q && e[0] in e && e[1] in e && e[2] in e;
  }

  /** Where the longest row is followed by a match, its first character is all that counts. */
  lemma GreedyWork(src: seq<byte>, pat: seq<byte>, i: nat, p: nat, ep: nat, caps: seq<Cap>, S: set<int>, n: nat)
    requires Stands(pat, p, ep, S) && ep < |pat| && InRow(src, i, S, n) && n > 0
    requires (pat[ep] == '*' as int || pat[ep] == '+' as int) && !Rest(src, pat, i, ep, caps, n).Failed?
    ensures Work(src, pat, i, p, caps) == 1 + Work(src, pat, i + n, ep + 1, caps)
  {
    hide Single, Stands, ClassEnd, Run, Count, Work, WorkDown;
    StandsAt(src, pat, i, p, ep, S);
    ItemWorks(src, pat, i, p, ep, caps);
    var least := if pat[ep] == '+' as int then 1 else 0;
    RowTail(src, i, S, n);
    CountIs(src, pat, i + least, p, ep, S, n - least);
    assert Rest(src, pat, i, ep, caps, n) == Rest(src, pat, i + least, ep, caps, n - least);
    FirstIsEnough(src, pat, i + least, p, ep, caps, n - least);
  }

  // ---------- the other items ----------

  /** `%bxy`, with `x` and `y` different: as many `x` as `y`, and more of them in every shorter piece. */
  lemma BalancedCounts(src: seq<byte>, x: byte, y: byte, i: nat, k: nat)
    requires x != y
    ensures Balanced(src, x, y, i, k) <==>
      && i < k <= |src| && src[i] == x && multiset(src[i..k])[x] == multiset(src[i..k])[y]
      && forall m :: i < m < k ==> multiset(src[i..m])[x] > multiset(src[i..m])[y]
  {
    if i < k <= |src| && src[i] == x {
      forall m | i < m <= k
        ensures Depth(src, x, y, i, m) + multiset(src[i..m])[y] == multiset(src[i..m])[x]
      {
        DepthCounts(src, x, y, i, m);
      }
    }
  }

  lemma {:induction false} DepthCounts(src: seq<byte>, x: byte, y: byte, i: nat, k: nat)
    requires x != y && i < k <= |src| && src[i] == x
    ensures Depth(src, x, y, i, k) + multiset(src[i..k])[y] == multiset(src[i..k])[x]
    decreases k
  {
    if k == i + 1 {
      assert src[i..k] == [x];
    } else {
      DepthCounts(src, x, y, i, k - 1);
      assert src[i..k] == src[i..k - 1] + [src[k - 1]];
    }
  }

  /** `%bxx`: up to the next `x`. */
  lemma BalancedPair(src: seq<byte>, x: byte, i: nat, k: nat)
    ensures Balanced(src, x, x, i, k) <==> i + 1 < k <= |src| && src[i] == x && src[k - 1] == x && forall m :: i < m < k - 1 ==> src[m] != x
  {
    if i < k <= |src| && src[i] == x {
      hide Depth;
      PairDepth(src, x, i, k);
      if forall m :: i < m < k - 1 ==> src[m] != x {
        assert forall m :: i < m < k ==> Depth(src, x, x, i, m) > 0;
      }
    }
  }

  lemma {:induction false} PairDepth(src: seq<byte>, x: byte, i: nat, k: nat)
    requires i < k <= |src|
    ensures (forall m :: i < m < k ==> Depth(src, x, x, i, m) > 0) <==> forall m :: i < m < k - 1 ==> src[m] != x
    ensures (forall m :: i < m < k - 1 ==> src[m] != x) ==> Depth(src, x, x, i, k) == if k > i + 1 && src[k - 1] == x then 0 else 1
    decreases k
  {
    if k > i + 1 {
      PairDepth(src, x, i, k - 1);
    }
  }

  lemma BalanceItem(src: seq<byte>, pat: seq<byte>, i: nat, p: nat, caps: seq<Cap>, x: byte, y: byte, k: nat)
    requires p + 3 < |pat| && pat[p] == '%' as int && pat[p + 1] == 'b' as int && pat[p + 2] == x && pat[p + 3] == y
    ensures Balanced(src, x, y, i, k) ==> Run(src, pat, i, p, caps) == Run(src, pat, k, p + 4, caps)
    ensures (forall m: nat :: !Balanced(src, x, y, i, m)) ==> Run(src, pat, i, p, caps) == Failed
  {
    if Balanced(src, x, y, i, k) {
      BalancedOnce(src, x, y, i, k, BalanceEnd(src, x, y, i).value);
    }
  }

  /** `%f[set]`: the character before is not in the set, the one after is; both ends of the subject count as zeros. */
  lemma FrontierAt(src: seq<byte>, pat: seq<byte>, i: nat, p: nat, caps: seq<Cap>, ep: nat, S: set<int>)
    requires p + 2 < |pat| && pat[p] == '%' as int && pat[p + 1] == 'f' as int && pat[p + 2] == '[' as int && Stands(pat, p + 2, ep, S)
    requires i <= |src|
    ensures Run(src, pat, i, p, caps) ==
      if (if i == 0 then 0 else src[i - 1]) !in S && (if i == |src| then 0 else src[i]) in S then Run(src, pat, i, ep, caps) else Failed
  {
    var before: byte, after: byte := if i == 0 then 0 else src[i - 1], if i == |src| then 0 else src[i];
    assert Single([before], pat, 0, p + 2, ep) <==> before in S;
    assert Single([after], pat, 0, p + 2, ep) <==> after in S;
  }

  /** Captures: opened, closed, of positions. */
  lemma CaptureItems(src: seq<byte>, pat: seq<byte>, i: nat, p: nat, caps: seq<Cap>)
    requires p < |pat| && (pat[p] == '(' as int || pat[p] == ')' as int)
    ensures pat[p] == '(' as int && |caps| >= 32 ==> Run(src, pat, i, p, caps) == Bad("too many captures")
    ensures pat[p] == '(' as int && |caps| < 32 && p + 1 < |pat| && pat[p + 1] == ')' as int ==>
      Run(src, pat, i, p, caps) == Run(src, pat, i, p + 2, caps + [Cap(i, -2)])
    ensures pat[p] == '(' as int && |caps| < 32 && !(p + 1 < |pat| && pat[p + 1] == ')' as int) ==>
      Run(src, pat, i, p, caps) == Run(src, pat, i, p + 1, caps + [Cap(i, -1)])
    ensures pat[p] == ')' as int && (forall l :: 0 <= l < |caps| ==> caps[l].len != -1) ==> Run(src, pat, i, p, caps) == Bad("invalid pattern capture")
  {
  }

  /** A closing parenthesis ends the capture opened last. */
  lemma CaptureEnds(src: seq<byte>, pat: seq<byte>, i: nat, p: nat, caps: seq<Cap>, l: nat)
    requires p < |pat| && pat[p] == ')' as int
    requires l < |caps| && caps[l].len == -1 && forall m :: l < m < |caps| ==> caps[m].len != -1
    ensures Run(src, pat, i, p, caps) == Run(src, pat, i, p + 1, caps[l := Cap(caps[l].init, i - caps[l].init)])
  {
    assert Closes(caps, l);
  }

  /** `%1` to `%9`: the text of a capture again. */
  lemma BackReference(src: seq<byte>, pat: seq<byte>, i: nat, p: nat, caps: seq<Cap>, l: nat, n: nat)
    requires p + 1 < |pat| && pat[p] == '%' as int && l < 9 && pat[p + 1] == 49 + l && i <= |src|
    ensures l >= |caps| || caps[l].len == -1 ==> Run(src, pat, i, p, caps) == Bad("invalid capture index %" + [(49 + l) as char])
    ensures l < |caps| && caps[l].len == n && caps[l].init + n <= |src| ==>
      Run(src, pat, i, p, caps) ==
        if i + n <= |src| && src[caps[l].init..caps[l].init + n] == src[i..i + n] then Run(src, pat, i + n, p + 2, caps) else Failed
  {
    hide RunItem, ClassEnd, BalanceEnd, Frontier, Closing;
  }

  /** Patterns that end too early. */
  lemma UnfinishedItem(src: seq<byte>, pat: seq<byte>, i: nat, p: nat, caps: seq<Cap>)
    requires p < |pat|
    ensures pat[p] == '%' as int && p + 1 == |pat| ==> Run(src, pat, i, p, caps) == Bad("malformed pattern (ends with '%')")
    ensures pat[p] == '[' as int && (forall m :: p < m < |pat| ==> pat[m] != ']' as int) ==>
      Run(src, pat, i, p, caps) == Bad("malformed pattern (missing ']')")
    ensures p + 2 < |pat| && pat[p] == '%' as int && pat[p + 1] == 'f' as int && pat[p + 2] != '[' as int ==>
      Run(src, pat, i, p, caps) == Bad("missing '[' after '%f' in pattern")
    ensures p + 1 < |pat| <= p + 3 && pat[p] == '%' as int && pat[p + 1] == 'b' as int ==>
      Run(src, pat, i, p, caps) == Bad("malformed pattern (missing arguments to '%b')")
  {
    if pat[p] == '[' as int && forall m :: p < m < |pat| ==> pat[m] != ']' as int {
      NoSetEnd(pat, if At(pat, p + 1) == '^' as int then p + 2 else p + 1);
    }
  }

  lemma {:induction false} NoSetEnd(pat: seq<byte>, q: nat)
    requires forall m :: q <= m < |pat| ==> pat[m] != ']' as int
    ensures SetEnd(pat, q).None?
    decreases |pat| - q
  {
    if q < |pat| {
      NoSetEnd(pat, if pat[q] == ESC && q + 1 < |pat| then q + 2 else q + 1);
    }
  }

  /** The end of the pattern, and `$` there. */
  lemma PatternEnd(src: seq<byte>, pat: seq<byte>, i: nat, caps: seq<Cap>)
    ensures Run(src, pat, i, |pat|, caps) == Matched(i, caps)
    ensures |pat| > 0 && pat[|pat| - 1] == '$' as int ==> Run(src, pat, i, |pat| - 1, caps) == if i == |src| then Matched(i, caps) else Failed
  {
  }
}
