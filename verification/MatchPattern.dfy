/** What patterns mean: character classes, items, and a nondeterministic relation between a pattern, the
    piece of the subject that it matches, and the captures. */
module MatchPattern {
  import opened Bytes
  import opened Wrappers

  const ESC: byte := '%' as int
  const CAP_UNFINISHED: int := -1
  const CAP_POSITION: int := -2
  const MAXCAPTURES: nat := 32

  /** A capture: where it starts, and its length or one of the two marks above. */
  datatype Cap = Cap(init: nat, len: int)

  /** Strings end with a zero byte, which may be read. */
  function At(s: seq<byte>, i: int): byte {
    if 0 <= i < |s| then s[i] else 0
  }

  // ---------- character classes, in the C locale ----------

  predicate IsUpper(c: byte) { 'A' as int <= c <= 'Z' as int }
  predicate IsLower(c: byte) { 'a' as int <= c <= 'z' as int }
  predicate IsAlpha(c: byte) { IsUpper(c) || IsLower(c) }
  predicate IsAlnum(c: byte) { IsAlpha(c) || IsDigit(c) }
  predicate IsGraph(c: byte) { 32 < c < 127 }
  predicate IsPunct(c: byte) { IsGraph(c) && !IsAlnum(c) }
  function ToLower(c: byte): byte { if IsUpper(c) then c + 32 else c }

  /** `match_class`: `cl` is the letter after the escape; upper-case letters stand for the complement. */
  predicate MatchClass(c: byte, cl: byte) {
    var l := ToLower(cl);
    if l == 'a' as int then IsAlpha(c) == IsLower(cl)
    else if l == 'c' as int then IsCntrl(c) == IsLower(cl)
    else if l == 'd' as int then IsDigit(c) == IsLower(cl)
    else if l == 'g' as int then IsGraph(c) == IsLower(cl)
    else if l == 'l' as int then IsLower(c) == IsLower(cl)
    else if l == 'p' as int then IsPunct(c) == IsLower(cl)
    else if l == 's' as int then IsSpace(c) == IsLower(cl)
    else if l == 'u' as int then IsUpper(c) == IsLower(cl)
    else if l == 'w' as int then IsAlnum(c) == IsLower(cl)
    else if l == 'x' as int then IsXDigit(c) == IsLower(cl)
    else if l == 'z' as int then (c == 0) == IsLower(cl)
    else cl == c
  }

  /** The items of a set, from `q` up to the closing bracket at `ec`: escaped classes, ranges, characters. */
  predicate InItems(pat: seq<byte>, c: byte, q: nat, ec: nat)
    decreases ec - q
  {
    if q >= ec then false
    else if At(pat, q) == ESC then MatchClass(c, At(pat, q + 1)) || InItems(pat, c, q + 2, ec)
    else if At(pat, q + 1) == '-' as int && q + 2 < ec then At(pat, q) <= c <= At(pat, q + 2) || InItems(pat, c, q + 3, ec)
    else At(pat, q) == c || InItems(pat, c, q + 1, ec)
  }

  /** Character `c` belongs to the set from `p` (its opening bracket) to `ec` (its closing one). */
  predicate InSet(pat: seq<byte>, c: byte, p: nat, ec: nat) {
    if At(pat, p + 1) == '^' as int then !InItems(pat, c, p + 2, ec) else InItems(pat, c, p + 1, ec)
  }

  /** Where the set whose items start at `q` ends. */
  function SetEnd(pat: seq<byte>, q: nat): (r: Option<nat>)
    ensures r.Some? ==> q + 2 <= r.value <= |pat|
    decreases |pat| - q
  {
    if q >= |pat| then None
    else
      var n := if pat[q] == ESC && q + 1 < |pat| then q + 2 else q + 1;
      if At(pat, n) == ']' as int then Some(n + 1) else SetEnd(pat, n)
  }

  /** Where the single-character item at `p` ends; `None` for a malformed pattern. */
  function ClassEnd(pat: seq<byte>, p: nat): (r: Option<nat>)
    requires p < |pat|
    ensures r.Some? ==> p < r.value <= |pat|
  {
    if pat[p] == ESC then if p + 1 == |pat| then None else Some(p + 2)
    else if pat[p] == '[' as int then SetEnd(pat, if At(pat, p + 1) == '^' as int then p + 2 else p + 1)
    else Some(p + 1)
  }

  /** The item from `p` to `ep` matches the character at `s`. */
  predicate Single(src: seq<byte>, pat: seq<byte>, s: nat, p: nat, ep: nat) {
    s < |src| &&
    var c, x := src[s], At(pat, p);
    if x == '.' as int then true
    else if x == ESC then MatchClass(c, At(pat, p + 1))
    else if x == '[' as int then ep > 0 && InSet(pat, c, p, ep - 1)
    else x == c
  }

  // ---------- the matching relation ----------

  /** Nesting depth of `%bxy` after the characters from `i` up to `k`, of which the first is `x`. */
  function Depth(src: seq<byte>, x: byte, y: byte, i: nat, k: nat): int
    requires i < k <= |src|
  {
    if k == i + 1 then 1
    else Depth(src, x, y, i, k - 1) + if src[k - 1] == y then -1 else if src[k - 1] == x then 1 else 0
  }

  /** `src[i..k]` starts with `x` and ends with the `y` that balances it. */
  ghost predicate Balanced(src: seq<byte>, x: byte, y: byte, i: nat, k: nat) {
    && i < k <= |src| && src[i] == x && Depth(src, x, y, i, k) == 0
    && forall m :: i < m < k ==> Depth(src, x, y, i, m) > 0
  }

  /** The capture that a `)` closes: the last unfinished one. */
  ghost predicate Closes(caps: seq<Cap>, l: nat) {
    l < |caps| && caps[l].len == CAP_UNFINISHED && forall m :: l < m < |caps| ==> caps[m].len != CAP_UNFINISHED
  }

  /** The text of finished capture `l` is found again at `i`. */
  ghost predicate Repeats(src: seq<byte>, caps: seq<Cap>, l: int, i: nat) {
    && 0 <= l < |caps| && caps[l].len >= 0 && caps[l].init + caps[l].len <= |src|
    && i + caps[l].len <= |src| && src[caps[l].init..caps[l].init + caps[l].len] == src[i..i + caps[l].len]
  }

  predicate Frontier(src: seq<byte>, pat: seq<byte>, i: nat, p: nat, ep: nat) {
    ep > 0 && !InSet(pat, if i == 0 then 0 else At(src, i - 1), p, ep - 1) && InSet(pat, At(src, i), p, ep - 1)
  }

  /** Every one of the `k` characters from `i` on matches the item. */
  ghost predicate Repeated(src: seq<byte>, pat: seq<byte>, i: nat, p: nat, ep: nat, k: nat) {
    forall m :: i <= m < i + k ==> Single(src, pat, m, p, ep)
  }

  datatype Kind = PatEnd | Open | OpenPosition | Close | Dollar | Balance | FrontierItem | BackRef | Item

  /** What kind of item the pattern has at `p`. */
  function KindAt(pat: seq<byte>, p: nat): Kind {
    if p >= |pat| then PatEnd
    else if pat[p] == '(' as int then if At(pat, p + 1) == ')' as int then OpenPosition else Open
    else if pat[p] == ')' as int then Close
    else if pat[p] == '$' as int && p + 1 == |pat| then Dollar
    else if pat[p] == ESC && At(pat, p + 1) == 'b' as int then Balance
    else if pat[p] == ESC && At(pat, p + 1) == 'f' as int then FrontierItem
    else if pat[p] == ESC && IsDigit(At(pat, p + 1)) then BackRef
    else Item
  }

  /** The rest of the pattern from `p` can match the subject from `i` to `j`, taking captures `caps` to `caps'`.
      `n` bounds the number of items used. Repetitions take any number of characters: nothing here says
      which match is preferred. */
  ghost predicate Derives(src: seq<byte>, pat: seq<byte>, i: nat, p: nat, caps: seq<Cap>, j: nat, caps': seq<Cap>, n: nat)
    decreases n
  {
    n > 0 &&
    match KindAt(pat, p)
    case PatEnd => j == i && caps' == caps
    case Open => |caps| < MAXCAPTURES && Derives(src, pat, i, p + 1, caps + [Cap(i, CAP_UNFINISHED)], j, caps', n - 1)
    case OpenPosition => |caps| < MAXCAPTURES && Derives(src, pat, i, p + 2, caps + [Cap(i, CAP_POSITION)], j, caps', n - 1)
    case Close => exists l: nat :: Closes(caps, l) && Derives(src, pat, i, p + 1, caps[l := Cap(caps[l].init, i - caps[l].init)], j, caps', n - 1)
    case Dollar => i == |src| && j == i && caps' == caps
    case Balance =>
      p + 3 < |pat| &&
      var x, y := pat[p + 2], pat[p + 3];
      exists k: nat :: Balanced(src, x, y, i, k) && Derives(src, pat, k, p + 4, caps, j, caps', n - 1)
    case FrontierItem =>
      && p + 2 < |pat| && pat[p + 2] == '[' as int && ClassEnd(pat, p + 2).Some?
      && Frontier(src, pat, i, p + 2, ClassEnd(pat, p + 2).value)
      && Derives(src, pat, i, ClassEnd(pat, p + 2).value, caps, j, caps', n - 1)
    case BackRef =>
      var l := At(pat, p + 1) - '1' as int;
      Repeats(src, caps, l, i) && Derives(src, pat, i + caps[l].len, p + 2, caps, j, caps', n - 1)
    case Item =>
      ClassEnd(pat, p).Some? &&
      var ep := ClassEnd(pat, p).value;
      var suffix := At(pat, ep);
      if suffix == '?' as int then
        || Derives(src, pat, i, ep + 1, caps, j, caps', n - 1)
        || (Single(src, pat, i, p, ep) && Derives(src, pat, i + 1, ep + 1, caps, j, caps', n - 1))
      else if suffix == '*' as int || suffix == '-' as int then
        exists k: nat :: Repeated(src, pat, i, p, ep, k) && Derives(src, pat, i + k, ep + 1, caps, j, caps', n - 1)
      else if suffix == '+' as int then
        exists k: nat :: k > 0 && Repeated(src, pat, i, p, ep, k) && Derives(src, pat, i + k, ep + 1, caps, j, caps', n - 1)
      else Single(src, pat, i, p, ep) && Derives(src, pat, i + 1, ep, caps, j, caps', n - 1)
  }

  ghost predicate Can(src: seq<byte>, pat: seq<byte>, i: nat, p: nat, caps: seq<Cap>, j: nat, caps': seq<Cap>) {
    exists n: nat :: Derives(src, pat, i, p, caps, j, caps', n)
  }

  // ---------- the relation, one item at a time ----------

  lemma CanEnd(src: seq<byte>, pat: seq<byte>, i: nat, p: nat, caps: seq<Cap>, j: nat, caps': seq<Cap>)
    requires KindAt(pat, p) == PatEnd
    ensures Can(src, pat, i, p, caps, j, caps') <==> j == i && caps' == caps
  {
    if j == i && caps' == caps {
      assert Derives(src, pat, i, p, caps, j, caps', 1);
    }
  }

  lemma CanOpen(src: seq<byte>, pat: seq<byte>, i: nat, p: nat, caps: seq<Cap>, j: nat, caps': seq<Cap>)
    requires KindAt(pat, p) == Open || KindAt(pat, p) == OpenPosition
    ensures var position := KindAt(pat, p) == OpenPosition;
      Can(src, pat, i, p, caps, j, caps') <==>
        |caps| < MAXCAPTURES && Can(src, pat, i, if position then p + 2 else p + 1, caps + [Cap(i, if position then CAP_POSITION else CAP_UNFINISHED)], j, caps')
  {
    var q, c := if KindAt(pat, p) == OpenPosition then p + 2 else p + 1, caps + [Cap(i, if KindAt(pat, p) == OpenPosition then CAP_POSITION else CAP_UNFINISHED)];
    if Can(src, pat, i, p, caps, j, caps') {
      var n: nat :| Derives(src, pat, i, p, caps, j, caps', n);
      assert Derives(src, pat, i, q, c, j, caps', n - 1);
    }
    if |caps| < MAXCAPTURES && Can(src, pat, i, q, c, j, caps') {
      var n: nat :| Derives(src, pat, i, q, c, j, caps', n);
      assert Derives(src, pat, i, p, caps, j, caps', n + 1);
    }
  }

  lemma CanClose(src: seq<byte>, pat: seq<byte>, i: nat, p: nat, caps: seq<Cap>, j: nat, caps': seq<Cap>, l: nat)
    requires KindAt(pat, p) == Close && Closes(caps, l)
    ensures Can(src, pat, i, p, caps, j, caps') <==> Can(src, pat, i, p + 1, caps[l := Cap(caps[l].init, i - caps[l].init)], j, caps')
  {
    var c := caps[l := Cap(caps[l].init, i - caps[l].init)];
    if Can(src, pat, i, p, caps, j, caps') {
      var n: nat :| Derives(src, pat, i, p, caps, j, caps', n);
      var m: nat :| Closes(caps, m) && Derives(src, pat, i, p + 1, caps[m := Cap(caps[m].init, i - caps[m].init)], j, caps', n - 1);
      assert m == l;
    }
    if Can(src, pat, i, p + 1, c, j, caps') {
      var n: nat :| Derives(src, pat, i, p + 1, c, j, caps', n);
      assert Derives(src, pat, i, p, caps, j, caps', n + 1);
    }
  }

  lemma CanDollar(src: seq<byte>, pat: seq<byte>, i: nat, p: nat, caps: seq<Cap>, j: nat, caps': seq<Cap>)
    requires KindAt(pat, p) == Dollar
    ensures Can(src, pat, i, p, caps, j, caps') <==> i == |src| && j == i && caps' == caps
  {
    if i == |src| && j == i && caps' == caps {
      assert Derives(src, pat, i, p, caps, j, caps', 1);
    }
  }

  lemma BalancedOnce(src: seq<byte>, x: byte, y: byte, i: nat, k: nat, m: nat)
    requires Balanced(src, x, y, i, k) && Balanced(src, x, y, i, m)
    ensures k == m
  {
  }

  lemma CanBalance(src: seq<byte>, pat: seq<byte>, i: nat, p: nat, caps: seq<Cap>, j: nat, caps': seq<Cap>, k: nat)
    requires KindAt(pat, p) == Balance && p + 3 < |pat| && Balanced(src, pat[p + 2], pat[p + 3], i, k)
    ensures Can(src, pat, i, p, caps, j, caps') <==> Can(src, pat, k, p + 4, caps, j, caps')
  {
    if Can(src, pat, i, p, caps, j, caps') {
      var n: nat :| Derives(src, pat, i, p, caps, j, caps', n);
      var x, y := pat[p + 2], pat[p + 3];
      var m: nat :| Balanced(src, x, y, i, m) && Derives(src, pat, m, p + 4, caps, j, caps', n - 1);
      BalancedOnce(src, x, y, i, k, m);
    }
    if Can(src, pat, k, p + 4, caps, j, caps') {
      var n: nat :| Derives(src, pat, k, p + 4, caps, j, caps', n);
      assert Derives(src, pat, i, p, caps, j, caps', n + 1);
    }
  }

  ghost predicate NotBalanced(src: seq<byte>, x: byte, y: byte, i: nat) {
    forall k: nat :: !Balanced(src, x, y, i, k)
  }

  lemma CannotBalance(src: seq<byte>, pat: seq<byte>, i: nat, p: nat, caps: seq<Cap>, j: nat, caps': seq<Cap>)
    requires KindAt(pat, p) == Balance && p + 3 < |pat| && NotBalanced(src, pat[p + 2], pat[p + 3], i)
    ensures !Can(src, pat, i, p, caps, j, caps')
  {
  }

  lemma CanFrontier(src: seq<byte>, pat: seq<byte>, i: nat, p: nat, caps: seq<Cap>, j: nat, caps': seq<Cap>)
    requires KindAt(pat, p) == FrontierItem && p + 2 < |pat| && pat[p + 2] == '[' as int && ClassEnd(pat, p + 2).Some?
    ensures var ep := ClassEnd(pat, p + 2).value;
      Can(src, pat, i, p, caps, j, caps') <==> Frontier(src, pat, i, p + 2, ep) && Can(src, pat, i, ep, caps, j, caps')
  {
    var ep := ClassEnd(pat, p + 2).value;
    if Can(src, pat, i, p, caps, j, caps') {
      var n: nat :| Derives(src, pat, i, p, caps, j, caps', n);
      assert Derives(src, pat, i, ep, caps, j, caps', n - 1);
    }
    if Frontier(src, pat, i, p + 2, ep) && Can(src, pat, i, ep, caps, j, caps') {
      var n: nat :| Derives(src, pat, i, ep, caps, j, caps', n);
      assert Derives(src, pat, i, p, caps, j, caps', n + 1);
    }
  }

  lemma CanBackRef(src: seq<byte>, pat: seq<byte>, i: nat, p: nat, caps: seq<Cap>, j: nat, caps': seq<Cap>)
    requires KindAt(pat, p) == BackRef
    ensures var l := At(pat, p + 1) - '1' as int;
      Can(src, pat, i, p, caps, j, caps') <==> Repeats(src, caps, l, i) && Can(src, pat, i + caps[l].len, p + 2, caps, j, caps')
  {
    var l := At(pat, p + 1) - '1' as int;
    if Can(src, pat, i, p, caps, j, caps') {
      var n: nat :| Derives(src, pat, i, p, caps, j, caps', n);
      assert Derives(src, pat, i + caps[l].len, p + 2, caps, j, caps', n - 1);
    }
    if Repeats(src, caps, l, i) && Can(src, pat, i + caps[l].len, p + 2, caps, j, caps') {
      var n: nat :| Derives(src, pat, i + caps[l].len, p + 2, caps, j, caps', n);
      assert Derives(src, pat, i, p, caps, j, caps', n + 1);
    }
  }

  /** An item followed by something that is not a suffix. */
  lemma CanSingle(src: seq<byte>, pat: seq<byte>, i: nat, p: nat, caps: seq<Cap>, j: nat, caps': seq<Cap>, ep: nat)
    requires KindAt(pat, p) == Item && ClassEnd(pat, p) == Some(ep)
    requires At(pat, ep) != '?' as int && At(pat, ep) != '*' as int && At(pat, ep) != '+' as int && At(pat, ep) != '-' as int
    ensures Can(src, pat, i, p, caps, j, caps') <==> Single(src, pat, i, p, ep) && Can(src, pat, i + 1, ep, caps, j, caps')
  {
    hide Single;
    if Can(src, pat, i, p, caps, j, caps') {
      var n: nat :| Derives(src, pat, i, p, caps, j, caps', n);
      assert Derives(src, pat, i + 1, ep, caps, j, caps', n - 1);
    }
    if Single(src, pat, i, p, ep) && Can(src, pat, i + 1, ep, caps, j, caps') {
      var n: nat :| Derives(src, pat, i + 1, ep, caps, j, caps', n);
      assert Derives(src, pat, i, p, caps, j, caps', n + 1);
    }
  }

  lemma CanOptional(src: seq<byte>, pat: seq<byte>, i: nat, p: nat, caps: seq<Cap>, j: nat, caps': seq<Cap>, ep: nat)
    requires KindAt(pat, p) == Item && ClassEnd(pat, p) == Some(ep) && At(pat, ep) == '?' as int
    ensures Can(src, pat, i, p, caps, j, caps') <==>
      Can(src, pat, i, ep + 1, caps, j, caps') || (Single(src, pat, i, p, ep) && Can(src, pat, i + 1, ep + 1, caps, j, caps'))
  {
    hide Single;
    if Can(src, pat, i, p, caps, j, caps') {
      var n: nat :| Derives(src, pat, i, p, caps, j, caps', n);
      assert Derives(src, pat, i, ep + 1, caps, j, caps', n - 1) || Derives(src, pat, i + 1, ep + 1, caps, j, caps', n - 1);
    }
    if Can(src, pat, i, ep + 1, caps, j, caps') {
      var n: nat :| Derives(src, pat, i, ep + 1, caps, j, caps', n);
      assert Derives(src, pat, i, p, caps, j, caps', n + 1);
    }
    if Single(src, pat, i, p, ep) && Can(src, pat, i + 1, ep + 1, caps, j, caps') {
      var n: nat :| Derives(src, pat, i + 1, ep + 1, caps, j, caps', n);
      assert Derives(src, pat, i, p, caps, j, caps', n + 1);
    }
  }

  predicate Repeating(suffix: byte) {
    suffix == '*' as int || suffix == '-' as int || suffix == '+' as int
  }

  /** The least number of repetitions that a suffix asks for. */
  function Least(suffix: byte): nat {
    if suffix == '+' as int then 1 else 0
  }

  ghost predicate CanAfter(src: seq<byte>, pat: seq<byte>, i: nat, p: nat, ep: nat, caps: seq<Cap>, j: nat, caps': seq<Cap>, k: nat) {
    Repeated(src, pat, i, p, ep, k) && Can(src, pat, i + k, ep + 1, caps, j, caps')
  }

  lemma CanRepeat(src: seq<byte>, pat: seq<byte>, i: nat, p: nat, caps: seq<Cap>, j: nat, caps': seq<Cap>, ep: nat)
    requires KindAt(pat, p) == Item && ClassEnd(pat, p) == Some(ep) && Repeating(At(pat, ep))
    ensures Can(src, pat, i, p, caps, j, caps') <==>
      exists k: nat :: k >= Least(At(pat, ep)) && CanAfter(src, pat, i, p, ep, caps, j, caps', k)
  {
    hide Repeated;
    if Can(src, pat, i, p, caps, j, caps') {
      var n: nat :| Derives(src, pat, i, p, caps, j, caps', n);
      var k: nat :| k >= Least(At(pat, ep)) && Repeated(src, pat, i, p, ep, k) && Derives(src, pat, i + k, ep + 1, caps, j, caps', n - 1);
      assert CanAfter(src, pat, i, p, ep, caps, j, caps', k);
    }
    if exists k: nat :: k >= Least(At(pat, ep)) && CanAfter(src, pat, i, p, ep, caps, j, caps', k) {
      var k: nat :| k >= Least(At(pat, ep)) && CanAfter(src, pat, i, p, ep, caps, j, caps', k);
      var n: nat :| Derives(src, pat, i + k, ep + 1, caps, j, caps', n);
      assert Derives(src, pat, i, p, caps, j, caps', n + 1);
    }
  }
}
