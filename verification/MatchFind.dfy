/** Searching a subject: with patterns, and plainly. */
module MatchFind {
  import opened Bytes
  import opened MatchPattern
  import opened MatchRun
  import opened MatchLoop
  import opened Sequences
  import opened Wrappers

  /** Where the search from `init` on ends, and with what: the first position where the pattern matches or raises
      an error, or the end of the subject. */
  ghost function SearchFrom(src: seq<byte>, pat: seq<byte>, init: nat): (nat, Outcome)
    decreases |src| - init
  {
    var o := Run(src, pat, init, 0, []);
    if o.Failed? && init < |src| then SearchFrom(src, pat, init + 1) else (init, o)
  }

  /** The search for a pattern, which may be anchored. */
  ghost function Search(src: seq<byte>, pattern: seq<byte>, init: nat): (nat, Outcome) {
    if At(pattern, 0) == '^' as int then (init, Run(src, pattern[1..], init, 0, [])) else SearchFrom(src, pattern, init)
  }

  /** The work of a search: that of all the starts that are tried. */
  ghost function WorkFrom(src: seq<byte>, pat: seq<byte>, init: nat): nat
    decreases |src| - init
  {
    Work(src, pat, init, 0, []) + if Run(src, pat, init, 0, []).Failed? && init < |src| then WorkFrom(src, pat, init + 1) else 0
  }

  ghost function SearchWork(src: seq<byte>, pattern: seq<byte>, init: nat): nat {
    if At(pattern, 0) == '^' as int then Work(src, pattern[1..], init, 0, []) else WorkFrom(src, pattern, init)
  }

  /** A search that finds something finds a match that starts at the first position where there is one; one that
      finds nothing, and ends in no error, shows that there is none. */
  lemma {:induction false} SearchFirst(src: seq<byte>, pat: seq<byte>, init: nat)
    requires init <= |src|
    ensures var (start, o) := SearchFrom(src, pat, init);
      && init <= start <= |src| && (forall t: nat :: init <= t < start ==> Fails(src, pat, t, 0, []))
      && (o.Matched? ==> Can(src, pat, start, 0, [], o.e, o.caps))
      && (o.Failed? ==> forall t: nat :: init <= t <= |src| ==> Fails(src, pat, t, 0, []))
    decreases |src| - init
  {
    hide Run, Can;
    RunAgrees(src, pat, init, 0, []);
    if Run(src, pat, init, 0, []).Failed? && init < |src| {
      SearchFirst(src, pat, init + 1);
    }
  }

  /** The loop of `str_find_aux`. `nrep` limits the work. */
  method Find(src: seq<byte>, pattern: seq<byte>, init: nat) returns (r: Result, start: nat, caps: seq<Cap>)
    requires init <= |src|
    ensures r != Error(TOO_COMPLEX) ==> var (first, o) := Search(src, pattern, init);
      start == first && match r case Found(e) => o == Matched(e, caps) case NoMatch => o == Failed case Error(msg) => o == Bad(msg)
    ensures r == Error(TOO_COMPLEX) ==> SearchWork(src, pattern, init) > Repetitions(|src|) || |pattern| >= 200
  {
    hide Run, Work;
    var anchor := At(pattern, 0) == '^' as int;
    var pat := if anchor then pattern[1..] else pattern;
    var ms := new MatchState(src, pat);
    start, caps := init, [];
    while true
      invariant fresh(ms) && fresh(ms.capture) && ms.capture.Length == MAXCAPTURES && ms.matchdepth == MAXCCALLS && ms.src == src && ms.pat == pat
      invariant init <= start <= |src| && (anchor ==> start == init)
      invariant !anchor ==> Search(src, pattern, init) == SearchFrom(src, pat, start)
      invariant ms.nrep + SearchWork(src, pattern, init) == Repetitions(|src|) + if anchor then Work(src, pat, start, 0, []) else WorkFrom(src, pat, start)
      decreases |src| - start
    {
      ms.level := 0;
      assert ms.Caps() == [];
      r := ms.Match(start, 0);
      if r.Found? {
        caps := ms.capture[..ms.level];
        return;
      }
      if r.Error? || !(start < |src|) || anchor {
        return;
      }
      start := start + 1;
    }
  }

  // ---------- plain search ----------

  const SPECIALS: seq<byte> := ['^' as int, '$' as int, '*' as int, '+' as int, '?' as int, '.' as int, '(' as int, '[' as int, '%' as int, '-' as int]

  predicate NoSpecials(p: seq<byte>) {
    forall i :: 0 <= i < |p| ==> p[i] !in SPECIALS
  }

  /** `nospecials`: looks at one zero-terminated piece of the pattern after the other. */
  method HasNoSpecials(p: seq<byte>) returns (b: bool)
    ensures b == NoSpecials(p)
  {
    var upto := 0;
    while true
      invariant 0 <= upto <= |p| && forall i :: 0 <= i < upto ==> p[i] !in SPECIALS
      decreases |p| - upto
    {
      var i := upto;
      while At(p, i) != 0
        invariant upto <= i <= |p| && forall x :: 0 <= x < i ==> p[x] !in SPECIALS
        decreases |p| - i
      {
        if p[i] in SPECIALS {
          return false;
        }
        i := i + 1;
      }
      upto := i + 1;
      if upto > |p| {
        return true;
      }
    }
  }

  /** The special characters, which decide for the plain search: `^$*+?.([%-`. */
  lemma SpecialBytes(p: seq<byte>)
    ensures NoSpecials(p) <==> forall i :: 0 <= i < |p| ==>
      (p[i] != 94 && p[i] != 36 && p[i] != 42 && p[i] != 43 && p[i] != 63 && p[i] != 46 && p[i] != 40 && p[i] != 91 && p[i] != 37 && p[i] != 45)
  {
  }

  /** A caret at the start of the pattern fixes where the match starts. */
  lemma Anchored(src: seq<byte>, pat: seq<byte>, init: nat)
    ensures Search(src, [94] + pat, init) == (init, Run(src, pat, init, 0, []))
  {
    assert ([94] + pat)[1..] == pat;
  }

  ghost predicate Occurs(s: seq<byte>, t: seq<byte>, i: nat) {
    i + |t| <= |s| && s[i..i + |t|] == t
  }

  lemma OccursHead(s: seq<byte>, t: seq<byte>, i: nat)
    requires |t| > 0 && i + |t| <= |s|
    ensures Occurs(s, t, i) <==> s[i] == t[0] && s[i + 1..i + |t|] == t[1..]
  {
    assert s[i..i + |t|] == [s[i]] + s[i + 1..i + |t|] && t == [t[0]] + t[1..];
  }

  /** `lmemfind`: the first occurrence of `t`, found by its first character. */
  method MemFind(s: seq<byte>, t: seq<byte>) returns (r: Option<nat>)
    ensures match r
      case Some(i) => Occurs(s, t, i) && forall x: nat :: x < i ==> !Occurs(s, t, x)
      case None => forall x: nat :: !Occurs(s, t, x)
  {
    if |t| == 0 {
      assert s[0..0] == t;
      return Some(0);
    } else if |t| > |s| {
      return None;
    }
    var end := |s| - (|t| - 1);
    var i := 0;
    while i < end
      invariant 0 <= i <= end && forall x: nat :: x < i ==> !Occurs(s, t, x)
    {
      OccursHead(s, t, i);
      if s[i] == t[0] && s[i + 1..i + |t|] == t[1..] {
        return Some(i);
      }
      i := i + 1;
    }
    return None;
  }

  // ---------- both searches ----------

  /** The first occurrence of `t` from `i` on. */
  function PlainFrom(s: seq<byte>, t: seq<byte>, i: nat): (r: Option<nat>)
    ensures match r
      case Some(x) => i <= x && Occurs(s, t, x) && forall y: nat :: i <= y < x ==> !Occurs(s, t, y)
      case None => forall y: nat :: i <= y ==> !Occurs(s, t, y)
    decreases |s| - i
  {
    if i > |s| then None else if i + |t| <= |s| && s[i..i + |t|] == t then Some(i) else PlainFrom(s, t, i + 1)
  }

  lemma OccursIn(s: seq<byte>, t: seq<byte>, init: nat, x: nat)
    requires init <= |s|
    ensures Occurs(s[init..], t, x) <==> Occurs(s, t, init + x)
  {
    if init + x + |t| <= |s| {
      assert s[init..][x..x + |t|] == s[init + x..init + x + |t|];
    }
  }

  lemma PlainIs(s: seq<byte>, t: seq<byte>, init: nat, r: Option<nat>)
    requires init <= |s|
    requires match r
      case Some(i) => Occurs(s[init..], t, i) && forall x: nat :: x < i ==> !Occurs(s[init..], t, x)
      case None => forall x: nat :: !Occurs(s[init..], t, x)
    ensures PlainFrom(s, t, init) == if r.Some? then Some(init + r.value) else None
  {
    hide Occurs;
    var q := PlainFrom(s, t, init);
    if q.Some? {
      OccursIn(s, t, init, q.value - init);
    }
    if r.Some? {
      OccursIn(s, t, init, r.value);
      if q.Some? {
        OccursIn(s, t, init, q.value - init);
      }
    }
  }

  /** `str_find_aux` called by `find`; `from` and `plain` are its last arguments. */
  method StrFind(src: seq<byte>, pattern: seq<byte>, from: int, plain: bool) returns (r: Result, start: nat, caps: seq<Cap>)
    ensures Posrelat(from, |src|) > |src| + 1 ==> r == NoMatch
    ensures Posrelat(from, |src|) <= |src| + 1 ==> var init := StartAt(from, |src|);
      if plain || NoSpecials(pattern) then
        match PlainFrom(src, pattern, init)
        case Some(i) => r == Found(i + |pattern|) && start == i && caps == []
        case None => r == NoMatch
      else r != Error(TOO_COMPLEX) ==> var (first, o) := Search(src, pattern, init);
        start == first && match r case Found(e) => o == Matched(e, caps) case NoMatch => o == Failed case Error(msg) => o == Bad(msg)
    ensures r == Error(TOO_COMPLEX) && |src| < 0x3000_0000_0000_0000 ==>
      SearchWork(src, pattern, StartAt(from, |src|)) > 4 * |src| + 100000 || |pattern| >= 200
  {
    hide Occurs, Search, NoSpecials, SearchWork;
    if Posrelat(from, |src|) > |src| + 1 {
      return NoMatch, 0, [];
    }
    var init := StartAt(from, |src|);
    var none := HasNoSpecials(pattern);
    if plain || none {
      var i := MemFind(src[init..], pattern);
      PlainIs(src, pattern, init, i);
      start, caps := init + i.GetOr(0), [];
      r := if i.Some? then Found(start + |pattern|) else NoMatch;
    } else {
      r, start, caps := Find(src, pattern, init);
    }
  }

  /** The offset where the search starts. */
  function StartAt(from: int, len: nat): nat {
    if Posrelat(from, len) < 1 then 0 else Posrelat(from, len) - 1
  }

  /** A pattern without special characters matches its own text, up to the first `)`, which is an error. */
  lemma {:induction false} PlainRun(src: seq<byte>, pat: seq<byte>, i: nat, p: nat, k: nat)
    requires NoSpecials(pat) && i <= |src| && p <= k <= |pat| && (k < |pat| ==> pat[k] == ')' as int)
    requires forall x :: p <= x < k ==> pat[x] != ')' as int
    ensures Run(src, pat, i, p, []) == if !Occurs(src, pat[p..k], i) then Failed
      else if k == |pat| then Matched(i + (k - p), []) else Bad("invalid pattern capture")
    decreases k - p
  {
    if p < k {
      assert pat[p] !in SPECIALS && (p + 1 < |pat| ==> pat[p + 1] !in SPECIALS);
      assert pat[p..k] == [pat[p]] + pat[p + 1..k];
      if i < |src| {
        PlainRun(src, pat, i + 1, p + 1, k);
      }
      if i + (k - p) <= |src| {
        OccursHead(src, pat[p..k], i);
      }
    } else {
      assert pat[p..k] == [] && src[i..i] == [];
    }
  }

  /** Where the first `)` is, or the end. */
  function FirstClose(pat: seq<byte>): (k: nat)
    ensures k <= |pat| && (k < |pat| <==> ')' as int in pat) && (k < |pat| ==> pat[k] == ')' as int)
    ensures forall x :: 0 <= x < k ==> pat[x] != ')' as int
  {
    if pat == [] || pat[0] == ')' as int then 0 else 1 + FirstClose(pat[1..])
  }

  /** The search for a pattern gives what the plain search for its text gives. */
  ghost predicate SameSearch(src: seq<byte>, pat: seq<byte>, init: nat) {
    match PlainFrom(src, pat, init)
    case Some(i) => SearchFrom(src, pat, init) == (i, Matched(i + |pat|, []))
    case None => SearchFrom(src, pat, init).1 == Failed
  }

  lemma {:induction false} SearchPlain(src: seq<byte>, pat: seq<byte>, init: nat)
    requires NoSpecials(pat) && init <= |src|
    ensures var k := FirstClose(pat); var head := PlainFrom(src, pat[..k], init);
      if head.None? then SearchFrom(src, pat, init) == (|src|, Failed)
      else SearchFrom(src, pat, init) == (head.value, if k == |pat| then Matched(head.value + |pat|, []) else Bad("invalid pattern capture"))
    decreases |src| - init
  {
    hide NoSpecials, Run;
    var k := FirstClose(pat);
    PlainRun(src, pat, init, 0, k);
    assert pat[0..k] == pat[..k];
    if init < |src| {
      SearchPlain(src, pat, init + 1);
    }
  }

  /** For a pattern that `nospecials` finds plain, the plain search that `find` then makes agrees with the search for
      the pattern if and only if the pattern has no `)`, or what comes before the first `)` does not occur from
      `init` on. As to whether something is found, they agree if and only if there is no `)`, or no occurrence. */
  lemma PlainSearchAgrees(src: seq<byte>, pat: seq<byte>, init: nat)
    requires NoSpecials(pat) && init <= |src|
    ensures SameSearch(src, pat, init) <==> ')' as int !in pat || PlainFrom(src, pat[..FirstClose(pat)], init).None?
    ensures (PlainFrom(src, pat, init).Some? <==> SearchFrom(src, pat, init).1.Matched?) <==> ')' as int !in pat || PlainFrom(src, pat, init).None?
  {
    hide NoSpecials, Occurs, SearchFrom;
    var k := FirstClose(pat);
    SearchPlain(src, pat, init);
    if k == |pat| {
      assert pat[..k] == pat;
    } else if PlainFrom(src, pat, init).Some? {
      HeadOccurs(src, pat, k, PlainFrom(src, pat, init).value);
    }
  }

  lemma HeadOccurs(src: seq<byte>, pat: seq<byte>, k: nat, i: nat)
    requires k <= |pat| && Occurs(src, pat, i)
    ensures Occurs(src, pat[..k], i)
  {
    assert src[i..i + k] == src[i..i + |pat|][..k];
  }

  /** `find` finds a parenthesis that the pattern search takes for an error. */
  lemma ParenthesisDiffers()
    ensures var s: seq<byte> := [')' as int];
      && NoSpecials(s) && PlainFrom(s, s, 0) == Some(0)
      && SearchFrom(s, s, 0) == (0, Bad("invalid pattern capture")) && !SameSearch(s, s, 0)
  {
    hide SearchFrom;
    var s: seq<byte> := [')' as int];
    assert Occurs(s, s, 0);
    assert FirstClose(s) == 0 && s[..0] == [];
    SearchPlain(s, s, 0);
  }
}
