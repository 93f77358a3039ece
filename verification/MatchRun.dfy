/** What the matcher does with a pattern: the match that it prefers, or the error that it raises. */
module MatchRun {
  import opened Bytes
  import opened MatchPattern
  import opened Wrappers

  datatype Outcome = Matched(e: nat, caps: seq<Cap>) | Failed | Bad(msg: string)

  /** The capture that a `)` closes, or -1. */
  function Closing(caps: seq<Cap>): (l: int)
    ensures l == -1 || (0 <= l < |caps| && Closes(caps, l))
    ensures l == -1 ==> forall m: nat :: !Closes(caps, m)
  {
    if caps == [] then -1
    else if caps[|caps| - 1].len == CAP_UNFINISHED then |caps| - 1
    else
      var l := Closing(caps[..|caps| - 1]);
      assert forall m: nat :: Closes(caps, m) ==> Closes(caps[..|caps| - 1], m);
      l
  }

  /** How many characters from `i` on match the item. */
  function Count(src: seq<byte>, pat: seq<byte>, i: nat, p: nat, ep: nat): (n: nat)
    ensures Repeated(src, pat, i, p, ep, n) && !Single(src, pat, i + n, p, ep) && (n > 0 ==> i + n <= |src|)
    decreases |src| - i
  {
    if Single(src, pat, i, p, ep) then 1 + Count(src, pat, i + 1, p, ep) else 0
  }

  /** Where the balanced text at `i` ends, or `None`. */
  ghost function BalanceEnd(src: seq<byte>, x: byte, y: byte, i: nat): (r: Option<nat>)
    ensures match r case Some(k) => Balanced(src, x, y, i, k) case None => forall k: nat :: !Balanced(src, x, y, i, k)
  {
    if k: nat :| Balanced(src, x, y, i, k) then Some(k) else None
  }

  predicate CanRefer(caps: seq<Cap>, l: int) {
    0 <= l < |caps| && caps[l].len != CAP_UNFINISHED
  }

  /** The errors of an item that does not end, and of a back reference to no finished capture. */
  function ClassError(pat: seq<byte>, p: nat): string {
    if At(pat, p) == '%' as int then "malformed pattern (ends with '%')" else "malformed pattern (missing ']')"
  }

  function CaptureError(digit: byte): string {
    "invalid capture index %" + [digit as char]
  }

  /** Matching the pattern from `p` at `i`: repetitions are tried from the longest, after `-` from the shortest,
      an optional item first with it, and the first match found is taken. */
  ghost function Run(src: seq<byte>, pat: seq<byte>, i: nat, p: nat, caps: seq<Cap>): Outcome
    decreases |pat| - p, 2
  {
    match KindAt(pat, p)
    case PatEnd => Matched(i, caps)
    case Open => if |caps| >= MAXCAPTURES then Bad("too many captures") else Run(src, pat, i, p + 1, caps + [Cap(i, CAP_UNFINISHED)])
    case OpenPosition => if |caps| >= MAXCAPTURES then Bad("too many captures") else Run(src, pat, i, p + 2, caps + [Cap(i, CAP_POSITION)])
    case Close =>
      var l := Closing(caps);
      if l < 0 then Bad("invalid pattern capture") else Run(src, pat, i, p + 1, caps[l := Cap(caps[l].init, i - caps[l].init)])
    case Dollar => if i == |src| then Matched(i, caps) else Failed
    case Balance =>
      if p + 3 >= |pat| then Bad("malformed pattern (missing arguments to '%b')")
      else
        var k := BalanceEnd(src, pat[p + 2], pat[p + 3], i);
        if k.None? then Failed else Run(src, pat, k.value, p + 4, caps)
    case FrontierItem =>
      if At(pat, p + 2) != '[' as int then Bad("missing '[' after '%f' in pattern")
      else if ClassEnd(pat, p + 2).None? then Bad(ClassError(pat, p + 2))
      else
        var ep := ClassEnd(pat, p + 2).value;
        if Frontier(src, pat, i, p + 2, ep) then Run(src, pat, i, ep, caps) else Failed
    case BackRef =>
      var l := At(pat, p + 1) - '1' as int;
      if !CanRefer(caps, l) then Bad(CaptureError(At(pat, p + 1)))
      else if Repeats(src, caps, l, i) then Run(src, pat, i + caps[l].len, p + 2, caps) else Failed
    case Item => if ClassEnd(pat, p).None? then Bad(ClassError(pat, p)) else RunItem(src, pat, i, p, ClassEnd(pat, p).value, caps)
  }

  /** A single-character item with its suffix. */
  ghost function RunItem(src: seq<byte>, pat: seq<byte>, i: nat, p: nat, ep: nat, caps: seq<Cap>): Outcome
    requires p < ep <= |pat|
    decreases |pat| - p, 1
  {
    var suffix := At(pat, ep);
    if !Single(src, pat, i, p, ep) then
      if suffix == '*' as int || suffix == '?' as int || suffix == '-' as int then Run(src, pat, i, ep + 1, caps) else Failed
    else if suffix == '?' as int then
      var r := Run(src, pat, i + 1, ep + 1, caps);
      if r.Failed? then Run(src, pat, i, ep + 1, caps) else r
    else if suffix == '+' as int then RunDown(src, pat, i + 1, p, ep, caps, Count(src, pat, i + 1, p, ep))
    else if suffix == '*' as int then RunDown(src, pat, i, p, ep, caps, Count(src, pat, i, p, ep))
    else if suffix == '-' as int then RunUp(src, pat, i, p, ep, caps)
    else Run(src, pat, i + 1, ep, caps)
  }

  /** At most `k` repetitions, as many as possible. */
  ghost function RunDown(src: seq<byte>, pat: seq<byte>, i: nat, p: nat, ep: nat, caps: seq<Cap>, k: nat): Outcome
    requires p < ep < |pat|
    decreases |pat| - p, 0, k
  {
    var r := Run(src, pat, i + k, ep + 1, caps);
    if r.Failed? && k > 0 then RunDown(src, pat, i, p, ep, caps, k - 1) else r
  }

  /** As few repetitions as possible. */
  ghost function RunUp(src: seq<byte>, pat: seq<byte>, i: nat, p: nat, ep: nat, caps: seq<Cap>): Outcome
    requires p < ep < |pat|
    decreases |pat| - p, 0, |src| - i
  {
    var r := Run(src, pat, i, ep + 1, caps);
    if !r.Failed? then r else if Single(src, pat, i, p, ep) then RunUp(src, pat, i + 1, p, ep, caps) else Failed
  }

  // ---------- how much work that is ----------

  /** How often a single-character item is found to match, row by row, while the pattern is run: what `nrep` limits. */
  ghost function Work(src: seq<byte>, pat: seq<byte>, i: nat, p: nat, caps: seq<Cap>): nat
    decreases |pat| - p, 2
  {
    match KindAt(pat, p)
    case PatEnd => 0
    case Open => if |caps| >= MAXCAPTURES then 0 else Work(src, pat, i, p + 1, caps + [Cap(i, CAP_UNFINISHED)])
    case OpenPosition => if |caps| >= MAXCAPTURES then 0 else Work(src, pat, i, p + 2, caps + [Cap(i, CAP_POSITION)])
    case Close =>
      var l := Closing(caps);
      if l < 0 then 0 else Work(src, pat, i, p + 1, caps[l := Cap(caps[l].init, i - caps[l].init)])
    case Dollar => 0
    case Balance =>
      if p + 3 >= |pat| then 0
      else
        var k := BalanceEnd(src, pat[p + 2], pat[p + 3], i);
        if k.None? then 0 else Work(src, pat, k.value, p + 4, caps)
    case FrontierItem =>
      if At(pat, p + 2) != '[' as int || ClassEnd(pat, p + 2).None? then 0
      else
        var ep := ClassEnd(pat, p + 2).value;
        if Frontier(src, pat, i, p + 2, ep) then Work(src, pat, i, ep, caps) else 0
    case BackRef =>
      var l := At(pat, p + 1) - '1' as int;
      if CanRefer(caps, l) && Repeats(src, caps, l, i) then Work(src, pat, i + caps[l].len, p + 2, caps) else 0
    case Item => if ClassEnd(pat, p).None? then 0 else WorkItem(src, pat, i, p, ClassEnd(pat, p).value, caps)
  }

  ghost function WorkItem(src: seq<byte>, pat: seq<byte>, i: nat, p: nat, ep: nat, caps: seq<Cap>): nat
    requires p < ep <= |pat|
    decreases |pat| - p, 1
  {
    var suffix := At(pat, ep);
    if !Single(src, pat, i, p, ep) then
      if suffix == '*' as int || suffix == '?' as int || suffix == '-' as int then Work(src, pat, i, ep + 1, caps) else 0
    else
      1 + if suffix == '?' as int then
          Work(src, pat, i + 1, ep + 1, caps) + if Run(src, pat, i + 1, ep + 1, caps).Failed? then Work(src, pat, i, ep + 1, caps) else 0
        else if suffix == '+' as int then WorkDown(src, pat, i + 1, p, ep, caps, Count(src, pat, i + 1, p, ep))
        else if suffix == '*' as int then WorkDown(src, pat, i, p, ep, caps, Count(src, pat, i, p, ep))
        else if suffix == '-' as int then WorkUp(src, pat, i, p, ep, caps)
        else Work(src, pat, i + 1, ep, caps)
  }

  ghost function WorkDown(src: seq<byte>, pat: seq<byte>, i: nat, p: nat, ep: nat, caps: seq<Cap>, k: nat): nat
    requires p < ep < |pat|
    decreases |pat| - p, 0, k
  {
    Work(src, pat, i + k, ep + 1, caps) +
      if Run(src, pat, i + k, ep + 1, caps).Failed? && k > 0 then WorkDown(src, pat, i, p, ep, caps, k - 1) else 0
  }

  ghost function WorkUp(src: seq<byte>, pat: seq<byte>, i: nat, p: nat, ep: nat, caps: seq<Cap>): nat
    requires p < ep < |pat|
    decreases |pat| - p, 0, |src| - i
  {
    Work(src, pat, i, ep + 1, caps) +
      if Run(src, pat, i, ep + 1, caps).Failed? && Single(src, pat, i, p, ep) then WorkUp(src, pat, i + 1, p, ep, caps) else 0
  }

  // ---------- what the preferred match is among all matches ----------

  /** No way to match the pattern from `p` at `s`. */
  ghost predicate Fails(src: seq<byte>, pat: seq<byte>, s: nat, p: nat, caps: seq<Cap>) {
    forall j: nat, caps': seq<Cap> :: !Can(src, pat, s, p, caps, j, caps')
  }

  /** A match is one that the relation allows; if there is none, the relation allows none. */
  ghost predicate Agrees(src: seq<byte>, pat: seq<byte>, i: nat, p: nat, caps: seq<Cap>, o: Outcome) {
    match o
    case Matched(e, c) => Can(src, pat, i, p, caps, e, c)
    case Failed => Fails(src, pat, i, p, caps)
    case Bad(_) => true
  }

  /** Matching at `(s, p)` is matching at `(t, q)`. */
  ghost predicate SameMatches(src: seq<byte>, pat: seq<byte>, s: nat, p: nat, caps: seq<Cap>, t: nat, q: nat, caps': seq<Cap>) {
    forall j: nat, c: seq<Cap> :: Can(src, pat, s, p, caps, j, c) <==> Can(src, pat, t, q, caps', j, c)
  }

  lemma SameAgrees(src: seq<byte>, pat: seq<byte>, s: nat, p: nat, caps: seq<Cap>, t: nat, q: nat, caps': seq<Cap>, o: Outcome)
    requires SameMatches(src, pat, s, p, caps, t, q, caps') && Agrees(src, pat, t, q, caps', o)
    ensures Agrees(src, pat, s, p, caps, o)
  {
    hide Can;
  }

  /** The matcher is sound and complete: what it finds is a match, and where it fails there is none. */
  lemma {:induction false} RunAgrees(src: seq<byte>, pat: seq<byte>, i: nat, p: nat, caps: seq<Cap>)
    ensures Agrees(src, pat, i, p, caps, Run(src, pat, i, p, caps))
    decreases |pat| - p, 5
  {
    hide Agrees, Can, Fails, SameMatches, RunItem, Frontier, Repeats, Balanced, BalanceEnd, ClassEnd;
    match KindAt(pat, p)
    case PatEnd => EndAgrees(src, pat, i, p, caps);
    case Open => if |caps| < MAXCAPTURES {
      RunAgrees(src, pat, i, p + 1, caps + [Cap(i, CAP_UNFINISHED)]);
      OpenSame(src, pat, i, p, caps);
      SameAgrees(src, pat, i, p, caps, i, p + 1, caps + [Cap(i, CAP_UNFINISHED)], Run(src, pat, i, p, caps));
    } else {
      BadAgrees(src, pat, i, p, caps);
    }
    case OpenPosition => if |caps| < MAXCAPTURES {
      RunAgrees(src, pat, i, p + 2, caps + [Cap(i, CAP_POSITION)]);
      OpenSame(src, pat, i, p, caps);
      SameAgrees(src, pat, i, p, caps, i, p + 2, caps + [Cap(i, CAP_POSITION)], Run(src, pat, i, p, caps));
    } else {
      BadAgrees(src, pat, i, p, caps);
    }
    case Close =>
      var l := Closing(caps);
      if l >= 0 {
        var c := caps[l := Cap(caps[l].init, i - caps[l].init)];
        RunAgrees(src, pat, i, p + 1, c);
        CloseSame(src, pat, i, p, caps, l);
        SameAgrees(src, pat, i, p, caps, i, p + 1, c, Run(src, pat, i, p, caps));
      } else {
        BadAgrees(src, pat, i, p, caps);
      }
    case Dollar => DollarAgrees(src, pat, i, p, caps);
    case Balance => BalanceAgrees(src, pat, i, p, caps);
    case FrontierItem => FrontierAgrees(src, pat, i, p, caps);
    case BackRef => BackRefAgrees(src, pat, i, p, caps);
    case Item => if ClassEnd(pat, p).Some? {
      ItemAgrees(src, pat, i, p, ClassEnd(pat, p).value, caps);
    } else {
      BadAgrees(src, pat, i, p, caps);
    }
  }

  lemma BadAgrees(src: seq<byte>, pat: seq<byte>, i: nat, p: nat, caps: seq<Cap>)
    ensures forall m: string :: Agrees(src, pat, i, p, caps, Bad(m))
  {
  }

  lemma FailsAgrees(src: seq<byte>, pat: seq<byte>, i: nat, p: nat, caps: seq<Cap>)
    requires Fails(src, pat, i, p, caps)
    ensures Agrees(src, pat, i, p, caps, Failed)
  {
  }

  lemma EndAgrees(src: seq<byte>, pat: seq<byte>, i: nat, p: nat, caps: seq<Cap>)
    requires KindAt(pat, p) == PatEnd
    ensures Agrees(src, pat, i, p, caps, Matched(i, caps))
  {
    CanEnd(src, pat, i, p, caps, i, caps);
  }

  lemma DollarAgrees(src: seq<byte>, pat: seq<byte>, i: nat, p: nat, caps: seq<Cap>)
    requires KindAt(pat, p) == Dollar
    ensures Agrees(src, pat, i, p, caps, if i == |src| then Matched(i, caps) else Failed)
  {
    hide Can;
    forall j: nat, c: seq<Cap>
      ensures Can(src, pat, i, p, caps, j, c) <==> i == |src| && j == i && c == caps
    {
      CanDollar(src, pat, i, p, caps, j, c);
    }
  }

  lemma OpenSame(src: seq<byte>, pat: seq<byte>, i: nat, p: nat, caps: seq<Cap>)
    requires |caps| < MAXCAPTURES && (KindAt(pat, p) == Open || KindAt(pat, p) == OpenPosition)
    ensures if KindAt(pat, p) == Open then SameMatches(src, pat, i, p, caps, i, p + 1, caps + [Cap(i, CAP_UNFINISHED)])
      else SameMatches(src, pat, i, p, caps, i, p + 2, caps + [Cap(i, CAP_POSITION)])
  {
    hide Can;
    forall j: nat, c: seq<Cap> {
      CanOpen(src, pat, i, p, caps, j, c);
    }
  }

  lemma CloseSame(src: seq<byte>, pat: seq<byte>, i: nat, p: nat, caps: seq<Cap>, l: nat)
    requires KindAt(pat, p) == Close && Closes(caps, l)
    ensures SameMatches(src, pat, i, p, caps, i, p + 1, caps[l := Cap(caps[l].init, i - caps[l].init)])
  {
    hide Can;
    forall j: nat, c: seq<Cap> {
      CanClose(src, pat, i, p, caps, j, c, l);
    }
  }

  lemma BalanceAgrees(src: seq<byte>, pat: seq<byte>, i: nat, p: nat, caps: seq<Cap>)
    requires KindAt(pat, p) == Balance
    ensures Agrees(src, pat, i, p, caps, Run(src, pat, i, p, caps))
    decreases |pat| - p, 4
  {
    hide Agrees, Can, Balanced, BalanceEnd;
    if p + 3 >= |pat| {
      BadAgrees(src, pat, i, p, caps);
    } else {
      var k := BalanceEnd(src, pat[p + 2], pat[p + 3], i);
      if k.Some? {
        RunAgrees(src, pat, k.value, p + 4, caps);
        forall j: nat, c: seq<Cap> {
          CanBalance(src, pat, i, p, caps, j, c, k.value);
        }
        SameAgrees(src, pat, i, p, caps, k.value, p + 4, caps, Run(src, pat, i, p, caps));
      } else {
        forall j: nat, c: seq<Cap> {
          CannotBalance(src, pat, i, p, caps, j, c);
        }
        FailsAgrees(src, pat, i, p, caps);
      }
    }
  }

  lemma FrontierAgrees(src: seq<byte>, pat: seq<byte>, i: nat, p: nat, caps: seq<Cap>)
    requires KindAt(pat, p) == FrontierItem
    ensures Agrees(src, pat, i, p, caps, Run(src, pat, i, p, caps))
    decreases |pat| - p, 4
  {
    hide Agrees, Can, Frontier;
    if At(pat, p + 2) != '[' as int || ClassEnd(pat, p + 2).None? {
      BadAgrees(src, pat, i, p, caps);
    } else {
      var ep := ClassEnd(pat, p + 2).value;
      forall j: nat, c: seq<Cap>
        ensures Can(src, pat, i, p, caps, j, c) <==> Frontier(src, pat, i, p + 2, ep) && Can(src, pat, i, ep, caps, j, c)
      {
        CanFrontier(src, pat, i, p, caps, j, c);
      }
      if Frontier(src, pat, i, p + 2, ep) {
        RunAgrees(src, pat, i, ep, caps);
        SameAgrees(src, pat, i, p, caps, i, ep, caps, Run(src, pat, i, p, caps));
      } else {
        FailsAgrees(src, pat, i, p, caps);
      }
    }
  }

  lemma BackRefAgrees(src: seq<byte>, pat: seq<byte>, i: nat, p: nat, caps: seq<Cap>)
    requires KindAt(pat, p) == BackRef
    ensures Agrees(src, pat, i, p, caps, Run(src, pat, i, p, caps))
    decreases |pat| - p, 4
  {
    hide Agrees, Can;
    var l := At(pat, p + 1) - '1' as int;
    if !CanRefer(caps, l) {
      BadAgrees(src, pat, i, p, caps);
    } else {
      forall j: nat, c: seq<Cap>
        ensures Can(src, pat, i, p, caps, j, c) <==> Repeats(src, caps, l, i) && Can(src, pat, i + caps[l].len, p + 2, caps, j, c)
      {
        CanBackRef(src, pat, i, p, caps, j, c);
      }
      if Repeats(src, caps, l, i) {
        RunAgrees(src, pat, i + caps[l].len, p + 2, caps);
        SameAgrees(src, pat, i, p, caps, i + caps[l].len, p + 2, caps, Run(src, pat, i, p, caps));
      } else {
        FailsAgrees(src, pat, i, p, caps);
      }
    }
  }

  lemma ItemAgrees(src: seq<byte>, pat: seq<byte>, i: nat, p: nat, ep: nat, caps: seq<Cap>)
    requires KindAt(pat, p) == Item && ClassEnd(pat, p) == Some(ep)
    ensures Agrees(src, pat, i, p, caps, RunItem(src, pat, i, p, ep, caps))
    decreases |pat| - p, 4
  {
    hide Agrees, Can, Single, Run, Count, RunDown, RunUp, ClassEnd;
    var suffix, once := At(pat, ep), Single(src, pat, i, p, ep);
    if Repeating(suffix) {
      RepeatAgrees(src, pat, i, p, ep, caps);
    } else if suffix == '?' as int {
      OptionalAgrees(src, pat, i, p, ep, caps);
    } else {
      forall j: nat, c: seq<Cap>
        ensures Can(src, pat, i, p, caps, j, c) <==> once && Can(src, pat, i + 1, ep, caps, j, c)
      {
        CanSingle(src, pat, i, p, caps, j, c, ep);
      }
      if once {
        RunAgrees(src, pat, i + 1, ep, caps);
        SameAgrees(src, pat, i, p, caps, i + 1, ep, caps, Run(src, pat, i + 1, ep, caps));
      } else {
        FailsAgrees(src, pat, i, p, caps);
      }
    }
  }

  lemma OptionalAgrees(src: seq<byte>, pat: seq<byte>, i: nat, p: nat, ep: nat, caps: seq<Cap>)
    requires KindAt(pat, p) == Item && ClassEnd(pat, p) == Some(ep) && At(pat, ep) == '?' as int
    ensures Agrees(src, pat, i, p, caps, RunItem(src, pat, i, p, ep, caps))
    decreases |pat| - p, 3
  {
    hide Can, Single, Run, ClassEnd;
    RunAgrees(src, pat, i, ep + 1, caps);
    RunAgrees(src, pat, i + 1, ep + 1, caps);
    forall j: nat, c: seq<Cap>
      ensures Can(src, pat, i, p, caps, j, c) <==>
        Can(src, pat, i, ep + 1, caps, j, c) || (Single(src, pat, i, p, ep) && Can(src, pat, i + 1, ep + 1, caps, j, c))
    {
      CanOptional(src, pat, i, p, caps, j, c, ep);
    }
  }

  // ---------- repetitions ----------

  /** No match after `k` repetitions. */
  ghost predicate NoneAfter(src: seq<byte>, pat: seq<byte>, i: nat, p: nat, ep: nat, caps: seq<Cap>, k: nat) {
    forall j: nat, c: seq<Cap> :: !CanAfter(src, pat, i, p, ep, caps, j, c, k)
  }

  /** After `k` repetitions there is the match `o`, and none after more, up to `n`. */
  ghost predicate LongestAt(src: seq<byte>, pat: seq<byte>, i: nat, p: nat, ep: nat, caps: seq<Cap>, o: Outcome, k: nat, n: nat) {
    && k <= n && o.Matched? && CanAfter(src, pat, i, p, ep, caps, o.e, o.caps, k)
    && forall m: nat :: k < m <= n ==> NoneAfter(src, pat, i, p, ep, caps, m)
  }

  /** After `k` repetitions there is the match `o`, and none after fewer. */
  ghost predicate ShortestAt(src: seq<byte>, pat: seq<byte>, i: nat, p: nat, ep: nat, caps: seq<Cap>, o: Outcome, k: nat) {
    && o.Matched? && CanAfter(src, pat, i, p, ep, caps, o.e, o.caps, k)
    && forall m: nat :: m < k ==> NoneAfter(src, pat, i, p, ep, caps, m)
  }

  lemma StepAfter(src: seq<byte>, pat: seq<byte>, i: nat, p: nat, ep: nat, caps: seq<Cap>, k: nat)
    requires Agrees(src, pat, i + k, ep + 1, caps, Run(src, pat, i + k, ep + 1, caps)) && Repeated(src, pat, i, p, ep, k)
    ensures var o := Run(src, pat, i + k, ep + 1, caps);
      (o.Failed? ==> NoneAfter(src, pat, i, p, ep, caps, k)) && (o.Matched? ==> CanAfter(src, pat, i, p, ep, caps, o.e, o.caps, k))
  {
    hide Can, Single, Run;
  }

  lemma TooMany(src: seq<byte>, pat: seq<byte>, i: nat, p: nat, ep: nat, caps: seq<Cap>, n: nat, k: nat)
    requires !Single(src, pat, i + n, p, ep) && k > n
    ensures NoneAfter(src, pat, i, p, ep, caps, k)
  {
    hide Can, Single;
  }

  /** `*` and `+` take the largest number of repetitions after which the rest of the pattern matches. */
  lemma {:induction false} Longest(src: seq<byte>, pat: seq<byte>, i: nat, p: nat, ep: nat, caps: seq<Cap>, n: nat)
    requires p < ep < |pat| && Repeated(src, pat, i, p, ep, n)
    ensures var o := RunDown(src, pat, i, p, ep, caps, n);
      && (o.Failed? ==> forall m: nat :: m <= n ==> NoneAfter(src, pat, i, p, ep, caps, m))
      && (o.Matched? ==> exists k: nat :: LongestAt(src, pat, i, p, ep, caps, o, k, n))
    decreases |pat| - p, 1, n
  {
    hide Run, Single, NoneAfter, CanAfter;
    RunAgrees(src, pat, i + n, ep + 1, caps);
    StepAfter(src, pat, i, p, ep, caps, n);
    var o := Run(src, pat, i + n, ep + 1, caps);
    if o.Failed? && n > 0 {
      Longest(src, pat, i, p, ep, caps, n - 1);
      var o' := RunDown(src, pat, i, p, ep, caps, n - 1);
      if o'.Matched? {
        var k: nat :| LongestAt(src, pat, i, p, ep, caps, o', k, n - 1);
        assert LongestAt(src, pat, i, p, ep, caps, o', k, n);
      }
    } else if o.Matched? {
      assert LongestAt(src, pat, i, p, ep, caps, o, n, n);
    }
  }

  /** `-` takes the smallest one. `k` repetitions have been tried. */
  lemma {:induction false} Shortest(src: seq<byte>, pat: seq<byte>, i: nat, p: nat, ep: nat, caps: seq<Cap>, n: nat)
    requires p < ep < |pat| && Repeated(src, pat, i, p, ep, n)
    requires forall m: nat :: m < n ==> NoneAfter(src, pat, i, p, ep, caps, m)
    ensures var o := RunUp(src, pat, i + n, p, ep, caps);
      && (o.Failed? ==> forall m: nat :: NoneAfter(src, pat, i, p, ep, caps, m))
      && (o.Matched? ==> exists k: nat :: ShortestAt(src, pat, i, p, ep, caps, o, k))
    decreases |pat| - p, 1, |src| - i - n
  {
    hide Run, NoneAfter, CanAfter;
    RunAgrees(src, pat, i + n, ep + 1, caps);
    StepAfter(src, pat, i, p, ep, caps, n);
    var o := Run(src, pat, i + n, ep + 1, caps);
    if o.Matched? {
      assert ShortestAt(src, pat, i, p, ep, caps, o, n);
    } else if o.Failed? {
      if Single(src, pat, i + n, p, ep) {
        Shortest(src, pat, i, p, ep, caps, n + 1);
      } else {
        forall m: nat | m > n
          ensures NoneAfter(src, pat, i, p, ep, caps, m)
        {
          TooMany(src, pat, i, p, ep, caps, n, m);
        }
      }
    }
    hide Single;
  }

  lemma RepeatAgrees(src: seq<byte>, pat: seq<byte>, i: nat, p: nat, ep: nat, caps: seq<Cap>)
    requires KindAt(pat, p) == Item && ClassEnd(pat, p) == Some(ep) && Repeating(At(pat, ep))
    ensures Agrees(src, pat, i, p, caps, RunItem(src, pat, i, p, ep, caps))
    decreases |pat| - p, 3
  {
    hide Can, Single, Run, RunUp, RunDown, CanAfter, ClassEnd, Agrees, Count;
    var suffix := At(pat, ep);
    if !Single(src, pat, i, p, ep) {
      NotOnce(src, pat, i, p, ep, caps);
    } else if suffix == '-' as int {
      Shortest(src, pat, i, p, ep, caps, 0);
      var o := RunUp(src, pat, i, p, ep, caps);
      if o.Matched? {
        var k: nat :| ShortestAt(src, pat, i, p, ep, caps, o, k);
        RepeatFound(src, pat, i, p, ep, caps, k, o);
      } else if o.Failed? {
        RepeatFails(src, pat, i, p, ep, caps);
      } else {
        BadAgrees(src, pat, i, p, caps);
      }
    } else {
      DownAgrees(src, pat, i, p, ep, caps);
    }
  }

  /** `*` counts repetitions from the first one, `+` from the second. */
  lemma DownAgrees(src: seq<byte>, pat: seq<byte>, i: nat, p: nat, ep: nat, caps: seq<Cap>)
    requires KindAt(pat, p) == Item && ClassEnd(pat, p) == Some(ep) && Repeating(At(pat, ep)) && At(pat, ep) != '-' as int
    requires Single(src, pat, i, p, ep)
    ensures Agrees(src, pat, i, p, caps, RunItem(src, pat, i, p, ep, caps))
    decreases |pat| - p, 2
  {
    hide Can, Single, Run, RunDown, CanAfter, NoneAfter, ClassEnd, Agrees, KindAt;
    var least := Least(At(pat, ep));
    var n := Count(src, pat, i + least, p, ep);
    Longest(src, pat, i + least, p, ep, caps, n);
    var o := RunDown(src, pat, i + least, p, ep, caps, n);
    assert o == RunItem(src, pat, i, p, ep, caps);
    if o.Matched? {
      var k: nat :| LongestAt(src, pat, i + least, p, ep, caps, o, k, n);
      Shifted(src, pat, i, p, ep, caps, o.e, o.caps, k, least);
      RepeatFound(src, pat, i, p, ep, caps, k + least, o);
    } else if o.Failed? {
      forall k: nat | k >= least
        ensures NoneAfter(src, pat, i, p, ep, caps, k)
      {
        if k - least > n {
          TooMany(src, pat, i + least, p, ep, caps, n, k - least);
        }
        NoneShifted(src, pat, i, p, ep, caps, k - least, least);
      }
      RepeatFails(src, pat, i, p, ep, caps);
    } else {
      BadAgrees(src, pat, i, p, caps);
    }
  }

  lemma Shifted(src: seq<byte>, pat: seq<byte>, i: nat, p: nat, ep: nat, caps: seq<Cap>, j: nat, c: seq<Cap>, k: nat, least: nat)
    requires Single(src, pat, i, p, ep) && least <= 1
    ensures CanAfter(src, pat, i + least, p, ep, caps, j, c, k) <==> CanAfter(src, pat, i, p, ep, caps, j, c, k + least)
  {
    hide Can, Single;
  }

  lemma NoneShifted(src: seq<byte>, pat: seq<byte>, i: nat, p: nat, ep: nat, caps: seq<Cap>, k: nat, least: nat)
    requires Single(src, pat, i, p, ep) && least <= 1 && NoneAfter(src, pat, i + least, p, ep, caps, k)
    ensures NoneAfter(src, pat, i, p, ep, caps, k + least)
  {
    hide Single, CanAfter;
    var m := k + least;
    forall j: nat, c: seq<Cap>
      ensures !CanAfter(src, pat, i, p, ep, caps, j, c, m)
    {
      Shifted(src, pat, i, p, ep, caps, j, c, k, least);
    }
  }

  lemma RepeatFound(src: seq<byte>, pat: seq<byte>, i: nat, p: nat, ep: nat, caps: seq<Cap>, k: nat, o: Outcome)
    requires KindAt(pat, p) == Item && ClassEnd(pat, p) == Some(ep) && Repeating(At(pat, ep)) && k >= Least(At(pat, ep))
    requires o.Matched? && CanAfter(src, pat, i, p, ep, caps, o.e, o.caps, k)
    ensures Agrees(src, pat, i, p, caps, o)
  {
    hide Can, CanAfter;
    CanRepeat(src, pat, i, p, caps, o.e, o.caps, ep);
  }

  lemma RepeatFails(src: seq<byte>, pat: seq<byte>, i: nat, p: nat, ep: nat, caps: seq<Cap>)
    requires KindAt(pat, p) == Item && ClassEnd(pat, p) == Some(ep) && Repeating(At(pat, ep))
    requires forall k: nat :: k >= Least(At(pat, ep)) ==> NoneAfter(src, pat, i, p, ep, caps, k)
    ensures Agrees(src, pat, i, p, caps, Failed)
  {
    hide Can, CanAfter;
    forall j: nat, c: seq<Cap>
      ensures !Can(src, pat, i, p, caps, j, c)
    {
      CanRepeat(src, pat, i, p, caps, j, c, ep);
      forall k: nat | k >= Least(At(pat, ep))
        ensures !CanAfter(src, pat, i, p, ep, caps, j, c, k)
      {
        assert NoneAfter(src, pat, i, p, ep, caps, k);
      }
    }
  }

  lemma NotOnce(src: seq<byte>, pat: seq<byte>, i: nat, p: nat, ep: nat, caps: seq<Cap>)
    requires KindAt(pat, p) == Item && ClassEnd(pat, p) == Some(ep) && Repeating(At(pat, ep)) && !Single(src, pat, i, p, ep)
    ensures Agrees(src, pat, i, p, caps, RunItem(src, pat, i, p, ep, caps))
    decreases |pat| - p, 2
  {
    hide Can, Single, Run, ClassEnd, CanAfter, Agrees, KindAt;
    forall k: nat | k > 0
      ensures NoneAfter(src, pat, i, p, ep, caps, k)
    {
      TooMany(src, pat, i, p, ep, caps, 0, k);
    }
    if At(pat, ep) == '+' as int {
      RepeatFails(src, pat, i, p, ep, caps);
    } else {
      var o := Run(src, pat, i, ep + 1, caps);
      RunAgrees(src, pat, i, ep + 1, caps);
      StepAfter(src, pat, i, p, ep, caps, 0);
      if o.Matched? {
        RepeatFound(src, pat, i, p, ep, caps, 0, o);
      } else if o.Failed? {
        RepeatFails(src, pat, i, p, ep, caps);
      } else {
        BadAgrees(src, pat, i, p, caps);
      }
    }
  }
}
