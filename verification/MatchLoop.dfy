/** The backtracking pattern matcher. */
module MatchLoop {
  import opened Bytes
  import opened MatchPattern
  import opened MatchRun
  import opened Wrappers

  const MAXCCALLS: int := 200

  const TOO_COMPLEX := "pattern too complex"
  const MAX_SIZET: nat := 0xffff_ffff_ffff_ffff

  /** `prepstate`: how often single characters may be matched. */
  function Repetitions(subject: nat): nat {
    if subject < (MAX_SIZET - 100000) / 4 then 4 * subject + 100000 else MAX_SIZET
  }

  datatype Result = Found(e: nat) | NoMatch | Error(msg: string)

  /** What an item leads to: the end of `match`, or another turn of it. */
  datatype Next = Stop(r: Result) | GoOn(s: nat, p: nat)

  /** Captures lie inside the subject, and unfinished ones start at `s` or before. */
  ghost predicate CapsOk(src: seq<byte>, caps: seq<Cap>, s: nat) {
    && s <= |src| && |caps| <= MAXCAPTURES
    && forall i :: 0 <= i < |caps| ==>
      && caps[i].init <= s && caps[i].len >= CAP_POSITION
      && caps[i].init + caps[i].len <= s
  }

  class MatchState {
    const src: seq<byte>
    const pat: seq<byte>
    const capture: array<Cap>
    var nrep: nat
    var matchdepth: int
    var level: nat

    /** `prepstate`. */
    constructor (src: seq<byte>, pat: seq<byte>)
      ensures this.src == src && this.pat == pat && fresh(capture) && capture.Length == MAXCAPTURES
      ensures level == 0 && matchdepth == MAXCCALLS && nrep == Repetitions(|src|)
    {
      this.src, this.pat := src, pat;
      capture := new Cap[MAXCAPTURES](_ => Cap(0, 0));
      nrep, matchdepth, level := Repetitions(|src|), MAXCCALLS, 0;
    }

    ghost predicate Valid()
      reads this, capture
    {
      capture.Length == MAXCAPTURES && level <= MAXCAPTURES && matchdepth >= 0
    }

    ghost function Caps(): seq<Cap>
      reads this, capture
      requires Valid()
    {
      capture[..level]
    }

    // ---------- single characters ----------

    /** `classend`; `None` stands for its errors. */
    method FindClassEnd(p0: nat) returns (r: Option<nat>)
      requires p0 < |pat|
      ensures r == ClassEnd(pat, p0)
    {
      var p := p0 + 1;
      if pat[p0] == ESC {
        return if p == |pat| then None else Some(p + 1);
      } else if pat[p0] == '[' as int {
        if At(pat, p) == '^' as int {
          p := p + 1;
        }
        while true
          invariant p <= |pat| + 1 && ClassEnd(pat, p0) == SetEnd(pat, p)
          decreases |pat| + 1 - p
        {
          if p >= |pat| {
            return None;
          }
          p := p + 1;
          if pat[p - 1] == ESC && p < |pat| {
            p := p + 1;
          }
          if At(pat, p) == ']' as int {
            return Some(p + 1);
          }
        }
      } else {
        return Some(p);
      }
    }

    /** `matchbracketclass`. */
    method MatchBracketClass(c: byte, p0: nat, ec: nat) returns (b: bool)
      requires p0 < ec
      ensures b == InSet(pat, c, p0, ec)
    {
      var sig, p := true, p0;
      if At(pat, p + 1) == '^' as int {
        sig, p := false, p + 1;
      }
      p := p + 1;
      while p < ec
        invariant InSet(pat, c, p0, ec) == (InItems(pat, c, p, ec) == sig)
        decreases ec - p
      {
        if At(pat, p) == ESC {
          p := p + 1;
          if MatchClass(c, At(pat, p)) {
            return sig;
          }
        } else if At(pat, p + 1) == '-' as int && p + 2 < ec {
          p := p + 2;
          if At(pat, p - 2) <= c <= At(pat, p) {
            return sig;
          }
        } else if At(pat, p) == c {
          return sig;
        }
        p := p + 1;
      }
      return !sig;
    }

    /** `singlematch`. */
    method SingleMatch(s: nat, p: nat, ep: nat) returns (b: bool)
      requires p < ep <= |pat| && ClassEnd(pat, p) == Some(ep)
      ensures b == Single(src, pat, s, p, ep)
    {
      if s >= |src| {
        return false;
      }
      var c := src[s];
      if pat[p] == '.' as int {
        return true;
      } else if pat[p] == ESC {
        return MatchClass(c, At(pat, p + 1));
      } else if pat[p] == '[' as int {
        b := MatchBracketClass(c, p, ep - 1);
      } else {
        return pat[p] == c;
      }
    }

    /** `matchbalance`, after the check of the pattern. */
    method MatchBalance(s0: nat, p: nat) returns (r: Option<nat>)
      requires p + 1 < |pat| && s0 <= |src|
      ensures match r
        case Some(k) => Balanced(src, pat[p], pat[p + 1], s0, k)
        case None => NotBalanced(src, pat[p], pat[p + 1], s0)
    {
      if At(src, s0) != pat[p] {
        return None;
      }
      var b, e, cont := pat[p], pat[p + 1], 1;
      var s := s0 + 1;
      while s < |src|
        invariant s0 < s <= |src| + 1 && (s == |src| + 1 ==> s0 == |src|)
        invariant s0 < |src| ==> cont == Depth(src, b, e, s0, s) && forall m :: s0 < m <= s ==> Depth(src, b, e, s0, m) > 0
      {
        if src[s] == e {
          cont := cont - 1;
          if cont == 0 {
            return Some(s + 1);
          }
        } else if src[s] == b {
          cont := cont + 1;
        }
        s := s + 1;
      }
      return None;
    }

    // ---------- the matcher ----------

    /** The result is that of the pattern, unless the matcher has run out of depth or of repetitions. */
    ghost predicate Gives(r: Result, o: Outcome)
      reads this, capture
      requires r.Found? ==> Valid()
    {
      match r
      case Found(e) => o == Matched(e, Caps())
      case NoMatch => o == Failed
      case Error(msg) => msg == TOO_COMPLEX || o == Bad(msg)
    }

    /** What every part of the matcher keeps: the depth, and the captures if there is no match. It takes `work` from
        the repetitions left, and ends with an error of its own only if these do not suffice, or if the pattern has more
        items from `p` on than the depth allows for. */
    twostate predicate Ended(r: Result, s: nat, p: nat, work: nat)
      reads this, capture
      requires old(Valid())
    {
      && (r == Error(TOO_COMPLEX) ==> work > old(nrep) || old(matchdepth) <= |pat| - p)
      && (r != Error(TOO_COMPLEX) ==> work + nrep == old(nrep))
      && (!r.Error? ==>
        && Valid() && matchdepth == old(matchdepth)
        && (r.NoMatch? ==> Caps() == old(Caps()))
        && (r.Found? ==> s <= r.e <= |src| && CapsOk(src, Caps(), r.e)))
    }

    /** `max_expand`: as many repetitions as there are, then one less at a time. */
    method MaxExpand(s: nat, p: nat, ep: nat) returns (r: Result)
      requires Valid() && CapsOk(src, Caps(), s) && p < ep < |pat| && ClassEnd(pat, p) == Some(ep)
      modifies this, capture
      ensures Ended(r, s, ep + 1, WorkDown(src, pat, s, p, ep, old(Caps()), Count(src, pat, s, p, ep)))
      ensures Gives(r, RunDown(src, pat, s, p, ep, old(Caps()), Count(src, pat, s, p, ep)))
      decreases matchdepth, 1
    {
      hide Single, ClassEnd, Run, Work;
      ghost var caps := Caps();
      var i := 0;
      var b := SingleMatch(s, p, ep);
      while b
        invariant 0 <= i && s + i <= |src| && Count(src, pat, s, p, ep) == i + Count(src, pat, s + i, p, ep) && b == Single(src, pat, s + i, p, ep)
        invariant Valid() && Caps() == caps && matchdepth == old(matchdepth) && nrep == old(nrep)
        decreases |src| - s - i
      {
        SingleInside(src, pat, s + i, p, ep);
        i := i + 1;
        b := SingleMatch(s + i, p, ep);
      }
      ghost var n := i;
      while i >= 0
        invariant -1 <= i <= n && s + n <= |src|
        invariant Valid() && Caps() == caps && matchdepth == old(matchdepth)
        invariant RunDown(src, pat, s, p, ep, caps, n) == if i >= 0 then RunDown(src, pat, s, p, ep, caps, i) else Failed
        invariant nrep + WorkDown(src, pat, s, p, ep, caps, n) == old(nrep) + if i >= 0 then WorkDown(src, pat, s, p, ep, caps, i) else 0
        decreases i
      {
        CapsMore(src, caps, s, s + i);
        r := Match(s + i, ep + 1);
        if !r.NoMatch? {
          return;
        }
        i := i - 1;
      }
      return NoMatch;
    }

    /** `min_expand`: no repetition, then one more at a time. */
    method MinExpand(s0: nat, p: nat, ep: nat) returns (r: Result)
      requires Valid() && CapsOk(src, Caps(), s0) && p < ep < |pat| && ClassEnd(pat, p) == Some(ep)
      modifies this, capture
      ensures Ended(r, s0, ep + 1, WorkUp(src, pat, s0, p, ep, old(Caps()))) && Gives(r, RunUp(src, pat, s0, p, ep, old(Caps())))
      decreases matchdepth, 1
    {
      hide Single, ClassEnd, Run, Work;
      ghost var caps := Caps();
      var s := s0;
      while true
        invariant s0 <= s <= |src| && RunUp(src, pat, s0, p, ep, caps) == RunUp(src, pat, s, p, ep, caps)
        invariant nrep + WorkUp(src, pat, s0, p, ep, caps) == old(nrep) + WorkUp(src, pat, s, p, ep, caps)
        invariant Valid() && Caps() == caps && matchdepth == old(matchdepth)
        decreases |src| - s
      {
        CapsMore(src, caps, s0, s);
        r := Match(s, ep + 1);
        if !r.NoMatch? {
          return;
        }
        var b := SingleMatch(s, p, ep);
        if !b {
          return NoMatch;
        }
        SingleInside(src, pat, s, p, ep);
        s := s + 1;
      }
    }

    /** `start_capture`. */
    method StartCapture(s: nat, p: nat, what: int) returns (r: Result)
      requires Valid() && CapsOk(src, Caps(), s) && p <= |pat| && (what == CAP_UNFINISHED || what == CAP_POSITION)
      modifies this, capture
      ensures Ended(r, s, p, if |old(Caps())| >= MAXCAPTURES then 0 else Work(src, pat, s, p, old(Caps()) + [Cap(s, what)]))
      ensures Gives(r, if |old(Caps())| >= MAXCAPTURES then Bad("too many captures") else Run(src, pat, s, p, old(Caps()) + [Cap(s, what)]))
      decreases matchdepth, 1
    {
      hide Run, Work;
      if level >= MAXCAPTURES {
        return Error("too many captures");
      }
      ghost var caps := Caps();
      capture[level] := Cap(s, what);
      level := level + 1;
      assert Caps() == caps + [Cap(s, what)];
      r := Match(s, p);
      if r.NoMatch? {
        level := level - 1;
        assert Caps() == caps;
      }
    }

    /** `end_capture`. */
    method EndCapture(s: nat, p: nat) returns (r: Result)
      requires Valid() && CapsOk(src, Caps(), s) && p <= |pat|
      modifies this, capture
      ensures var c := old(Caps()); var l := Closing(c);
        Ended(r, s, p, if l < 0 then 0 else Work(src, pat, s, p, c[l := Cap(c[l].init, s - c[l].init)]))
      ensures var c := old(Caps()); var l := Closing(c);
        Gives(r, if l < 0 then Bad("invalid pattern capture") else Run(src, pat, s, p, c[l := Cap(c[l].init, s - c[l].init)]))
      decreases matchdepth, 1
    {
      hide Run, Work, Closing;
      ghost var caps := Caps();
      var l := level - 1;
      while l >= 0 && capture[l].len != CAP_UNFINISHED
        invariant -1 <= l < level && forall m :: l < m < level ==> capture[m].len != CAP_UNFINISHED
      {
        l := l - 1;
      }
      ClosingIs(caps, l);
      if l < 0 {
        return Error("invalid pattern capture");
      }
      capture[l] := Cap(capture[l].init, s - capture[l].init);
      assert Caps() == caps[l := Cap(caps[l].init, s - caps[l].init)];
      r := Match(s, p);
      if r.NoMatch? {
        assert capture[l] == Caps()[l];
        capture[l] := Cap(capture[l].init, CAP_UNFINISHED);
        assert Caps() == caps;
      }
    }

    /** `match_capture`: `None` for the error "invalid capture index". */
    method MatchCapture(s: nat, l: int) returns (r: Option<Option<nat>>)
      requires Valid() && CapsOk(src, Caps(), s)
      ensures r.None? <==> !CanRefer(Caps(), l)
      ensures r.Some? && r.value.Some? ==> Repeats(src, Caps(), l, s) && r.value.value == s + Caps()[l].len <= |src|
      ensures r.Some? && r.value.None? ==> !Repeats(src, Caps(), l, s)
    {
      if l < 0 || l >= level || capture[l].len == CAP_UNFINISHED {
        return None;
      }
      var c := capture[l];
      assert c == Caps()[l];
      // The length of a position capture, as an unsigned number, exceeds what is left of the subject.
      if c.len >= 0 && |src| - s >= c.len && src[c.init..c.init + c.len] == src[s..s + c.len] {
        return Some(Some(s + c.len));
      }
      return Some(None);
    }

    /** The escapes of `match` that are no character classes: balanced text, frontiers, back references. */
    method MatchEscape(s: nat, p: nat) returns (n: Next)
      requires Valid() && CapsOk(src, Caps(), s) && p < |pat|
      requires KindAt(pat, p) == Balance || KindAt(pat, p) == FrontierItem || KindAt(pat, p) == BackRef
      ensures n.Stop? ==> !n.r.Found? && Gives(n.r, Run(src, pat, s, p, Caps())) && n.r != Error(TOO_COMPLEX) && Work(src, pat, s, p, Caps()) == 0
      ensures n.GoOn? ==> s <= n.s <= |src| && p < n.p <= |pat| && Run(src, pat, s, p, Caps()) == Run(src, pat, n.s, n.p, Caps())
      ensures n.GoOn? ==> Work(src, pat, s, p, Caps()) == Work(src, pat, n.s, n.p, Caps())
    {
      hide ClassEnd, Balanced, InSet, Repeats, BalanceEnd, RunItem, WorkItem;
      if At(pat, p + 1) == 'b' as int {
        if p + 3 >= |pat| {
          return Stop(Error("malformed pattern (missing arguments to '%b')"));
        }
        var k := MatchBalance(s, p + 2);
        BalanceEndIs(src, pat[p + 2], pat[p + 3], s, k);
        return if k.None? then Stop(NoMatch) else GoOn(k.value, p + 4);
      } else if At(pat, p + 1) == 'f' as int {
        if At(pat, p + 2) != '[' as int {
          return Stop(Error("missing '[' after '%f' in pattern"));
        }
        var ep := FindClassEnd(p + 2);
        if ep.None? {
          return Stop(Error(ClassError(pat, p + 2)));
        }
        var previous: byte := if s == 0 then 0 else At(src, s - 1);
        SetAfter(pat, p + 2);
        var before := MatchBracketClass(previous, p + 2, ep.value - 1);
        var after := MatchBracketClass(At(src, s), p + 2, ep.value - 1);
        return if before || !after then Stop(NoMatch) else GoOn(s, ep.value);
      } else {
        var t := MatchCapture(s, At(pat, p + 1) - '1' as int);
        if t.None? {
          return Stop(Error(CaptureError(pat[p + 1])));
        }
        if t.value.None? {
          return Stop(NoMatch);
        }
        RepeatsInside(src, Caps(), At(pat, p + 1) - '1' as int, s);
        return GoOn(t.value.value, p + 2);
      }
    }

    /** The default case of `match`: a single-character item with an optional suffix. */
    method MatchItem(s: nat, p: nat) returns (n: Next)
      requires Valid() && CapsOk(src, Caps(), s) && p < |pat| && KindAt(pat, p) == Item
      modifies this, capture
      ensures n.Stop? ==> Ended(n.r, s, p + 1, Work(src, pat, s, p, old(Caps()))) && Gives(n.r, Run(src, pat, s, p, old(Caps())))
      ensures n.GoOn? ==> Valid() && Caps() == old(Caps()) && matchdepth == old(matchdepth)
      ensures n.GoOn? ==> s <= n.s <= |src| && p < n.p <= |pat| && Run(src, pat, s, p, old(Caps())) == Run(src, pat, n.s, n.p, old(Caps()))
      ensures n.GoOn? ==> nrep + Work(src, pat, s, p, old(Caps())) == old(nrep) + Work(src, pat, n.s, n.p, old(Caps()))
      decreases matchdepth, 2
    {
      hide Single, ClassEnd, KindAt, Run, RunDown, RunUp, Count, Work, WorkDown, WorkUp;
      ghost var caps := Caps();
      ItemRun(src, pat, s, p, caps);
      var end := FindClassEnd(p);
      if end.None? {
        return Stop(Error(ClassError(pat, p)));
      }
      var ep := end.value;
      EndAfter(pat, p);
      var once := SingleMatch(s, p, ep);
      var suffix := At(pat, ep);
      if !once {
        return if suffix == '*' as int || suffix == '?' as int || suffix == '-' as int then GoOn(s, ep + 1) else Stop(NoMatch);
      }
      if nrep == 0 {
        return Stop(Error(TOO_COMPLEX));
      }
      nrep := nrep - 1;
      SingleInside(src, pat, s, p, ep);
      CapsMore(src, caps, s, s + 1);
      var r := NoMatch;
      if suffix == '?' as int {
        r := Match(s + 1, ep + 1);
        return if r.NoMatch? then GoOn(s, ep + 1) else Stop(r);
      } else if suffix == '+' as int {
        r := MaxExpand(s + 1, p, ep);
        return Stop(r);
      } else if suffix == '*' as int {
        r := MaxExpand(s, p, ep);
        return Stop(r);
      } else if suffix == '-' as int {
        r := MinExpand(s, p, ep);
        return Stop(r);
      }
      return GoOn(s + 1, ep);
    }

    /** `match`: the match that the pattern prefers, no match when there is none, or the error of the pattern. */
    method Match(s0: nat, p0: nat) returns (r: Result)
      requires Valid() && CapsOk(src, Caps(), s0) && p0 <= |pat|
      modifies this, capture
      ensures Ended(r, s0, p0, Work(src, pat, s0, p0, old(Caps()))) && Gives(r, Run(src, pat, s0, p0, old(Caps())))
      decreases matchdepth, 0
    {
      hide Run, Work, Closing;
      ghost var caps := Caps();
      if matchdepth == 0 {
        return Error(TOO_COMPLEX);
      }
      matchdepth := matchdepth - 1;
      var s, p := s0, p0;
      while true
        invariant Valid() && Caps() == caps && matchdepth == old(matchdepth) - 1
        invariant s0 <= s <= |src| && p0 <= p <= |pat| && CapsOk(src, caps, s)
        invariant Run(src, pat, s0, p0, caps) == Run(src, pat, s, p, caps)
        invariant nrep + Work(src, pat, s0, p0, caps) == old(nrep) + Work(src, pat, s, p, caps)
        decreases |pat| - p
      {
        OtherRun(src, pat, s, p, caps);
        if p == |pat| {
          r := Found(s);
          break;
        }
        if pat[p] == '(' as int {
          if At(pat, p + 1) == ')' as int {
            r := StartCapture(s, p + 2, CAP_POSITION);
          } else {
            r := StartCapture(s, p + 1, CAP_UNFINISHED);
          }
          if r.Error? {
            return;
          }
          break;
        } else if pat[p] == ')' as int {
          r := EndCapture(s, p + 1);
          if r.Error? {
            return;
          }
          break;
        } else if pat[p] == '$' as int && p + 1 == |pat| {
          r := if s == |src| then Found(s) else NoMatch;
          break;
        } else {
          var n;
          if KindAt(pat, p) == Item {
            n := MatchItem(s, p);
          } else {
            n := MatchEscape(s, p);
          }
          if n.Stop? {
            r := n.r;
            if r.Error? {
              return;
            }
            break;
          }
          CapsMore(src, caps, s, n.s);
          s, p := n.s, n.p;
        }
      }
      matchdepth := matchdepth + 1;
    }
  }

  lemma SingleInside(src: seq<byte>, pat: seq<byte>, s: nat, p: nat, ep: nat)
    requires Single(src, pat, s, p, ep)
    ensures s < |src|
  {
  }

  lemma CapsMore(src: seq<byte>, caps: seq<Cap>, s: nat, t: nat)
    requires CapsOk(src, caps, s) && s <= t <= |src|
    ensures CapsOk(src, caps, t)
  {
  }

  lemma ClosingIs(caps: seq<Cap>, l: int)
    requires -1 <= l < |caps| && (l >= 0 ==> caps[l].len == CAP_UNFINISHED) && forall m :: l < m < |caps| ==> caps[m].len != CAP_UNFINISHED
    ensures Closing(caps) == l
  {
    if l >= 0 {
      assert Closes(caps, l);
    }
  }

  lemma BalanceEndIs(src: seq<byte>, x: byte, y: byte, i: nat, k: Option<nat>)
    requires match k case Some(e) => Balanced(src, x, y, i, e) case None => NotBalanced(src, x, y, i)
    ensures BalanceEnd(src, x, y, i) == k && (k.Some? ==> i < k.value <= |src|)
  {
    if k.Some? {
      BalancedOnce(src, x, y, i, k.value, BalanceEnd(src, x, y, i).value);
    }
  }

  lemma SetAfter(pat: seq<byte>, p: nat)
    requires p < |pat| && pat[p] == '[' as int && ClassEnd(pat, p).Some?
    ensures p + 1 < ClassEnd(pat, p).value <= |pat|
  {
  }

  lemma EndAfter(pat: seq<byte>, p: nat)
    requires p < |pat| && ClassEnd(pat, p).Some?
    ensures p < ClassEnd(pat, p).value <= |pat|
  {
  }

  lemma RepeatsInside(src: seq<byte>, caps: seq<Cap>, l: int, i: nat)
    requires Repeats(src, caps, l, i)
    ensures caps[l].len >= 0 && i + caps[l].len <= |src|
  {
  }

  /** The cases of a pattern that are no items and no escapes. */
  lemma OtherRun(src: seq<byte>, pat: seq<byte>, i: nat, p: nat, caps: seq<Cap>)
    ensures var r, w := Run(src, pat, i, p, caps), Work(src, pat, i, p, caps);
      match KindAt(pat, p)
      case PatEnd => r == Matched(i, caps) && w == 0
      case Open =>
        if |caps| >= MAXCAPTURES then r == Bad("too many captures") && w == 0
        else var c := caps + [Cap(i, CAP_UNFINISHED)]; r == Run(src, pat, i, p + 1, c) && w == Work(src, pat, i, p + 1, c)
      case OpenPosition =>
        if |caps| >= MAXCAPTURES then r == Bad("too many captures") && w == 0
        else var c := caps + [Cap(i, CAP_POSITION)]; r == Run(src, pat, i, p + 2, c) && w == Work(src, pat, i, p + 2, c)
      case Close =>
        var l := Closing(caps);
        if l < 0 then r == Bad("invalid pattern capture") && w == 0
        else var c := caps[l := Cap(caps[l].init, i - caps[l].init)]; r == Run(src, pat, i, p + 1, c) && w == Work(src, pat, i, p + 1, c)
      case Dollar => r == (if i == |src| then Matched(i, caps) else Failed) && w == 0
      case _ => true
  {
    hide RunItem, WorkItem;
  }

  lemma ItemRun(src: seq<byte>, pat: seq<byte>, i: nat, p: nat, caps: seq<Cap>)
    requires KindAt(pat, p) == Item && p < |pat|
    ensures Run(src, pat, i, p, caps) == if ClassEnd(pat, p).None? then Bad(ClassError(pat, p)) else RunItem(src, pat, i, p, ClassEnd(pat, p).value, caps)
    ensures Work(src, pat, i, p, caps) == if ClassEnd(pat, p).None? then 0 else WorkItem(src, pat, i, p, ClassEnd(pat, p).value, caps)
  {
    hide RunItem, WorkItem;
  }
}
