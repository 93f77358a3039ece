/** Where `string.unpack` stops: zero-terminated strings that the end of the data cuts off. */
module PackEnds {
  import opened Bytes
  import opened Sequences
  import opened PackInts
  import opened PackFormat
  import opened PackFields
  import opened PackRoundTrip
  import opened PackStrings

  predicate HasZero(data: seq<byte>, p: nat) {
    exists k :: p <= k < |data| && data[k] == 0
  }

  /** A string that starts at `p` has no zero to end it, and `unpack` takes what is left of the data for it. With
      2^31 bytes left it does not: their number goes through `int`. */
  predicate CutOff(data: seq<byte>, p: nat) {
    p <= |data| < p + TWO31 && !HasZero(data, p)
  }

  // ---------- one option ----------

  lemma {:induction false} StrlenZero(data: seq<byte>, p: nat)
    requires p <= |data|
    ensures p + Strlen(data, p) == |data| <==> !HasZero(data, p)
    decreases |data| - p
  {
    if p < |data| && data[p] != 0 {
      StrlenZero(data, p + 1);
      assert HasZero(data, p) <==> HasZero(data, p + 1);
    }
  }

  /** A zero-terminated string that is read ends inside the data, its zero included, if and only if it is not
      cut off; otherwise it ends one byte after the data. */
  lemma ZeroTermEnd(pl: Platform, islittle: bool, data: seq<byte>, p: nat)
    requires p <= |data| < MAXSTRING
    ensures var r := Extracted(pl, Kzstr, 0, islittle, data, p);
      && (|data| < p + TWO31 ==> r.Ok?)
      && (r.Ok? ==> p < r.value.1 <= |data| + 1 && (r.value.1 <= |data| <==> !CutOff(data, p)))
  {
    hide Strlen, HasZero, ThroughInt;
    var n := Strlen(data, p);
    StrlenZero(data, p);
    ThroughIntIs(n);
    ThroughIntFits(n);
  }

  lemma ThroughIntFits(n: nat)
    requires n < MAXSTRING
    ensures ThroughInt(n) < MAXSTRING ==> ThroughInt(n) <= n && ThroughInt(n) < TWO31
  {
  }

  /** All other options end inside the data. */
  lemma OthersEnd(pl: Platform, k: Kind, size: nat, islittle: bool, data: seq<byte>, p: nat)
    requires k != Kzstr && SizeOk(k, size) && p + size <= |data| < MAXSTRING
    ensures var r := Extracted(pl, k, size, islittle, data, p); r.Ok? ==> p <= r.value.1 <= |data|
  {
    hide IntOf, Order, Unsigned;
    if k == Kstring && IntOf(Order(data[p..p + size], islittle), false).Ok? {
      var len := Unsigned(IntOf(Order(data[p..p + size], islittle), false).value);
      if len < MAXSTRING {
        CountInside(data, p, size, len);
      }
    }
  }

  // ---------- whole formats ----------

  /** The options that are read, each with the place in the data where it starts. */
  function Starts(pl: Platform, h: Header, fmt: seq<byte>, i: nat, data: seq<byte>, pos: nat): seq<(Kind, nat)>
    requires |data| < MAXSTRING
    decreases |fmt| - i
  {
    if Char(fmt, i) == 0 then []
    else
      var d := DetailsAt(h, pos, fmt, i, pl.little);
      if d.Err? || pos + d.value.ntoalign + d.value.size > |data| then []
      else
        var p := pos + d.value.ntoalign;
        var u := Extracted(pl, d.value.kind, d.value.size, d.value.head.islittle, data, p);
        [(d.value.kind, p)] + if u.Err? then [] else Starts(pl, d.value.head, fmt, d.value.next, data, u.value.1)
  }

  predicate IsCut(data: seq<byte>, s: (Kind, nat)) {
    s.0 == Kzstr && CutOff(data, s.1)
  }

  predicate SomeCut(data: seq<byte>, ss: seq<(Kind, nat)>) {
    exists k :: 0 <= k < |ss| && IsCut(data, ss[k])
  }

  /** One byte after the end no option is read, not even one that reads nothing. */
  lemma NothingAfterEnd(pl: Platform, h: Header, fmt: seq<byte>, i: nat, data: seq<byte>)
    requires |data| < MAXSTRING && Char(fmt, i) != 0
    ensures UnpackFrom(pl, h, fmt, i, data, |data| + 1).Err?
    ensures DetailsAt(h, |data| + 1, fmt, i, pl.little).Ok? ==> UnpackFrom(pl, h, fmt, i, data, |data| + 1) == Err("data string too short")
  {
    hide DetailsAt, Extracted;
  }

  lemma OptionEnd(pl: Platform, d: Details, data: seq<byte>, p: nat)
    requires SizeOk(d.kind, d.size) && p + d.size <= |data| < MAXSTRING
    ensures var r := Extracted(pl, d.kind, d.size, d.head.islittle, data, p);
      r.Ok? ==> p <= r.value.1 <= |data| + 1 && (r.value.1 == |data| + 1 <==> IsCut(data, (d.kind, p)))
  {
    hide Extracted, CutOff;
    if d.kind == Kzstr {
      ZeroTermEnd(pl, d.head.islittle, data, p);
    } else {
      OthersEnd(pl, d.kind, d.size, d.head.islittle, data, p);
    }
  }

  /** Unpacking ends inside the data if and only if no string that it reads is cut off. Otherwise it ends one
      byte after the data, and the string cut off is the last thing that the format asks for. */
  lemma {:induction false} UnpackEnds(pl: Platform, h: Header, fmt: seq<byte>, i: nat, data: seq<byte>, pos: nat)
    requires |data| < MAXSTRING && pos <= |data| && UnpackFrom(pl, h, fmt, i, data, pos).Ok?
    ensures var q, ss := UnpackFrom(pl, h, fmt, i, data, pos).value.1, Starts(pl, h, fmt, i, data, pos);
      && pos <= q <= |data| + 1
      && (q <= |data| <==> !SomeCut(data, ss))
      && forall k :: 0 <= k < |ss| && IsCut(data, ss[k]) ==> k == |ss| - 1
    decreases |fmt| - i
  {
    hide DetailsAt, Extracted, IsCut;
    if Char(fmt, i) != 0 {
      var d := DetailsAt(h, pos, fmt, i, pl.little).value;
      var p := pos + d.ntoalign;
      var u := Extracted(pl, d.kind, d.size, d.head.islittle, data, p).value;
      OptionEnd(pl, d, data, p);
      var ss, rest := Starts(pl, h, fmt, i, data, pos), Starts(pl, d.head, fmt, d.next, data, u.1);
      assert ss == [(d.kind, p)] + rest;
      CutFirst(data, (d.kind, p), rest);
      if u.1 == |data| + 1 {
        if Char(fmt, d.next) != 0 {
          NothingAfterEnd(pl, d.head, fmt, d.next, data);
        }
        assert rest == [];
      } else {
        UnpackEnds(pl, d.head, fmt, d.next, data, u.1);
      }
    }
  }

  lemma CutFirst(data: seq<byte>, s: (Kind, nat), rest: seq<(Kind, nat)>)
    ensures SomeCut(data, [s] + rest) <==> IsCut(data, s) || SomeCut(data, rest)
    ensures forall k :: 0 <= k < |rest| ==> ([s] + rest)[k + 1] == rest[k]
  {
    hide IsCut;
    var ss := [s] + rest;
    assert ss[0] == s;
    assert forall k :: 0 <= k < |rest| ==> ss[k + 1] == rest[k];
    if SomeCut(data, rest) {
      var k :| 0 <= k < |rest| && IsCut(data, rest[k]);
      assert IsCut(data, ss[k + 1]);
    }
  }

  /** `string.unpack`: the position returned is at most the one after the data if and only if every string read
      has its zero; a position after a string cut off is refused as the start of another call. */
  lemma UnpackedInside(pl: Platform, fmt: seq<byte>, data: seq<byte>, init: int, again: seq<byte>)
    requires |data| < MAXSTRING && Unpacked(pl, fmt, data, init).Ok?
    ensures var q := Unpacked(pl, fmt, data, init).value.1;
      var ss := Starts(pl, Header(pl.little, 1), fmt, 0, data, Posrelat(init, |data|) - 1);
      && q <= |data| + 2
      && (q <= |data| + 1 <==> !SomeCut(data, ss))
      && (q == |data| + 2 ==> Unpacked(pl, again, data, q) == Err("initial position out of string"))
  {
    hide UnpackFrom, Starts, SomeCut;
    UnpackEnds(pl, Header(pl.little, 1), fmt, 0, data, Posrelat(init, |data|) - 1);
  }

  // ---------- an instance ----------

  /** A text without zeros is read by `z` as a whole. */
  lemma UnterminatedAccepted(pl: Platform, data: seq<byte>)
    requires |data| < TWO31 && 0 !in data
    ensures Unpacked(pl, ['z' as int], data, START) == Ok(([Str(data)], |data| + 2))
  {
    var fmt: seq<byte> := ['z' as int];
    var h := Header(pl.little, 1);
    ZOption(h, fmt, pl.little);
    StrlenZero(data, 0);
    ThroughIntIs(|data|);
    hide DetailsAt, Strlen, ThroughInt;
    assert data[0..|data|] == data;
    assert Extracted(pl, Kzstr, 0, pl.little, data, 0) == Ok(([Str(data)], |data| + 1));
    hide Extracted;
    assert UnpackFrom(pl, h, fmt, 1, data, |data| + 1) == Ok(([], |data| + 1));
    assert [Str(data)] + [] == [Str(data)];
  }

  lemma ZOption(h: Header, fmt: seq<byte>, native: bool)
    requires fmt == ['z' as int]
    ensures DetailsAt(h, 0, fmt, 0, native) == Ok(Details(Kzstr, 0, 0, 1, h))
  {
    assert Plain(fmt[0]) == Ok((Kzstr, 0));
    hide Plain;
    assert OptionAt(h, fmt, 0, native) == Ok(Option(Kzstr, 0, 1, h));
    hide OptionAt;
  }
}
