/** Sequences of one value, and positions in sequences. */
module Sequences {
  function Times<X>(n: nat, v: X): (r: seq<X>)
    ensures |r| == n && forall i :: 0 <= i < n ==> r[i] == v
  {
    seq(n, _ => v)
  }

  /** `posrelat`: positions below 0 count from the end. */
  function Posrelat(pos: int, len: nat): (r: nat)
    ensures pos < 0 ==> r <= len
  {
    if pos >= 0 then pos else if -pos > len then 0 else len + pos + 1
  }

  /** Position -1 is the last one, and every position has two names. */
  lemma PositionNames(pos: nat, len: nat)
    ensures len > 0 ==> Posrelat(-1, len) == len
    ensures 1 <= pos <= len ==> Posrelat(pos, len) == pos && Posrelat(pos - len - 1, len) == pos
    ensures Posrelat(pos, len) == pos && Posrelat(-1 - len - pos, len) == 0
  {
  }
}
