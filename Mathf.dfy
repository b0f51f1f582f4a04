/** Unity's Mathf.RoundToInt on exact reals: round to the nearest integer,
    a tie (fraction exactly one half) going to the even neighbour. */
module Mathf {

  /** The integer nearest to `v`; on a tie, the even one. */
  function RoundToInt(v: real): (n: int)
    ensures v - 0.5 <= n as real <= v + 0.5
    ensures (n as real - v == 0.5 || v - n as real == 0.5) ==> n % 2 == 0
  {
    var f := v.Floor;
    var frac := v - f as real;
    if frac < 0.5 then f
    else if frac > 0.5 then f + 1
    else if f % 2 == 0 then f
    else f + 1
  }

  /** The two properties of RoundToInt determine its result: no other
      integer is within one half of `v` and even on a tie. */
  lemma RoundToIntUnique(v: real, m: int)
    requires v - 0.5 <= m as real <= v + 0.5
    requires (m as real - v == 0.5 || v - m as real == 0.5) ==> m % 2 == 0
    ensures m == RoundToInt(v)
  {
  }

  /** An integral value rounds to itself. */
  lemma RoundToIntOfInteger(k: int)
    ensures RoundToInt(k as real) == k
  {
    RoundToIntUnique(k as real, k);
  }
}
