/** Decimal text of unsigned integers, as bytes: what `{}` prints for a
    `usize` and what `usize::from_str` accepts (an optional `+`, then one or
    more ASCII digits, with a value below the word limit). */
module Decimal {
  import opened Base

  const ZERO: Byte := 0x30
  const PLUS: Byte := 0x2B

  predicate IsDigit(b: Byte) { ZERO <= b <= ZERO + 9 }

  predicate AllDigits(s: seq<Byte>) { forall i :: 0 <= i < |s| ==> IsDigit(s[i]) }

  /** `{}` formatting of `n`: most significant digit first, no leading zero. */
  function Show(n: nat): (r: seq<Byte>)
    ensures |r| > 0 && AllDigits(r)
    ensures n > 0 ==> r[0] != ZERO
  {
    if n < 10 then [ZERO + n] else Show(n / 10) + [ZERO + n % 10]
  }

  /** Value of a string of digits, most significant first. */
  function DigitsValue(s: seq<Byte>): nat
    requires AllDigits(s)
  {
    if s == [] then 0 else 10 * DigitsValue(s[..|s| - 1]) + (s[|s| - 1] - ZERO)
  }

  /** `usize::from_str` for a `usize` of `limit` values. */
  function Parse(s: seq<Byte>, limit: nat): (r: Option<nat>)
    ensures r.Some? ==> r.value < limit
  {
    var digits := if |s| > 0 && s[0] == PLUS then s[1..] else s;
    if digits != [] && AllDigits(digits) && DigitsValue(digits) < limit
    then Some(DigitsValue(digits)) else None
  }

  /** The digits `Show` prints read back as the number printed. */
  lemma {:induction false} ShowValue(n: nat)
    ensures DigitsValue(Show(n)) == n
  {
    if n >= 10 {
      ShowValue(n / 10);
      var s := Show(n);
      assert s[..|s| - 1] == Show(n / 10);
    }
  }

  /** Round trip: parsing what `{}` prints gives back the number. */
  lemma ParseShow(n: nat, limit: nat)
    requires n < limit
    ensures Parse(Show(n), limit) == Some(n)
  {
    ShowValue(n);
  }
}
