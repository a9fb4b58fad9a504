/** The numeric-token rule `parse_numeric`, which the source carries three
    times with the same body, and the decimal digits it and the grammar read. */
module Numeric {
  import opened Chars

  predicate AllDigits(s: string) {
    forall i :: 0 <= i < |s| ==> IsDigit(s[i])
  }

  /** Python's `str.isdigit`, restricted to ASCII digits: non-empty and digits only. */
  predicate IsDigitString(s: string) {
    |s| > 0 && AllDigits(s)
  }

  /** `int()` of a digit string (leading zeros allowed). */
  function DigitsValue(s: string): nat
    requires AllDigits(s)
  {
    if s == [] then 0
    else DigitsValue(s[..|s| - 1]) * 10 + (s[|s| - 1] as int - '0' as int)
  }

  /** The decimal text of `n`, without sign or leading zeros. */
  function DigitsText(n: nat): (s: string)
    ensures IsDigitString(s)
  {
    var d := ['0' + (n % 10) as char];
    if n < 10 then d else DigitsText(n / 10) + d
  }

  lemma {:induction false} DigitsRoundTrip(n: nat)
    ensures DigitsValue(DigitsText(n)) == n
  {
    var d := ['0' + (n % 10) as char];
    if n >= 10 {
      var t := DigitsText(n / 10);
      assert (t + d)[..|t + d| - 1] == t;
      DigitsRoundTrip(n / 10);
    }
  }

  /** Signed text: an optional '-' then the digits, as `str(n)` writes it. */
  function IntText(n: int): string {
    if n < 0 then "-" + DigitsText(-n) else DigitsText(n)
  }

  /** A relative token as a user types it: a '+' or '-' sign, then the magnitude. */
  function DeltaText(d: int): string {
    (if d < 0 then "-" else "+") + DigitsText(if d < 0 then -d else d)
  }

  predicate IsSignedToken(val: string) {
    |val| > 0 && (val[0] == '+' || val[0] == '-') && IsDigitString(val[1..])
  }

  /** `parse_numeric(base, val)`: a signed token moves `base` by its value, a
      digit token replaces `base`, anything else leaves `base` as it was.
      Python raises IndexError on an empty token; no caller passes one. */
  function ParseNumeric(base: int, val: string): (r: int)
    requires |val| > 0
  {
    if IsSignedToken(val) then
      var magnitude: int := DigitsValue(val[1..]);
      base + (if val[0] == '-' then -magnitude else magnitude)
    else if IsDigitString(val) then DigitsValue(val)
    else base
  }

  /** A signed token is a relative move by exactly its value. */
  lemma ParseNumericDelta(base: int, d: int)
    ensures ParseNumeric(base, DeltaText(d)) == base + d
  {
    var m := if d < 0 then -d else d;
    var t := DeltaText(d);
    assert t[1..] == DigitsText(m);
    DigitsRoundTrip(m);
  }

  /** A plain digit token replaces the base, whatever the base was. */
  lemma ParseNumericAbsolute(base: int, n: nat)
    ensures ParseNumeric(base, DigitsText(n)) == n
  {
    var t := DigitsText(n);
    assert !IsSignedToken(t) by { assert IsDigit(t[0]); }
    DigitsRoundTrip(n);
  }

  /** Any other token is ignored: the base comes back unchanged, and a changed
      result always comes from a well-formed token. */
  lemma ParseNumericOtherwise(base: int, val: string)
    requires |val| > 0
    ensures ParseNumeric(base, val) != base ==> IsSignedToken(val) || IsDigitString(val)
    ensures !IsSignedToken(val) && !IsDigitString(val) ==> ParseNumeric(base, val) == base
  {
  }
}
