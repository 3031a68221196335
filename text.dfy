/**
 * The string helpers of the serializer: `string_lower`, `is_true`/`is_false`, and the decimal
 * conversions `std::to_string` (writer) and `string_to_size_t`/`std::stoull` (reader).
 */
module Text {
  import opened Wrappers

  /** `std::tolower` on one character in the "C" locale: only A-Z change. */
  function LowerChar(c: char): char {
    if 'A' <= c <= 'Z' then (c as int + 32) as char else c
  }

  /** The lower-cased copy of `s` that `string_lower` returns. */
  function Lower(s: string): (r: string)
    ensures |r| == |s|
    ensures forall i :: 0 <= i < |s| ==> r[i] == LowerChar(s[i])
  {
    if s == [] then [] else [LowerChar(s[0])] + Lower(s[1..])
  }

  /** `string_lower`: a loop that lower-cases its copy of the argument in place. */
  method StringLower(str: string) returns (r: string)
    ensures r == Lower(str)
  {
    r := str;
    var i := 0;
    while i < |r|
      invariant 0 <= i <= |r| == |str|
      invariant forall j :: 0 <= j < i ==> r[j] == LowerChar(str[j])
      invariant forall j :: i <= j < |r| ==> r[j] == str[j]
    {
      r := r[i := LowerChar(r[i])];
      i := i + 1;
    }
  }

  /** Lower-casing twice changes nothing more than lower-casing once. */
  lemma LowerIdempotent(s: string)
    ensures Lower(Lower(s)) == Lower(s)
  {
    var once := Lower(s);
    assert forall i :: 0 <= i < |s| ==> LowerChar(once[i]) == once[i];
  }

  /** `is_true`: only "1" and "true" count as true. */
  predicate IsTrue(s: string) {
    s == "1" || s == "true"
  }

  /** `is_false`: only "0" and "false" count as false. */
  predicate IsFalse(s: string) {
    s == "0" || s == "false"
  }

  /** How the writer spells a flag it emits: "1" or "0". */
  function BoolText(b: bool): string {
    if b then "1" else "0"
  }

  /** A flag written as "1"/"0" reads back as itself through both `is_true` and `is_false`. */
  lemma BoolTextRoundTrip(b: bool)
    ensures IsTrue(BoolText(b)) == b
    ensures IsFalse(BoolText(b)) == !b
  {
  }

  predicate IsDigit(c: char) {
    '0' <= c <= '9'
  }

  function DigitChar(d: nat): (c: char)
    requires d < 10
    ensures IsDigit(c)
  {
    ('0' as int + d) as char
  }

  /** `std::to_string` of an unsigned value: its decimal digits, most significant first. */
  function NatToString(n: nat): (s: string)
    ensures |s| > 0
    ensures forall i :: 0 <= i < |s| ==> IsDigit(s[i])
  {
    if n < 10 then [DigitChar(n)] else NatToString(n / 10) + [DigitChar(n % 10)]
  }

  /** The value of a string of decimal digits. */
  function DigitsValue(s: string): nat
    requires forall i :: 0 <= i < |s| ==> IsDigit(s[i])
  {
    if s == [] then 0
    else
      assert IsDigit(s[|s| - 1]);
      DigitsValue(s[..|s| - 1]) * 10 + (s[|s| - 1] as int - '0' as int)
  }

  /** `string_to_size_t`/`std::stoull`: a non-empty string of decimal digits, else a failure. */
  function ParseSize(s: string): (r: Result<nat>)
    ensures r.Ok? <==> |s| > 0 && forall i :: 0 <= i < |s| ==> IsDigit(s[i])
    ensures r.Err? ==> r.error == InvalidNumber(s)
  {
    if |s| > 0 && forall i :: 0 <= i < |s| ==> IsDigit(s[i]) then Ok(DigitsValue(s)) else Err(InvalidNumber(s))
  }

  /** An absent attribute (empty text) is never a number. */
  lemma ParseEmptyFails()
    ensures ParseSize("") == Err(InvalidNumber(""))
  {
  }

  /** Every number the writer emits reads back as itself. */
  lemma {:induction false} ParseSizeOfNatToString(n: nat)
    ensures ParseSize(NatToString(n)) == Ok(n)
  {
    var s := NatToString(n);
    if n < 10 {
      assert s == [DigitChar(n)];
      assert DigitsValue(s) == DigitsValue([]) * 10 + n;
    } else {
      ParseSizeOfNatToString(n / 10);
      assert s[..|s| - 1] == NatToString(n / 10);
      assert s[|s| - 1] == DigitChar(n % 10);
      assert DigitsValue(s) == (n / 10) * 10 + n % 10;
    }
  }

  /** Different numbers are written as different strings. */
  lemma NatToStringInjective(m: nat, n: nat)
    requires NatToString(m) == NatToString(n)
    ensures m == n
  {
    ParseSizeOfNatToString(m);
    ParseSizeOfNatToString(n);
  }
}
