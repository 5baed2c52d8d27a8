/**
 * Decimal text of integers and the parsing the Rust code applies to XML
 * attributes (`u32::from_str`, `bool::from_str`).
 */
module Text {
  import opened Wrappers

  /** Largest value of a Rust `u32`. */
  const U32_MAX: nat := 0xFFFF_FFFF

  predicate IsDigit(c: char)
  {
    '0' <= c <= '9'
  }

  predicate AllDigits(s: string)
  {
    forall i :: 0 <= i < |s| ==> IsDigit(s[i])
  }

  function DigitChar(d: nat): (c: char)
    requires d < 10
    ensures IsDigit(c) && c as int - '0' as int == d
  {
    (d + '0' as int) as char
  }

  /** The value of a string of decimal digits, most significant first. */
  function DigitsValue(s: string): nat
    requires AllDigits(s)
  {
    if s == [] then 0 else DigitsValue(s[..|s| - 1]) * 10 + (s[|s| - 1] as int - '0' as int)
  }

  /** Decimal text of `n` as Rust's `Display` for unsigned integers writes it. */
  function NatToString(n: nat): (s: string)
    ensures |s| > 0 && AllDigits(s)
    ensures s[0] == '0' ==> s == "0"
    ensures DigitsValue(s) == n
  {
    if n < 10 then [DigitChar(n)]
    else
      var prefix := NatToString(n / 10);
      assert (prefix + [DigitChar(n % 10)])[..|prefix|] == prefix;
      prefix + [DigitChar(n % 10)]
  }

  /**
   * `u32::from_str`: an optional '+', then at least one decimal digit, with a
   * value that fits 32 bits.
   */
  function ParseU32(s: string): (r: Option<nat>)
    ensures r.Some? ==> r.value <= U32_MAX
    ensures r.Some? ==> exists d :: (s == d || s == "+" + d) && |d| > 0 && AllDigits(d) && DigitsValue(d) == r.value
  {
    var digits := if |s| > 0 && s[0] == '+' then s[1..] else s;
    assert s == digits || s == "+" + digits;
    if |digits| == 0 || !AllDigits(digits) then None
    else if DigitsValue(digits) > U32_MAX then None
    else Some(DigitsValue(digits))
  }

  /** What `NatToString` writes, `ParseU32` reads back, for every value a `u32` can hold. */
  lemma ParseNatToString(n: nat)
    requires n <= U32_MAX
    ensures ParseU32(NatToString(n)) == Some(n)
  {
  }

  /**
   * The converse of `ParseU32`'s contract: every run of digits of a value
   * that fits 32 bits is accepted, leading zeros and a leading '+' included.
   */
  lemma ParseU32Accepts(d: string, plus: bool)
    requires |d| > 0 && AllDigits(d) && DigitsValue(d) <= U32_MAX
    ensures ParseU32(if plus then "+" + d else d) == Some(DigitsValue(d))
  {
    if plus {
      assert ("+" + d)[1..] == d;
    }
  }

  /** Values beyond 32 bits are written but rejected when read back. */
  lemma ParseRejectsWide(n: nat)
    requires n > U32_MAX
    ensures ParseU32(NatToString(n)).None?
  {
  }

  function BoolToString(b: bool): (s: string)
    ensures |s| > 0
  {
    if b then "true" else "false"
  }

  /** `bool::from_str`: exactly "true" or "false". */
  function ParseBool(s: string): (r: Option<bool>)
    ensures r.Some? <==> s == "true" || s == "false"
  {
    if s == "true" then Some(true) else if s == "false" then Some(false) else None
  }

  lemma ParseBoolToString(b: bool)
    ensures ParseBool(BoolToString(b)) == Some(b)
  {
  }

  /** `s` begins with `prefix`. */
  predicate StartsWith(s: string, prefix: string)
  {
    |prefix| <= |s| && s[..|prefix|] == prefix
  }

  /** `sub` occurs in `s` starting at index `i`. */
  predicate OccursAt(s: string, sub: string, i: int)
  {
    0 <= i && i + |sub| <= |s| && s[i..i + |sub|] == sub
  }

  /** `sub` occurs somewhere in `s`. */
  predicate Contains(s: string, sub: string)
  {
    exists i | 0 <= i <= |s| :: OccursAt(s, sub, i)
  }
}
