/**
 * The JavaScript string built-ins the core relies on: `String.prototype.trim`,
 * the unary `+` conversion of a string to a number, and the decimal text of a number
 * (`${n}`).
 */
module JsText {
  import opened Wrappers

  /** ECMAScript WhiteSpace and LineTerminator code points: what `trim` removes. */
  predicate IsWhitespace(c: char) {
    var n := c as int;
    n == 0x09 || n == 0x0A || n == 0x0B || n == 0x0C || n == 0x0D || n == 0x20
    || n == 0xA0 || n == 0x1680 || (0x2000 <= n <= 0x200A) || n == 0x2028
    || n == 0x2029 || n == 0x202F || n == 0x205F || n == 0x3000 || n == 0xFEFF
  }

  /** Every character of `s` from index `lo` up to (not including) `hi` is whitespace. */
  predicate WhitespaceBetween(s: string, lo: int, hi: int) {
    forall k :: lo <= k < hi && 0 <= k < |s| ==> IsWhitespace(s[k])
  }

  /** Neither the first nor the last character is whitespace. */
  predicate NoOuterWhitespace(s: string) {
    s == [] || (!IsWhitespace(s[0]) && !IsWhitespace(s[|s| - 1]))
  }

  /** The index of the first non-whitespace character at or after `i` (|s| if none). */
  function SkipLeading(s: string, i: nat): (k: nat)
    requires i <= |s|
    ensures i <= k <= |s| && WhitespaceBetween(s, i, k)
    ensures k < |s| ==> !IsWhitespace(s[k])
    decreases |s| - i
  {
    if i < |s| && IsWhitespace(s[i]) then SkipLeading(s, i + 1) else i
  }

  /** The index just past the last non-whitespace character of s[lo..hi] (lo if none). */
  function SkipTrailing(s: string, lo: nat, hi: nat): (k: nat)
    requires lo <= hi <= |s|
    ensures lo <= k <= hi && WhitespaceBetween(s, k, hi)
    ensures lo < k ==> !IsWhitespace(s[k - 1])
  {
    if lo < hi && IsWhitespace(s[hi - 1]) then SkipTrailing(s, lo, hi - 1) else hi
  }

  /**
   * `s.trim()`: the slice of `s` left after removing whitespace at both ends.
   * A string without outer whitespace is returned unchanged.
   */
  function Trim(s: string): (r: string)
    ensures NoOuterWhitespace(r)
    ensures exists i, j :: 0 <= i <= j <= |s| && r == s[i..j]
                           && WhitespaceBetween(s, 0, i) && WhitespaceBetween(s, j, |s|)
    ensures NoOuterWhitespace(s) ==> r == s
  {
    var i := SkipLeading(s, 0);
    var j := SkipTrailing(s, i, |s|);
    assert i < j ==> s[i..j][0] == s[i];
    s[i..j]
  }

  predicate IsDigit(c: char) {
    '0' <= c <= '9'
  }

  predicate AllDigits(s: string) {
    forall i :: 0 <= i < |s| ==> IsDigit(s[i])
  }

  /** The value of `c` as a hexadecimal digit (0-9, a-f, A-F), if it is one. */
  function HexDigitValue(c: char): (r: Option<nat>)
    ensures r.Some? ==> r.value < 16
    ensures IsDigit(c) <==> r.Some? && r.value < 10
  {
    if '0' <= c <= '9' then Some(c as int - '0' as int)
    else if 'a' <= c <= 'f' then Some(c as int - 'a' as int + 10)
    else if 'A' <= c <= 'F' then Some(c as int - 'A' as int + 10)
    else None
  }

  function DigitChar(d: nat): (c: char)
    requires d < 10
    ensures IsDigit(c) && HexDigitValue(c) == Some(d)
  {
    ('0' as int + d) as char
  }

  /** The value of a digit string in base `radix`; None if some character is not such a digit. */
  function DigitsValue(s: string, radix: nat): Option<nat>
    requires 2 <= radix <= 16
  {
    if s == [] then Some(0)
    else
      match (DigitsValue(s[..|s| - 1], radix), HexDigitValue(s[|s| - 1]))
      case (Some(v), Some(d)) => if d < radix then Some(v * radix + d) else None
      case _ => None
  }

  /** A non-empty run of digits of the given radix. */
  function Unsigned(s: string, radix: nat): Option<int>
    requires 2 <= radix <= 16
  {
    if s == [] then None
    else match DigitsValue(s, radix)
      case Some(v) => Some(v)
      case None => None
  }

  function Negate(n: Option<int>): Option<int> {
    match n
    case Some(v) => Some(-v)
    case None => None
  }

  /**
   * JavaScript's `+s` for a string, restricted to integer results: None stands for NaN
   * (and for the forms this model does not parse, see README). Surrounding whitespace
   * is ignored, the empty string is 0, a decimal literal may carry one sign, and
   * 0x/0o/0b prefixes select hexadecimal, octal and binary (without a sign).
   */
  function StringToNumber(s: string): (r: Option<int>)
    ensures Trim(s) == [] ==> r == Some(0)
    ensures r.Some? && r.value < 0 ==> Trim(s)[0] == '-'
  {
    var t := Trim(s);
    if t == [] then Some(0)
    else if |t| > 2 && t[0] == '0' && (t[1] == 'x' || t[1] == 'X') then Unsigned(t[2..], 16)
    else if |t| > 2 && t[0] == '0' && (t[1] == 'o' || t[1] == 'O') then Unsigned(t[2..], 8)
    else if |t| > 2 && t[0] == '0' && (t[1] == 'b' || t[1] == 'B') then Unsigned(t[2..], 2)
    else if t[0] == '+' then Unsigned(t[1..], 10)
    else if t[0] == '-' then Negate(Unsigned(t[1..], 10))
    else Unsigned(t, 10)
  }

  /**
   * `${n}` for a non-negative integer: its shortest decimal text. JavaScript writes numbers
   * from 10^21 up in exponent form; serial ids never get there, so that form is not modelled.
   */
  function NatToString(n: nat): (s: string)
    ensures s != [] && AllDigits(s)
    ensures (s[0] == '0') <==> n == 0
    ensures n == 0 ==> s == "0"
  {
    if n < 10 then [DigitChar(n)]
    else NatToString(n / 10) + [DigitChar(n % 10)]
  }

  /** `${i}` for an integer. */
  function IntToString(i: int): string {
    if i < 0 then "-" + NatToString(-i) else NatToString(i)
  }

  /** Reading back the decimal text of a number gives the number. */
  lemma {:induction false} DigitsValueOfNatToString(n: nat)
    ensures DigitsValue(NatToString(n), 10) == Some(n)
  {
    var s := NatToString(n);
    if n < 10 {
      assert s[..0] == [];
    } else {
      DigitsValueOfNatToString(n / 10);
      assert s[..|s| - 1] == NatToString(n / 10);
      assert s[|s| - 1] == DigitChar(n % 10);
    }
  }

  /** Every run of decimal digits has a value. */
  lemma {:induction false} DigitsValueOfDigits(s: string)
    requires AllDigits(s)
    ensures DigitsValue(s, 10).Some?
  {
    if s != [] {
      assert AllDigits(s[..|s| - 1]);
      DigitsValueOfDigits(s[..|s| - 1]);
      assert IsDigit(s[|s| - 1]);
    }
  }

  /** A plain run of decimal digits converts to its decimal value. */
  lemma StringToNumberOfDigits(s: string)
    requires s != [] && AllDigits(s)
    ensures StringToNumber(s) == Unsigned(s, 10)
    ensures StringToNumber(s).Some? && StringToNumber(s).value >= 0
  {
    DigitsValueOfDigits(s);
    assert IsDigit(s[0]) && IsDigit(s[|s| - 1]);
    assert Trim(s) == s;
    assert |s| > 2 ==> IsDigit(s[1]);
  }

  /** `+${n}` is `n` again: the path parameter of a user's own URL converts to their id. */
  lemma StringToNumberOfNatToString(n: nat)
    ensures StringToNumber(NatToString(n)) == Some(n)
  {
    var s := NatToString(n);
    StringToNumberOfDigits(s);
    DigitsValueOfNatToString(n);
  }

  /** Outer whitespace does not matter: converting the trimmed string gives the same number. */
  lemma StringToNumberOfTrimmed(s: string)
    ensures StringToNumber(Trim(s)) == StringToNumber(s)
  {
    assert Trim(Trim(s)) == Trim(s);
  }

  /** A string of whitespace only, the empty string included, converts to 0. */
  lemma StringToNumberOfBlank(s: string)
    requires WhitespaceBetween(s, 0, |s|)
    ensures StringToNumber(s) == Some(0)
  {
  }

  /** A decimal literal may carry a plus sign: `+d` is d. */
  lemma StringToNumberOfPlus(d: string)
    requires d != [] && AllDigits(d)
    ensures StringToNumber("+" + d) == Unsigned(d, 10)
  {
    var t := "+" + d;
    assert IsDigit(d[|d| - 1]);
    assert t[0] == '+' && t[|t| - 1] == d[|d| - 1] && t[1..] == d;
    assert Trim(t) == t;
  }

  /** A decimal literal may carry a minus sign: `-d` is minus d. */
  lemma StringToNumberOfMinus(d: string)
    requires d != [] && AllDigits(d)
    ensures StringToNumber("-" + d) == Negate(Unsigned(d, 10))
  {
    var t := "-" + d;
    assert IsDigit(d[|d| - 1]);
    assert t[0] == '-' && t[|t| - 1] == d[|d| - 1] && t[1..] == d;
    assert Trim(t) == t;
  }

  /** The prefixes 0x, 0o and 0b (either case) read the rest in base 16, 8 and 2. */
  lemma StringToNumberOfPrefixed(d: string, marker: char, radix: nat)
    requires d != [] && !IsWhitespace(d[|d| - 1])
    requires (marker in "xX" && radix == 16) || (marker in "oO" && radix == 8)
             || (marker in "bB" && radix == 2)
    ensures StringToNumber(['0', marker] + d) == Unsigned(d, radix)
  {
    var t := ['0', marker] + d;
    assert t[0] == '0' && t[1] == marker && t[|t| - 1] == d[|d| - 1] && t[2..] == d;
    assert Trim(t) == t;
  }
}
