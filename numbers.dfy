/**
 * The parts of Rust's `str` the interpreter uses on the text of a leaf:
 * `trim`, and `parse` into `u32` (hours and minutes) and `i32` (durations).
 */
module Numbers {
  import opened Wrappers

  const U32Max: int := 0xFFFF_FFFF
  const I32Max: int := 0x7FFF_FFFF
  const I32Min: int := -0x8000_0000

  predicate IsDigit(c: char) {
    '0' <= c <= '9'
  }

  predicate IsDigits(s: string) {
    forall i :: 0 <= i < |s| ==> IsDigit(s[i])
  }

  /** The number a string of decimal digits denotes (most significant digit first). */
  function DigitsValue(s: string): nat
    requires IsDigits(s)
    decreases |s|
  {
    if s == [] then 0 else 10 * DigitsValue(s[..|s| - 1]) + (s[|s| - 1] as int - '0' as int)
  }

  /**
   * The shortest decimal spelling of `n`, without leading zeros. The grammar
   * also accepts spellings with leading zeros; the trees built on this one
   * stand for the shortest spelling only.
   */
  function DecimalText(n: nat): (s: string)
    ensures |s| > 0 && IsDigits(s)
    ensures DigitsValue(s) == n
    ensures |s| == 1 || s[0] != '0'
    decreases n
  {
    var last := ('0' as int + n % 10) as char;
    if n < 10 then [last]
    else
      var front := DecimalText(n / 10);
      var s := front + [last];
      assert s[..|s| - 1] == front;
      s
  }

  /** `u32::from_str`: an optional `+` and then one or more decimal digits, whose value fits in 32 bits. */
  function ParseU32(s: string): (r: Option<nat>)
    ensures r.Some? ==> r.value <= U32Max
    ensures s == [] || s == "+" ==> r.None?
    ensures |s| > 0 && s[0] == '-' ==> r.None?
  {
    var digits := if |s| > 0 && s[0] == '+' then s[1..] else s;
    if |digits| > 0 && IsDigits(digits) && DigitsValue(digits) <= U32Max then Some(DigitsValue(digits))
    else None
  }

  /** `i32::from_str`: an optional sign and then one or more decimal digits, whose value fits in 32 bits. */
  function ParseI32(s: string): (r: Option<int>)
    ensures r.Some? ==> I32Min <= r.value <= I32Max
    ensures s == [] || s == "+" || s == "-" ==> r.None?
  {
    if |s| > 0 && s[0] == '-' then
      var digits := s[1..];
      if |digits| > 0 && IsDigits(digits) && DigitsValue(digits) <= -I32Min then Some(0 - DigitsValue(digits) as int)
      else None
    else
      var digits := if |s| > 0 && s[0] == '+' then s[1..] else s;
      if |digits| > 0 && IsDigits(digits) && DigitsValue(digits) <= I32Max then Some(DigitsValue(digits))
      else None
  }

  /** Parsing the spelling of a number gives the number back exactly when it fits in a `u32`. */
  lemma ParseU32OfDecimal(n: nat)
    ensures ParseU32(DecimalText(n)) == if n <= U32Max then Some(n) else None
  {
    var s := DecimalText(n);
    assert s[0] != '+' by { assert IsDigit(s[0]); }
  }

  /** Parsing the spelling of a number gives the number back exactly when it fits in an `i32`. */
  lemma ParseI32OfDecimal(n: nat)
    ensures ParseI32(DecimalText(n)) == if n <= I32Max then Some(n) else None
  {
    var s := DecimalText(n);
    assert s[0] != '+' && s[0] != '-' by { assert IsDigit(s[0]); }
  }

  /** Parsing `-` and the spelling of a number gives its negation exactly when that fits in an `i32`. */
  lemma ParseI32OfNegatedDecimal(n: nat)
    ensures ParseI32("-" + DecimalText(n)) == if n <= -I32Min then Some(-(n as int)) else None
  {
    var s := "-" + DecimalText(n);
    assert s[1..] == DecimalText(n);
  }

  predicate IsWhitespace(c: char) {
    c == ' ' || c == '\t' || c == '\n' || c == '\r'
  }

  function TrimStart(s: string): (r: string)
    ensures r == [] || !IsWhitespace(r[0])
    ensures |r| <= |s| && r == s[|s| - |r|..]
    ensures forall k :: 0 <= k < |s| - |r| ==> IsWhitespace(s[k])
    decreases |s|
  {
    if |s| > 0 && IsWhitespace(s[0]) then TrimStart(s[1..]) else s
  }

  function TrimEnd(s: string): (r: string)
    ensures r == [] || !IsWhitespace(r[|r| - 1])
    ensures |r| <= |s| && r == s[..|r|]
    ensures forall k :: |r| <= k < |s| ==> IsWhitespace(s[k])
    decreases |s|
  {
    if |s| > 0 && IsWhitespace(s[|s| - 1]) then TrimEnd(s[..|s| - 1]) else s
  }

  /** Everything of `s` before `i` and from `j` on is whitespace. */
  predicate OnlyWhitespaceOutside(s: string, i: int, j: int) {
    && 0 <= i <= j <= |s|
    && (forall k :: 0 <= k < i ==> IsWhitespace(s[k]))
    && (forall k :: j <= k < |s| ==> IsWhitespace(s[k]))
  }

  /** Cutting whitespace off the end of what is left after cutting it off the start. */
  lemma CutTwice(s: string, front: string, i: int, r: string)
    requires 0 <= i <= |s| && front == s[i..] && OnlyWhitespaceOutside(s, i, |s|)
    requires |r| <= |front| && r == front[..|r|] && OnlyWhitespaceOutside(front, 0, |r|)
    ensures OnlyWhitespaceOutside(s, i, i + |r|) && r == s[i..i + |r|]
  {
    forall k | i + |r| <= k < |s|
      ensures IsWhitespace(s[k])
    {
      assert s[k] == front[k - i];
    }
  }

  /** Trimming both ends keeps a slice of `s`, and what is cut off at either end is whitespace. */
  lemma TrimmedSlice(s: string)
    ensures exists i, j :: OnlyWhitespaceOutside(s, i, j) && TrimEnd(TrimStart(s)) == s[i..j]
  {
    var front := TrimStart(s);
    var r := TrimEnd(front);
    var i := |s| - |front|;
    assert OnlyWhitespaceOutside(s, i, |s|);
    assert OnlyWhitespaceOutside(front, 0, |r|);
    CutTwice(s, front, i, r);
  }

  /** `str::trim`: the text without leading and trailing whitespace. */
  function Trim(s: string): (r: string)
    ensures r == [] || (!IsWhitespace(r[0]) && !IsWhitespace(r[|r| - 1]))
    ensures s == [] || (!IsWhitespace(s[0]) && !IsWhitespace(s[|s| - 1])) ==> r == s
    ensures exists i, j :: OnlyWhitespaceOutside(s, i, j) && r == s[i..j]
  {
    TrimmedSlice(s);
    TrimEnd(TrimStart(s))
  }
}
