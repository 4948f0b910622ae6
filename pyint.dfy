/**
 * Python's `int(text)` on the length field: surrounding whitespace is
 * ignored, an optional `+` or `-` comes first, and the digits may be grouped
 * with single underscores (`"1_000"`). More than 4300 digits are refused
 * (CPython's default integer string conversion limit). Anything else raises
 * `ValueError`, modelled here as `None`.
 */
module PyInt {
  import opened Wrappers

  /** The whitespace `int()` skips around an ASCII string: space, tab, newline, vertical tab, form feed, carriage return. */
  predicate IsSpace(c: char) {
    c == ' ' || 9 <= c as int <= 13
  }

  /** CPython's default limit on the number of digits `int()` converts. */
  const MaxStrDigits: nat := 4300

  predicate IsDigit(c: char) {
    '0' <= c <= '9'
  }

  function DigitValue(c: char): (d: nat)
    requires IsDigit(c)
    ensures d < 10
  {
    c as int - '0' as int
  }

  function DigitChar(d: nat): (c: char)
    requires d < 10
    ensures IsDigit(c) && DigitValue(c) == d
  {
    ('0' as int + d) as char
  }

  /** `s.lstrip()` for ASCII whitespace. */
  function StripStart(s: string): (r: string)
    ensures r == [] || !IsSpace(r[0])
  {
    if s != [] && IsSpace(s[0]) then StripStart(s[1..]) else s
  }

  /** `s.rstrip()` for ASCII whitespace. */
  function StripEnd(s: string): (r: string)
    ensures r == [] || !IsSpace(r[|r| - 1])
  {
    if s != [] && IsSpace(s[|s| - 1]) then StripEnd(s[..|s| - 1]) else s
  }

  /** Digits, starting and ending with a digit, with at most one `_` between two digits. */
  predicate WellFormedDigits(s: string) {
    && |s| > 0
    && IsDigit(s[0])
    && IsDigit(s[|s| - 1])
    && DigitsOrUnderscores(s)
    && forall i :: 0 <= i < |s| - 1 && s[i] == '_' ==> IsDigit(s[i + 1])
  }

  predicate DigitsOrUnderscores(s: string) {
    forall i :: 0 <= i < |s| ==> IsDigit(s[i]) || s[i] == '_'
  }

  /** How many digits `s` holds, underscores not counted. */
  function DigitCount(s: string): nat {
    if s == [] then 0
    else DigitCount(s[..|s| - 1]) + (if s[|s| - 1] == '_' then 0 else 1)
  }

  /** The number the digits of `s` spell, underscores skipped. */
  function Value(s: string): nat
    requires DigitsOrUnderscores(s)
  {
    if s == [] then 0
    else if s[|s| - 1] == '_' then Value(s[..|s| - 1])
    else Value(s[..|s| - 1]) * 10 + DigitValue(s[|s| - 1])
  }

  /** `int(text)`: `Some(n)` for a well-formed integer literal, `None` where Python raises `ValueError`. */
  function Parse(text: string): Option<int> {
    var t := StripEnd(StripStart(text));
    if t == [] then None
    else
      var body := if t[0] == '+' || t[0] == '-' then t[1..] else t;
      if WellFormedDigits(body) && DigitCount(body) <= MaxStrDigits then
        var magnitude: int := Value(body);
        Some(if t[0] == '-' then -magnitude else magnitude)
      else None
  }

  /** `str(n)` for a natural number: its decimal digits, without leading zeros. */
  function ShowNat(n: nat): (s: string)
    ensures |s| > 0 && forall i :: 0 <= i < |s| ==> IsDigit(s[i])
  {
    if n < 10 then [DigitChar(n)] else ShowNat(n / 10) + [DigitChar(n % 10)]
  }

  /** `str(n)`: a minus sign for negative numbers, then the digits. */
  function Show(n: int): string {
    if n < 0 then "-" + ShowNat(-n) else ShowNat(n)
  }

  lemma {:induction false} ValueShowNat(n: nat)
    ensures Value(ShowNat(n)) == n
  {
    if n >= 10 {
      var s := ShowNat(n);
      assert s[..|s| - 1] == ShowNat(n / 10);
      ValueShowNat(n / 10);
    }
  }

  lemma {:induction false} StripNonSpace(s: string)
    requires s != [] && !IsSpace(s[0]) && !IsSpace(s[|s| - 1])
    ensures StripEnd(StripStart(s)) == s
  {
  }

  /**
   * `int(str(n)) == n` for every integer of at most 4300 digits (under the
   * same limit, `str` refuses to produce longer ones).
   */
  lemma ParseShow(n: int)
    requires |ShowNat(if n < 0 then -n else n)| <= MaxStrDigits
    ensures Parse(Show(n)) == Some(n)
  {
    var m: nat := if n < 0 then -n else n;
    var digits := ShowNat(m);
    ShowNatWellFormed(m);
    var s := Show(n);
    StripNonSpace(s);
    if n < 0 {
      assert s[0] == '-' && s[1..] == digits;
    } else {
      assert s == digits && s[0] != '-' && s[0] != '+';
    }
  }

  /** The digits of `str(n)` are well formed, spell `n`, and are all counted. */
  lemma ShowNatWellFormed(n: nat)
    ensures WellFormedDigits(ShowNat(n)) && Value(ShowNat(n)) == n
    ensures DigitCount(ShowNat(n)) == |ShowNat(n)|
  {
    ValueShowNat(n);
    DigitCountOfDigits(ShowNat(n));
  }

  /** Without underscores every character is a counted digit. */
  lemma {:induction false} DigitCountOfDigits(s: string)
    requires forall i :: 0 <= i < |s| ==> IsDigit(s[i])
    ensures DigitCount(s) == |s|
  {
    if s != [] {
      DigitCountOfDigits(s[..|s| - 1]);
    }
  }

  /** A run of more than 4300 digits is refused, leading zeros included (`"0" * 4300 + "5"`). */
  lemma ParseDigitLimit(text: string)
    requires |text| > MaxStrDigits
    requires forall i :: 0 <= i < |text| ==> IsDigit(text[i])
    ensures Parse(text) == None
  {
    StripNonSpace(text);
    DigitCountOfDigits(text);
  }

  /** Whitespace around the number is ignored, as `int(" 16 ") == 16`. */
  lemma {:induction false} ParseIgnoresSpace(pre: string, text: string, post: string)
    requires forall i :: 0 <= i < |pre| ==> IsSpace(pre[i])
    requires forall i :: 0 <= i < |post| ==> IsSpace(post[i])
    requires text != [] && !IsSpace(text[0]) && !IsSpace(text[|text| - 1])
    ensures Parse(pre + text + post) == Parse(text)
  {
    StripStartSpaces(pre, text + post);
    assert pre + text + post == pre + (text + post);
    StripEndSpaces(text, post);
    StripNonSpace(text);
  }

  lemma {:induction false} StripStartSpaces(pre: string, rest: string)
    requires forall i :: 0 <= i < |pre| ==> IsSpace(pre[i])
    requires rest != [] && !IsSpace(rest[0])
    ensures StripStart(pre + rest) == StripStart(rest)
  {
    if pre != [] {
      assert (pre + rest)[1..] == pre[1..] + rest;
      StripStartSpaces(pre[1..], rest);
    } else {
      assert pre + rest == rest;
    }
  }

  lemma {:induction false} StripEndSpaces(front: string, post: string)
    requires forall i :: 0 <= i < |post| ==> IsSpace(post[i])
    requires front != [] && !IsSpace(front[|front| - 1])
    ensures StripEnd(front + post) == StripEnd(front)
  {
    if post != [] {
      assert (front + post)[..|front + post| - 1] == front + post[..|post| - 1];
      StripEndSpaces(front, post[..|post| - 1]);
    } else {
      assert front + post == front;
    }
  }

  /** Text that is empty or only whitespace is not a number. */
  lemma {:induction false} ParseBlank(text: string)
    requires forall i :: 0 <= i < |text| ==> IsSpace(text[i])
    ensures Parse(text) == None
  {
    StripStartBlank(text);
  }

  lemma {:induction false} StripStartBlank(text: string)
    requires forall i :: 0 <= i < |text| ==> IsSpace(text[i])
    ensures StripStart(text) == []
  {
    if text != [] {
      StripStartBlank(text[1..]);
    }
  }
}
