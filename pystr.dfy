/** The Python built-ins the modelled code applies to strings and numbers:
    str.isspace, str.strip, str.lower, int() and str(). */
module PyStr {
  import opened Common

  /** The characters Python treats as whitespace in str.isspace and str.strip. */
  predicate IsSpace(c: char) {
    ('\t' <= c <= '\r') || ('\U{1C}' <= c <= ' ') || c == '\U{85}' || c == '\U{A0}'
    || c == '\U{1680}' || ('\U{2000}' <= c <= '\U{200A}') || c == '\U{2028}' || c == '\U{2029}'
    || c == '\U{202F}' || c == '\U{205F}' || c == '\U{3000}'
  }

  /** str.isspace(): non-empty and made of whitespace only. */
  predicate IsSpaceString(s: string) {
    |s| > 0 && forall k :: 0 <= k < |s| ==> IsSpace(s[k])
  }

  /** The string has no character other than whitespace (it may be empty). */
  predicate IsBlank(s: string) {
    forall k :: 0 <= k < |s| ==> IsSpace(s[k])
  }

  /** Non-empty, with no whitespace at either end: what strip() leaves of a
      non-blank string. */
  predicate Trimmed(s: string) {
    s != [] && !IsSpace(s[0]) && !IsSpace(s[|s| - 1])
  }

  /** str.strip() with no argument: whitespace is dropped from both ends until
      neither end is whitespace. */
  function Strip(s: string): (r: string)
    ensures |r| <= |s|
    ensures r == [] || Trimmed(r)
  {
    if s == [] then []
    else if IsSpace(s[0]) then Strip(s[1..])
    else if IsSpace(s[|s| - 1]) then Strip(s[..|s| - 1])
    else s
  }

  /** r sits at offset i of s with only whitespace before and after it. */
  predicate Surrounded(s: string, r: string, i: nat) {
    i + |r| <= |s| && s[i..i + |r|] == r && IsBlank(s[..i]) && IsBlank(s[i + |r|..])
  }

  /** A leading whitespace character only shifts the offset. */
  lemma SurroundedCons(s: string, r: string, j: nat)
    requires s != [] && IsSpace(s[0]) && Surrounded(s[1..], r, j)
    ensures Surrounded(s, r, j + 1)
  {
    assert s[j + 1..j + 1 + |r|] == s[1..][j..j + |r|];
    assert s[..j + 1] == [s[0]] + s[1..][..j];
    assert s[j + 1 + |r|..] == s[1..][j + |r|..];
  }

  /** A trailing whitespace character keeps the offset. */
  lemma SurroundedSnoc(s: string, r: string, i: nat)
    requires s != [] && IsSpace(s[|s| - 1]) && Surrounded(s[..|s| - 1], r, i)
    ensures Surrounded(s, r, i)
  {
    var t := s[..|s| - 1];
    assert s[i..i + |r|] == t[i..i + |r|];
    assert s[..i] == t[..i];
    assert s[i + |r|..] == t[i + |r|..] + [s[|s| - 1]];
  }

  /** The result is a contiguous part of s with only whitespace around it;
      i is the number of leading characters removed. */
  lemma {:induction false} StripInfix(s: string) returns (i: nat)
    ensures Surrounded(s, Strip(s), i)
  {
    if s == [] {
      i := 0;
    } else if IsSpace(s[0]) {
      var j := StripInfix(s[1..]);
      SurroundedCons(s, Strip(s), j);
      i := j + 1;
    } else if IsSpace(s[|s| - 1]) {
      i := StripInfix(s[..|s| - 1]);
      SurroundedSnoc(s, Strip(s), i);
    } else {
      i := 0;
      assert s[0..|s|] == s;
    }
  }

  /** s.strip() == "" holds exactly for blank strings. */
  lemma {:induction false} StripEmpty(s: string)
    ensures Strip(s) == [] <==> IsBlank(s)
  {
    if s != [] {
      if IsSpace(s[0]) {
        StripEmpty(s[1..]);
        assert IsBlank(s) <==> IsBlank(s[1..]);
      } else if IsSpace(s[|s| - 1]) {
        StripEmpty(s[..|s| - 1]);
        assert IsBlank(s) <==> IsBlank(s[..|s| - 1]);
      }
    }
  }

  /** A string with no whitespace at either end is its own strip. */
  lemma StripTrimmed(s: string)
    requires s == [] || Trimmed(s)
    ensures Strip(s) == s
  {
  }

  /** Stripping twice removes nothing more. */
  lemma StripIdempotent(s: string)
    ensures Strip(Strip(s)) == Strip(s)
  {
    StripTrimmed(Strip(s));
  }

  /** str.lower() on ASCII letters; every other character is kept. */
  function LowerChar(c: char): (d: char)
    ensures 'A' <= c <= 'Z' ==> 'a' <= d <= 'z'
    ensures !('A' <= c <= 'Z') ==> d == c
  {
    if 'A' <= c <= 'Z' then (c as int + 32) as char else c
  }

  function Lower(s: string): (r: string)
    ensures |r| == |s|
    ensures forall k :: 0 <= k < |s| ==> r[k] == LowerChar(s[k])
  {
    seq(|s|, k requires 0 <= k < |s| => LowerChar(s[k]))
  }

  /** Lowering twice is lowering once. */
  lemma LowerIdempotent(s: string)
    ensures Lower(Lower(s)) == Lower(s)
  {
  }


  /** int(x) for a float x: truncation toward zero. */
  function TruncReal(r: real): (n: int)
    ensures r >= 0.0 ==> n as real <= r < n as real + 1.0
    ensures r < 0.0 ==> n as real - 1.0 < r <= n as real
  {
    if r >= 0.0 then r.Floor else -((-r).Floor)
  }

  predicate IsDigit(c: char) {
    '0' <= c <= '9'
  }

  function DigitChar(d: nat): (c: char)
    requires d < 10
    ensures IsDigit(c) && c as int - '0' as int == d
  {
    ('0' as int + d) as char
  }

  /** The value of a string of decimal digits. */
  function DigitsValue(s: string): (n: nat)
    requires forall k :: 0 <= k < |s| ==> IsDigit(s[k])
  {
    if s == [] then 0
    else
      assert IsDigit(s[|s| - 1]);
      DigitsValue(s[..|s| - 1]) * 10 + (s[|s| - 1] as int - '0' as int)
  }

  /** str() of a non-negative int. */
  function NatToString(n: nat): (s: string)
    ensures s != []
    ensures forall k :: 0 <= k < |s| ==> IsDigit(s[k])
  {
    if n < 10 then [DigitChar(n)] else NatToString(n / 10) + [DigitChar(n % 10)]
  }

  /** str() of an int. */
  function IntToString(i: int): (s: string)
    ensures s != []
  {
    if i < 0 then "-" + NatToString(-i) else NatToString(i)
  }

  /** int() of a str: surrounding whitespace, an optional sign, then ASCII digits;
      None where Python raises ValueError. */
  function ParseInt(s: string): (r: Option<int>)
  {
    var t := Strip(s);
    if t != [] && (t[0] == '-' || t[0] == '+') then
      var body := t[1..];
      if body != [] && forall k :: 0 <= k < |body| ==> IsDigit(body[k]) then
        var magnitude: int := DigitsValue(body);
        Some(if t[0] == '-' then -magnitude else magnitude)
      else None
    else if t != [] && forall k :: 0 <= k < |t| ==> IsDigit(t[k]) then Some(DigitsValue(t))
    else None
  }

  lemma {:induction false} DigitsOfNat(n: nat)
    ensures DigitsValue(NatToString(n)) == n
  {
    var s := NatToString(n);
    if n >= 10 {
      DigitsOfNat(n / 10);
      assert s[..|s| - 1] == NatToString(n / 10);
    }
  }

  /** int(str(i)) == i. */
  lemma IntStringRoundTrip(i: int)
    ensures ParseInt(IntToString(i)) == Some(i)
  {
    var s := IntToString(i);
    var d := NatToString(if i < 0 then -i else i);
    DigitsOfNat(if i < 0 then -i else i);
    assert forall k :: 0 <= k < |s| ==> !IsSpace(s[k]);
    StripTrimmed(s);
    if i < 0 {
      assert s[1..] == d;
    }
  }

  /** str() of a value. */
  function Str(v: PyObj): string {
    match v
    case PyNone => "None"
    case PyBool(b) => if b then "True" else "False"
    case PyInt(i) => IntToString(i)
    case PyStr(s) => s
  }
}
