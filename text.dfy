/** The JavaScript string primitives the handlers rely on: `String.prototype.trim`,
    truthiness of an optional request field, `.length` (UTF-16 code units) and the
    `\d` character class. */
module Text {
  import opened Base

  /** The characters `trim()` removes: ECMAScript WhiteSpace and LineTerminator. */
  predicate IsWhitespace(c: char) {
    || c == '\t' || c == '\n' || c == '\U{B}' || c == '\U{C}' || c == '\r' || c == ' '
    || c == '\U{A0}' || c == '\U{1680}' || ('\U{2000}' <= c <= '\U{200A}')
    || c == '\U{2028}' || c == '\U{2029}' || c == '\U{202F}' || c == '\U{205F}'
    || c == '\U{3000}' || c == '\U{FEFF}'
  }

  /** `s.trim() === ''`: nothing but whitespace. */
  predicate IsBlank(s: string) {
    forall k :: 0 <= k < |s| ==> IsWhitespace(s[k])
  }

  /** Drops the leading whitespace: the result is the suffix of `s` after it. */
  function TrimStart(s: string): (r: string)
    ensures |r| <= |s| && r == s[|s| - |r|..]
    ensures forall k :: 0 <= k < |s| - |r| ==> IsWhitespace(s[k])
    ensures r == [] || !IsWhitespace(r[0])
  {
    if s != [] && IsWhitespace(s[0]) then TrimStart(s[1..]) else s
  }

  /** Drops the trailing whitespace: the result is the prefix of `s` before it. */
  function TrimEnd(s: string): (r: string)
    ensures |r| <= |s| && r == s[..|r|]
    ensures forall k :: |r| <= k < |s| ==> IsWhitespace(s[k])
    ensures r == [] || !IsWhitespace(r[|r| - 1])
  {
    if s != [] && IsWhitespace(s[|s| - 1]) then TrimEnd(s[..|s| - 1]) else s
  }

  /** `s.trim()`: the slice of `s` between its leading and its trailing whitespace. */
  function Trim(s: string): (r: string)
    ensures |r| <= |s|
    ensures r == [] <==> IsBlank(s)
    ensures r == [] || (!IsWhitespace(r[0]) && !IsWhitespace(r[|r| - 1]))
  {
    var t := TrimStart(s);
    var r := TrimEnd(t);
    assert r == [] ==> t == [] by {
      if t != [] { assert !IsWhitespace(t[0]); }
    }
    r
  }

  /** `trim()` finds the first and last non-blank characters, and keeps what lies between. */
  lemma {:induction false} TrimIsInfix(s: string)
    ensures exists i, j :: 0 <= i <= j <= |s| && Trim(s) == s[i..j]
                          && IsBlank(s[..i]) && IsBlank(s[j..])
  {
    var t := TrimStart(s);
    var r := TrimEnd(t);
    assert Trim(s) == r;
    var i := |s| - |t|;
    var j := i + |r|;
    assert t == s[i..];
    assert r == s[i..j] by {
      forall k | 0 <= k < |r| ensures r[k] == s[i..j][k] {
        assert r[k] == t[k] == s[i + k];
      }
    }
    assert IsBlank(s[..i]) by {
      forall k | 0 <= k < i ensures IsWhitespace(s[..i][k]) {
        assert s[..i][k] == s[k];
      }
    }
    assert IsBlank(s[j..]) by {
      forall k | 0 <= k < |s| - j ensures IsWhitespace(s[j..][k]) {
        assert s[j..][k] == t[|r| + k];
      }
    }
    assert 0 <= i <= j <= |s| && Trim(s) == s[i..j] && IsBlank(s[..i]) && IsBlank(s[j..]);
  }

  /** JavaScript truthiness of an optional string field of a request body:
      absent (`undefined`) and `''` are falsy. */
  predicate Truthy(o: Option<string>) {
    o.Some? && o.value != ""
  }

  /** `o?.trim()` is truthy: the field is present and not blank. */
  predicate HasText(o: Option<string>) {
    o.Some? && !IsBlank(o.value)
  }

  /** `s.length`: JavaScript counts UTF-16 code units, so a character outside the
      Basic Multilingual Plane counts twice. */
  function JsLength(s: string): (n: nat)
    ensures |s| <= n <= 2 * |s|
    ensures (forall k :: 0 <= k < |s| ==> s[k] as int <= 0xFFFF) ==> n == |s|
  {
    if s == [] then 0
    else (if s[0] as int > 0xFFFF then 2 else 1) + JsLength(s[1..])
  }

  /** `\d` in a JavaScript regular expression without the `u` flag: ASCII digits only. */
  predicate IsAsciiDigit(c: char) {
    '0' <= c <= '9'
  }

  /** `/^\d{10}$/.test(s)`: exactly ten ASCII digits and nothing else (`$` without the
      `m` flag matches only at the very end, so no trailing newline is admitted). */
  predicate IsTenDigits(s: string): (r: bool)
    ensures r <==> |s| == 10 && forall k :: 0 <= k < |s| ==> s[k] in "0123456789"
  {
    DigitClass();
    |s| == 10 && forall k :: 0 <= k < |s| ==> IsAsciiDigit(s[k])
  }

  /** `\d` is the class of the ten characters `0` to `9`. */
  lemma DigitClass()
    ensures forall c :: IsAsciiDigit(c) <==> c in "0123456789"
  {
    forall c | IsAsciiDigit(c) ensures c in "0123456789" {
      var ds := "0123456789";
      assert ds[c as int - '0' as int] == c;
    }
  }

  /** A ten-digit string is not blank and trimming leaves it as it is, so checking a
      phone before or after `trim()` agrees on it. */
  lemma TenDigitsAreTrimmed(s: string)
    requires IsTenDigits(s)
    ensures !IsBlank(s) && Trim(s) == s
  {
    assert IsAsciiDigit(s[0]) && IsAsciiDigit(s[9]);
    assert TrimStart(s) == s;
    assert TrimEnd(s) == s;
  }
}
