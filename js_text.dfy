/** The JavaScript string primitives the extractor, the batch handler and the guard use:
    truthiness and `||` on optional strings, `trim`, `toLowerCase` on host names,
    `includes`, `parseInt(s, 10)`, `Number` on a digit string, and decimal rendering. */
module JsText {
  import opened Common

  /** A string value is truthy in JavaScript exactly when it is present and not empty. */
  predicate Truthy(v: Option<string>) {
    v.Some? && v.value != ""
  }

  /** `a || b` on two optional strings: `a` when it is truthy, otherwise `b` as it is. */
  function Or(a: Option<string>, b: Option<string>): Option<string> {
    if Truthy(a) then a else b
  }

  /** The code points ECMAScript calls WhiteSpace or LineTerminator: what `trim` strips
      and what `parseInt` skips. */
  predicate IsWhitespace(c: char) {
    var n := c as int;
    n == 0x09 || n == 0x0A || n == 0x0B || n == 0x0C || n == 0x0D || n == 0x20
    || n == 0xA0 || n == 0x1680 || (0x2000 <= n <= 0x200A) || n == 0x2028
    || n == 0x2029 || n == 0x202F || n == 0x205F || n == 0x3000 || n == 0xFEFF
  }

  /** `s.trimStart()`: the suffix of `s` left after its leading white space. */
  function TrimStart(s: string): (r: string)
    ensures |r| <= |s| && r == s[|s| - |r|..]
    ensures forall i | 0 <= i < |s| - |r| :: IsWhitespace(s[i])
    ensures r == [] || !IsWhitespace(r[0])
  {
    if s != [] && IsWhitespace(s[0]) then
      var r := TrimStart(s[1..]);
      assert s[1..][|s| - 1 - |r|..] == s[|s| - |r|..];
      assert forall i | 1 <= i < |s| - |r| :: s[i] == s[1..][i - 1];
      r
    else s
  }

  /** `s.trimEnd()`: the prefix of `s` left before its trailing white space. */
  function TrimEnd(s: string): (r: string)
    ensures |r| <= |s| && r == s[..|r|]
    ensures forall i | |r| <= i < |s| :: IsWhitespace(s[i])
    ensures r == [] || !IsWhitespace(r[|r| - 1])
  {
    if s != [] && IsWhitespace(s[|s| - 1]) then TrimEnd(s[..|s| - 1]) else s
  }

  /** `s.trim()`. */
  function Trim(s: string): (r: string)
    ensures |r| <= |s|
    ensures r == [] <==> forall i | 0 <= i < |s| :: IsWhitespace(s[i])
    ensures r != [] ==> !IsWhitespace(r[0]) && !IsWhitespace(r[|r| - 1])
    ensures exists k :: SliceBetweenWhitespace(s, r, k)
  {
    var t := TrimStart(s);
    var r := TrimEnd(t);
    assert r != [] ==> r[0] == t[0];
    TrimSlice(s, t, r);
    r
  }

  /** `r` is the slice of `s` at `k`, and every character of `s` outside it is white space. */
  predicate SliceBetweenWhitespace(s: string, r: string, k: int) {
    && 0 <= k <= |s| - |r| && r == s[k..k + |r|]
    && (forall i | 0 <= i < k :: IsWhitespace(s[i]))
    && (forall i | k + |r| <= i < |s| :: IsWhitespace(s[i]))
  }

  /** Cutting white space from the front of `s` (giving `t`), then from the back of `t`
      (giving `r`), leaves a slice of `s` between white space. */
  lemma TrimSlice(s: string, t: string, r: string)
    requires |t| <= |s| && t == s[|s| - |t|..] && forall i | 0 <= i < |s| - |t| :: IsWhitespace(s[i])
    requires |r| <= |t| && r == t[..|r|] && forall i | |r| <= i < |t| :: IsWhitespace(t[i])
    ensures SliceBetweenWhitespace(s, r, |s| - |t|)
  {
    var k := |s| - |t|;
    assert r == s[k..k + |r|];
    forall i | k + |r| <= i < |s| ensures IsWhitespace(s[i]) {
      assert s[i] == t[i - k];
    }
  }

  /** A string with no white space at either end is its own trim. */
  lemma TrimUntouched(s: string)
    requires s == [] || (!IsWhitespace(s[0]) && !IsWhitespace(s[|s| - 1]))
    ensures Trim(s) == s
  {
  }

  /** `c.toLowerCase()` for an ASCII letter; any other character is kept. */
  function LowerAscii(c: char): char {
    if 'A' <= c <= 'Z' then (c as int + 32) as char else c
  }

  /** `s.toLowerCase()` on the ASCII host names the URL parser produces. */
  function ToLowerAscii(s: string): (r: string)
    ensures |r| == |s|
    ensures forall i | 0 <= i < |s| :: r[i] == LowerAscii(s[i])
  {
    seq(|s|, i requires 0 <= i < |s| => LowerAscii(s[i]))
  }

  /** `sub` occurs in `s` starting at position `k`. */
  predicate OccursAt(s: string, sub: string, k: int) {
    0 <= k && k + |sub| <= |s| && s[k..k + |sub|] == sub
  }

  /** `s.includes(sub)`: `sub` occurs in `s` at some position. */
  function Includes(s: string, sub: string): (r: bool)
    ensures r <==> exists k :: OccursAt(s, sub, k)
    decreases |s|
  {
    if sub <= s then
      assert OccursAt(s, sub, 0);
      true
    else if s == [] then
      assert forall k :: !OccursAt(s, sub, k);
      false
    else
      var r := Includes(s[1..], sub);
      assert forall k :: OccursAt(s, sub, k) <==> 1 <= k && OccursAt(s[1..], sub, k - 1) by {
        forall k ensures OccursAt(s, sub, k) <==> 1 <= k && OccursAt(s[1..], sub, k - 1) {
          OccursShift(s, sub, k);
        }
      }
      if r then
        var k :| OccursAt(s[1..], sub, k);
        assert OccursAt(s, sub, k + 1);
        true
      else
        false
  }

  /** An occurrence at `k >= 1` is an occurrence at `k - 1` in the tail; none starts at 0
      when `sub` is not a prefix. */
  lemma OccursShift(s: string, sub: string, k: int)
    requires s != [] && !(sub <= s)
    ensures OccursAt(s, sub, k) <==> 1 <= k && OccursAt(s[1..], sub, k - 1)
  {
    if 1 <= k && k + |sub| <= |s| {
      TailSlice(s, k, |sub|);
    }
    if k == 0 && |sub| <= |s| {
      assert s[..|sub|] != sub;
    }
  }

  lemma TailSlice(s: string, k: int, n: nat)
    requires 1 <= k && k + n <= |s|
    ensures s[k..k + n] == s[1..][k - 1..k - 1 + n]
  {
    var a, b := s[k..k + n], s[1..][k - 1..k - 1 + n];
    assert |a| == |b| == n;
    forall i | 0 <= i < n ensures a[i] == b[i] {
      assert a[i] == s[k + i] && b[i] == s[1..][k - 1 + i];
    }
  }

  /** The regular-expression class `\d`: an ASCII decimal digit. */
  predicate IsDigit(c: char) {
    '0' <= c <= '9'
  }

  predicate AllDigits(s: string) {
    forall i | 0 <= i < |s| :: IsDigit(s[i])
  }

  predicate NoDigit(s: string) {
    forall i | 0 <= i < |s| :: !IsDigit(s[i])
  }

  function DigitValue(c: char): nat
    requires IsDigit(c)
  {
    c as int - '0' as int
  }

  /** The number a string of decimal digits denotes (`Number(s)` on such a string). */
  function DigitsValue(s: string): nat
    requires AllDigits(s)
  {
    if s == [] then 0 else DigitsValue(s[..|s| - 1]) * 10 + DigitValue(s[|s| - 1])
  }

  function DigitChar(d: nat): (c: char)
    requires d < 10
    ensures IsDigit(c) && DigitValue(c) == d
  {
    ('0' as int + d) as char
  }

  /** `String(n)` for a natural number: its shortest decimal form. */
  function DecimalString(n: nat): (r: string)
    ensures r != [] && AllDigits(r)
    ensures DigitsValue(r) == n
    ensures |r| > 1 ==> r[0] != '0'
  {
    if n < 10 then [DigitChar(n)]
    else
      var prefix := DecimalString(n / 10);
      var r := prefix + [DigitChar(n % 10)];
      assert r[..|r| - 1] == prefix;
      r
  }

  /** The longest prefix of `s` made of decimal digits. */
  function LeadingDigits(s: string): (r: string)
    ensures AllDigits(r) && r <= s
    ensures |r| < |s| ==> !IsDigit(s[|r|])
  {
    if s != [] && IsDigit(s[0]) then [s[0]] + LeadingDigits(s[1..]) else []
  }

  /** `parseInt(s, 10)`: skip leading white space, read an optional sign, then the longest
      run of decimal digits; `None` stands for `NaN` (no digit at all). */
  function ParseInt(s: string): (r: Option<int>)
    ensures NoDigit(s) ==> r.None?
    ensures r.Some? && r.value < 0 ==> exists i | 0 <= i < |s| :: s[i] == '-'
  {
    var t := TrimStart(s);
    var r := ParseSigned(t);
    assert r.Some? ==> IsDigit(s[|s| - |t|]) || (|t| > 1 && IsDigit(s[|s| - |t| + 1]));
    assert r.Some? && r.value < 0 ==> s[|s| - |t|] == '-';
    r
  }

  /** What `parseInt` reads after the white space: an optional sign, then the longest run
      of decimal digits. */
  function ParseSigned(t: string): (r: Option<int>)
    ensures r.Some? ==> t != [] && (IsDigit(t[0]) || ((t[0] == '+' || t[0] == '-') && |t| > 1 && IsDigit(t[1])))
    ensures r.Some? && r.value < 0 ==> t[0] == '-'
  {
    var negative := t != [] && t[0] == '-';
    var unsigned := if t != [] && (t[0] == '-' || t[0] == '+') then t[1..] else t;
    var digits := LeadingDigits(unsigned);
    if digits == [] then None
    else
      var magnitude: int := DigitsValue(digits);
      Some(if negative then -magnitude else magnitude)
  }

  /** A non-empty string of decimal digits parses to the number it denotes. */
  lemma ParseIntDigits(s: string)
    requires s != [] && AllDigits(s)
    ensures ParseInt(s) == Some(DigitsValue(s))
  {
    assert "" + "" + s + "" == s;
    ParseIntPrefix("", "", s, "");
  }

  /** `parseInt` on white space, an optional sign, a run of digits and anything that does
      not start with a digit: the signed value of that run. */
  lemma ParseIntPrefix(w: string, sign: string, d: string, rest: string)
    requires forall i | 0 <= i < |w| :: IsWhitespace(w[i])
    requires sign == "" || sign == "+" || sign == "-"
    requires d != [] && AllDigits(d)
    requires rest == [] || !IsDigit(rest[0])
    ensures ParseInt(w + sign + d + rest) ==
      Some(if sign == "-" then -(DigitsValue(d) as int) else DigitsValue(d))
  {
    var x := sign + (d + rest);
    assert w + sign + d + rest == w + x;
    assert !IsWhitespace(x[0]) by {
      if sign == "" { assert x[0] == d[0]; } else { assert x[0] == sign[0]; }
    }
    TrimStartWhitespace(w, x);
    LeadingDigitsPrefix(d, rest);
    ParseIntAfterTrim(w + x, sign, d + rest, d);
  }

  /** `parseInt` gives `NaN` when the first character after the white space, or after a
      sign, is not a digit. */
  lemma ParseIntNaN(w: string, x: string)
    requires forall i | 0 <= i < |w| :: IsWhitespace(w[i])
    requires x == [] || (!IsWhitespace(x[0]) && !IsDigit(x[0]))
    requires x != [] && (x[0] == '+' || x[0] == '-') ==> |x| == 1 || !IsDigit(x[1])
    ensures ParseInt(w + x) == None
  {
    TrimStartWhitespace(w, x);
  }

  /** `parseInt` once the white space is skipped: the sign, then the leading digits. */
  lemma ParseIntAfterTrim(s: string, sign: string, u: string, d: string)
    requires sign == "" || sign == "+" || sign == "-"
    requires TrimStart(s) == sign + u
    requires d != [] && AllDigits(d) && LeadingDigits(u) == d
    ensures ParseInt(s) == Some(if sign == "-" then -(DigitsValue(d) as int) else DigitsValue(d))
  {
    ParseSignedOf(sign, u, d);
  }

  lemma ParseSignedOf(sign: string, u: string, d: string)
    requires sign == "" || sign == "+" || sign == "-"
    requires d != [] && AllDigits(d) && LeadingDigits(u) == d
    ensures ParseSigned(sign + u) == Some(if sign == "-" then -(DigitsValue(d) as int) else DigitsValue(d))
  {
    if sign == "" {
      assert sign + u == u;
      ParseUnsignedOf(u, d);
    } else {
      assert sign == [sign[0]];
      ParseSignCharOf(sign[0], u, d);
    }
  }

  /** Without a sign, the leading digits are read as they are. */
  lemma ParseUnsignedOf(u: string, d: string)
    requires d != [] && AllDigits(d) && LeadingDigits(u) == d
    ensures ParseSigned(u) == Some(DigitsValue(d))
  {
    assert u[0] == d[0];
  }

  /** After a sign character, the leading digits are read and negated after `-`. */
  lemma ParseSignCharOf(c: char, u: string, d: string)
    requires c == '+' || c == '-'
    requires d != [] && AllDigits(d) && LeadingDigits(u) == d
    ensures ParseSigned([c] + u) == Some(if c == '-' then -(DigitsValue(d) as int) else DigitsValue(d))
  {
    assert ([c] + u)[0] == c && ([c] + u)[1..] == u;
  }

  lemma {:induction false} TrimStartWhitespace(w: string, x: string)
    requires forall i | 0 <= i < |w| :: IsWhitespace(w[i])
    requires x == [] || !IsWhitespace(x[0])
    ensures TrimStart(w + x) == x
  {
    if w != [] {
      assert (w + x)[1..] == w[1..] + x;
      TrimStartWhitespace(w[1..], x);
    }
  }

  lemma {:induction false} LeadingDigitsPrefix(d: string, rest: string)
    requires AllDigits(d)
    requires rest == [] || !IsDigit(rest[0])
    ensures LeadingDigits(d + rest) == d
  {
    if d != [] {
      assert (d + rest)[1..] == d[1..] + rest;
      LeadingDigitsPrefix(d[1..], rest);
    }
  }

  /** `parseInt` reads back the decimal form of every natural number. */
  lemma ParseIntDecimal(n: nat)
    ensures ParseInt(DecimalString(n)) == Some(n)
  {
    ParseIntDigits(DecimalString(n));
  }
}
