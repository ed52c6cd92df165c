/** The JavaScript string built-ins the inventory page relies on, stated over Dafny strings:
    `trim`, ASCII `toLowerCase`, `includes`, the default `sort` comparison, `parseInt` with no
    radix, and `Number.prototype.toString` for integers. */
module JsString {
  import opened Wrappers

  /** The ECMAScript WhiteSpace and LineTerminator code points: what `trim` strips and
      what `parseInt` skips before the number. */
  predicate IsWhitespace(c: char) {
    c == '\t' || c == '\n' || c == '\U{B}' || c == '\U{C}' || c == '\r' || c == ' '
    || c == '\U{A0}' || c == '\U{1680}' || ('\U{2000}' <= c <= '\U{200A}')
    || c == '\U{2028}' || c == '\U{2029}' || c == '\U{202F}' || c == '\U{205F}'
    || c == '\U{3000}' || c == '\U{FEFF}'
  }

  predicate AllWhitespace(s: string) {
    forall i :: 0 <= i < |s| ==> IsWhitespace(s[i])
  }

  /** `String.prototype.trimStart`: the suffix left after dropping leading whitespace. */
  function TrimStart(s: string): (r: string)
    ensures |r| <= |s| && r == s[|s| - |r|..]
    ensures AllWhitespace(s[..|s| - |r|])
    ensures r == [] || !IsWhitespace(r[0])
  {
    if s != [] && IsWhitespace(s[0]) then TrimStart(s[1..]) else s
  }

  /** `trimEnd`: the prefix left after dropping trailing whitespace. */
  function TrimEnd(s: string): (r: string)
    ensures |r| <= |s| && r == s[..|r|]
    ensures AllWhitespace(s[|r|..])
    ensures r == [] || !IsWhitespace(r[|r| - 1])
  {
    if s != [] && IsWhitespace(s[|s| - 1]) then TrimEnd(s[..|s| - 1]) else s
  }

  /** A string is all whitespace exactly when both halves of any split are. */
  lemma AllWhitespaceSplit(s: string, k: nat)
    requires k <= |s|
    ensures AllWhitespace(s) <==> AllWhitespace(s[..k]) && AllWhitespace(s[k..])
  {
    if AllWhitespace(s[..k]) && AllWhitespace(s[k..]) {
      forall i | 0 <= i < |s| ensures IsWhitespace(s[i]) {
        if i < k { assert s[..k][i] == s[i]; } else { assert s[k..][i - k] == s[i]; }
      }
    }
  }

  /** `String.prototype.trim`. */
  function Trim(s: string): (r: string)
    ensures r == [] <==> AllWhitespace(s)
    ensures r == [] || (!IsWhitespace(r[0]) && !IsWhitespace(r[|r| - 1]))
  {
    var t := TrimStart(s);
    var r := TrimEnd(t);
    AllWhitespaceSplit(s, |s| - |t|);
    assert s[|s| - |t|..] == t;
    AllWhitespaceSplit(t, |r|);
    assert t[..|r|] == r;
    assert r != [] ==> r[0] == t[0];
    r
  }

  /** `toLowerCase` on one character, restricted to the ASCII letters. */
  function LowerChar(c: char): (l: char)
    ensures !('A' <= l <= 'Z')
    ensures 'a' <= l <= 'z' || l == c
  {
    if 'A' <= c <= 'Z' then (c as int + 32) as char else c
  }

  /** `String.prototype.toLowerCase`, ASCII letters only. */
  function ToLower(s: string): (r: string)
    ensures |r| == |s|
    ensures forall i :: 0 <= i < |s| ==> r[i] == LowerChar(s[i])
  {
    if s == [] then [] else [LowerChar(s[0])] + ToLower(s[1..])
  }

  /** Lower-casing twice is lower-casing once. */
  lemma ToLowerIdempotent(s: string)
    ensures ToLower(ToLower(s)) == ToLower(s)
  {
    var l := ToLower(s);
    assert forall i :: 0 <= i < |l| ==> LowerChar(l[i]) == l[i];
  }

  /** `n` occurs in `h` starting at index `i`. */
  predicate OccursAt(h: string, n: string, i: int) {
    0 <= i && i + |n| <= |h| && h[i..i + |n|] == n
  }

  /** `String.prototype.includes`. */
  function Includes(h: string, n: string): bool
    decreases |h|
  {
    (|n| <= |h| && h[..|n|] == n) || (h != [] && Includes(h[1..], n))
  }

  /** Dropping the first character of the haystack shifts every later occurrence by one. */
  lemma OccursAtTail(h: string, n: string, i: int)
    requires h != [] && 0 < i
    ensures OccursAt(h, n, i) <==> OccursAt(h[1..], n, i - 1)
  {
    if i + |n| <= |h| {
      assert h[1..][i - 1..i - 1 + |n|] == h[i..i + |n|];
    }
  }

  /** `includes` holds exactly when the needle occurs at some index of the haystack. */
  lemma {:induction false} IncludesIff(h: string, n: string)
    ensures Includes(h, n) <==> exists i :: OccursAt(h, n, i)
    decreases |h|
  {
    if |n| <= |h| && h[..|n|] == n {
      assert OccursAt(h, n, 0);
    } else if h == [] {
      assert forall i :: !OccursAt(h, n, i);
    } else {
      IncludesIff(h[1..], n);
      if Includes(h[1..], n) {
        var i :| OccursAt(h[1..], n, i);
        OccursAtTail(h, n, i + 1);
      } else {
        forall i ensures !OccursAt(h, n, i) {
          if 0 < i {
            OccursAtTail(h, n, i);
          }
        }
      }
    }
  }

  /** Every string includes the empty string. */
  lemma IncludesEmpty(h: string)
    ensures Includes(h, "")
  {
  }

  /** A needle that is included starts with a character of the haystack. */
  lemma IncludesFirstChar(h: string, n: string)
    requires n != [] && Includes(h, n)
    ensures n[0] in h
  {
    IncludesIff(h, n);
    var i :| OccursAt(h, n, i);
    assert h[i] == n[0];
  }

  /** A needle whose first character is missing from the haystack is not included. */
  lemma NotIncludedWithoutFirstChar(h: string, n: string)
    requires n != [] && n[0] !in h
    ensures !Includes(h, n)
  {
    if Includes(h, n) {
      IncludesFirstChar(h, n);
    }
  }

  /** The default `Array.prototype.sort` order on strings: lexicographic by code unit. */
  predicate Less(a: string, b: string) {
    if a == [] then b != []
    else if b == [] then false
    else if a[0] != b[0] then a[0] < b[0]
    else Less(a[1..], b[1..])
  }

  lemma {:induction false} LessIrreflexive(a: string)
    ensures !Less(a, a)
  {
    if a != [] {
      LessIrreflexive(a[1..]);
    }
  }

  lemma {:induction false} LessTransitive(a: string, b: string, c: string)
    requires Less(a, b) && Less(b, c)
    ensures Less(a, c)
  {
    if a != [] && a[0] == b[0] && b[0] == c[0] {
      LessTransitive(a[1..], b[1..], c[1..]);
    }
  }

  lemma {:induction false} LessTotal(a: string, b: string)
    requires a != b
    ensures Less(a, b) || Less(b, a)
  {
    if a != [] && b != [] && a[0] == b[0] {
      assert a == [a[0]] + a[1..] && b == [b[0]] + b[1..];
      LessTotal(a[1..], b[1..]);
    }
  }

  /** The value of `c` as a digit of radix up to 36; 36 when it is no digit at all. */
  function DigitValue(c: char): (v: nat)
    ensures v <= 36
  {
    if '0' <= c <= '9' then c as int - '0' as int
    else if 'a' <= c <= 'z' then c as int - 'a' as int + 10
    else if 'A' <= c <= 'Z' then c as int - 'A' as int + 10
    else 36
  }

  predicate IsDigitOf(c: char, radix: nat) {
    DigitValue(c) < radix
  }

  /** The longest prefix of `s` made of digits of `radix`. */
  function DigitPrefix(s: string, radix: nat): (z: string)
    ensures |z| <= |s| && z == s[..|z|]
    ensures forall i :: 0 <= i < |z| ==> IsDigitOf(z[i], radix)
    ensures |z| == |s| || !IsDigitOf(s[|z|], radix)
  {
    if s != [] && IsDigitOf(s[0], radix) then [s[0]] + DigitPrefix(s[1..], radix) else []
  }

  /** The mathematical value of a digit string, most significant digit first. */
  function DigitsValue(z: string, radix: nat): nat {
    if z == [] then 0 else DigitsValue(z[..|z| - 1], radix) * radix + DigitValue(z[|z| - 1])
  }

  /** The unsigned part of `parseInt` with no radix: a `0x`/`0X` prefix selects radix 16,
      otherwise radix 10, and the value is that of the longest digit prefix. `None` stands
      for `NaN` (no digit at all). */
  function ParseMagnitude(u: string): Option<nat> {
    var hex := |u| >= 2 && u[0] == '0' && (u[1] == 'x' || u[1] == 'X');
    var radix := if hex then 16 else 10;
    var z := DigitPrefix(if hex then u[2..] else u, radix);
    if z == [] then None else Some(DigitsValue(z, radix))
  }

  /** `parseInt(s)` with no radix: skip leading whitespace, take an optional sign, then the
      magnitude. `None` stands for `NaN`. */
  function ParseInt(s: string): Option<int> {
    var t := TrimStart(s);
    var negative := t != [] && t[0] == '-';
    var u := if t != [] && (t[0] == '-' || t[0] == '+') then t[1..] else t;
    match ParseMagnitude(u)
    case None => None
    case Some(v) => Some(if negative then -(v as int) else v as int)
  }

  function DecimalDigit(d: nat): (c: char)
    requires d < 10
    ensures DigitValue(c) == d
  {
    ('0' as int + d) as char
  }

  /** `String(n)` for a non-negative integer: its decimal digits without leading zeros. */
  function NatToString(n: nat): string
    decreases n
  {
    if n < 10 then [DecimalDigit(n)] else NatToString(n / 10) + [DecimalDigit(n % 10)]
  }

  /** `String(n)` (and `n.toString()`) for an integer. */
  function IntToString(n: int): string {
    if n < 0 then "-" + NatToString(-n) else NatToString(n)
  }

  /** The decimal rendering is a non-empty digit string of value `n`, starting with `0`
      only for `n == 0`. */
  lemma {:induction false} NatToStringDigits(n: nat)
    ensures var r := NatToString(n);
      && r != []
      && (forall i :: 0 <= i < |r| ==> IsDigitOf(r[i], 10))
      && (r[0] == '0' ==> n == 0)
      && DigitsValue(r, 10) == n
    decreases n
  {
    if n >= 10 {
      NatToStringDigits(n / 10);
      var r := NatToString(n);
      assert r[..|r| - 1] == NatToString(n / 10);
    }
  }

  /** A decimal rendering is read back whole by the magnitude scan. */
  lemma DecimalMagnitudeParses(m: nat)
    ensures var d := NatToString(m);
      && d != [] && !IsWhitespace(d[0]) && d[0] != '-' && d[0] != '+'
      && ParseMagnitude(d) == Some(m)
  {
    var d := NatToString(m);
    NatToStringDigits(m);
    assert IsDigitOf(d[0], 10);
    assert d[0] == '0' ==> |d| == 1;
    assert DigitPrefix(d, 10) == d;
  }

  /** `parseInt` on a string that starts with a digit reads it as an unsigned magnitude. */
  lemma ParseIntUnsigned(d: string)
    requires d != [] && !IsWhitespace(d[0]) && d[0] != '-' && d[0] != '+'
    ensures ParseInt(d) == (match ParseMagnitude(d) case None => None case Some(v) => Some(v as int))
  {
    assert TrimStart(d) == d;
  }

  /** `parseInt` on a minus sign followed by a magnitude negates it. */
  lemma ParseIntNegative(d: string)
    requires d != [] && !IsWhitespace(d[0]) && d[0] != '-' && d[0] != '+'
    ensures ParseInt(['-'] + d) == (match ParseMagnitude(d) case None => None case Some(v) => Some(-(v as int)))
  {
    var s := ['-'] + d;
    assert !IsWhitespace(s[0]);
    assert TrimStart(s) == s;
    assert s[1..] == d;
  }

  /** `parseInt(String(n)) === n` for every integer `n`. */
  lemma ParseIntRoundTrip(n: int)
    ensures ParseInt(IntToString(n)) == Some(n)
  {
    var m: nat := if n < 0 then -n else n;
    var d := NatToString(m);
    DecimalMagnitudeParses(m);
    if n < 0 {
      assert IntToString(n) == ['-'] + d;
      ParseIntNegative(d);
    } else {
      assert IntToString(n) == d;
      ParseIntUnsigned(d);
    }
  }

  /** Distinct integers render to distinct strings. */
  lemma IntToStringInjective(a: int, b: int)
    requires IntToString(a) == IntToString(b)
    ensures a == b
  {
    ParseIntRoundTrip(a);
    ParseIntRoundTrip(b);
  }
}
