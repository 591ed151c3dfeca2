/**
 * The string operations the quiz applies to what the participant types:
 * ECMAScript `String.prototype.trim`, ASCII upper-casing, and the decimal
 * rendering of integers used in template strings.
 */
module Text {

  /** WhiteSpace and LineTerminator code points of ECMAScript: the characters `trim` removes. */
  predicate IsSpace(c: char) {
    || c == '\U{9}' || c == '\U{A}' || c == '\U{B}' || c == '\U{C}' || c == '\U{D}'
    || c == ' ' || c == '\U{A0}' || c == '\U{1680}'
    || ('\U{2000}' <= c <= '\U{200A}')
    || c == '\U{2028}' || c == '\U{2029}' || c == '\U{202F}' || c == '\U{205F}'
    || c == '\U{3000}' || c == '\U{FEFF}'
  }

  predicate AllSpace(s: string) {
    forall i :: 0 <= i < |s| ==> IsSpace(s[i])
  }

  /** True when `m` neither starts nor ends with whitespace. */
  predicate Tight(m: string) {
    |m| == 0 || (!IsSpace(m[0]) && !IsSpace(m[|m| - 1]))
  }

  lemma AllSpaceConcat(x: string, y: string)
    requires AllSpace(x) && AllSpace(y)
    ensures AllSpace(x + y)
  {
    forall k | 0 <= k < |x + y| ensures IsSpace((x + y)[k]) {
      if k < |x| { assert (x + y)[k] == x[k]; } else { assert (x + y)[k] == y[k - |x|]; }
    }
  }

  /** Length of the whitespace run at the front of `s`. */
  function LeadingSpace(s: string): (n: nat)
    ensures n <= |s|
    ensures AllSpace(s[..n])
    ensures n < |s| ==> !IsSpace(s[n])
  {
    if |s| == 0 || !IsSpace(s[0]) then 0
    else
      var n := 1 + LeadingSpace(s[1..]);
      assert s[..n] == [s[0]] + s[1..][..n - 1];
      n
  }

  /** Length of the whitespace run at the back of `s`. */
  function TrailingSpace(s: string): (n: nat)
    ensures n <= |s|
    ensures AllSpace(s[|s| - n..])
    ensures n < |s| ==> !IsSpace(s[|s| - 1 - n])
  {
    if |s| == 0 || !IsSpace(s[|s| - 1]) then 0
    else
      var init := s[..|s| - 1];
      var n := 1 + TrailingSpace(init);
      assert s[|s| - n..] == init[|init| - (n - 1)..] + [s[|s| - 1]];
      n
  }

  /** `s` is `p + m + q` where `p` and `q` are whitespace and `m` is tight. */
  ghost predicate TrimSplit(s: string, m: string, i: nat) {
    && i + |m| <= |s|
    && s[i..i + |m|] == m
    && AllSpace(s[..i])
    && AllSpace(s[i + |m|..])
    && Tight(m)
  }

  /** `String.prototype.trim`: drop whitespace from both ends. */
  function Trim(s: string): (r: string)
    ensures |r| <= |s|
    ensures Tight(r)
    ensures exists i: nat :: TrimSplit(s, r, i)
    ensures r == [] <==> AllSpace(s)
  {
    var a := LeadingSpace(s);
    var rest := s[a..];
    var b := TrailingSpace(rest);
    var r := rest[..|rest| - b];
    assert s[a..a + |r|] == r;
    assert s[a + |r|..] == rest[|rest| - b..];
    assert TrimSplit(s, r, a);
    assert r == [] ==> AllSpace(s) by {
      if r == [] {
        assert rest[|rest| - b..] == rest;
        assert s == s[..a] + rest;
        AllSpaceConcat(s[..a], rest);
      }
    }
    r
  }

  /** The first non-space character of `p + m + q` is at `|p|` when `m` is tight and non-empty. */
  lemma LeadingSpaceOfPadded(p: string, m: string, q: string)
    requires AllSpace(p) && |m| > 0 && !IsSpace(m[0])
    ensures LeadingSpace(p + m + q) == |p|
  {
    var s := p + m + q;
    var n := LeadingSpace(s);
    assert s[|p|] == m[0];
    forall i | 0 <= i < n ensures IsSpace(s[i]) {
      assert s[i] == s[..n][i];
    }
  }

  lemma TrailingSpaceOfPadded(m: string, q: string)
    requires AllSpace(q) && |m| > 0 && !IsSpace(m[|m| - 1])
    ensures TrailingSpace(m + q) == |q|
  {
    var s := m + q;
    var n := TrailingSpace(s);
    assert s[|m| - 1] == m[|m| - 1];
    forall i | |s| - n <= i < |s| ensures IsSpace(s[i]) {
      assert s[i] == s[|s| - n..][i - (|s| - n)];
    }
  }

  /**
   * Trimming is determined by the tight middle: whatever whitespace surrounds
   * a tight string `m`, trimming gives back exactly `m`.
   */
  lemma TrimUnique(p: string, m: string, q: string)
    requires AllSpace(p) && AllSpace(q) && Tight(m)
    ensures Trim(p + m + q) == m
  {
    var s := p + m + q;
    if |m| == 0 {
      assert AllSpace(s) by {
        forall i | 0 <= i < |s| ensures IsSpace(s[i]) {
          if i < |p| { assert s[i] == p[i]; } else { assert s[i] == q[i - |p|]; }
        }
      }
    } else {
      LeadingSpaceOfPadded(p, m, q);
      assert s[|p|..] == m + q;
      TrailingSpaceOfPadded(m, q);
      assert (m + q)[..|m|] == m;
    }
  }

  /** Splits `s` into the whitespace that `trim` removes on each side and the result. */
  lemma TrimDecompose(s: string) returns (p: string, q: string)
    ensures s == p + Trim(s) + q
    ensures AllSpace(p) && AllSpace(q)
  {
    var m := Trim(s);
    var i: nat :| TrimSplit(s, m, i);
    p, q := s[..i], s[i + |m|..];
    assert s == s[..i] + s[i..i + |m|] + s[i + |m|..];
  }

  lemma Regroup(a: string, b: string, c: string, d: string, e: string)
    ensures a + (b + c + d) + e == (a + b) + c + (d + e)
  {
  }

  /** Whitespace added around a string does not change what `trim` returns. */
  lemma TrimAbsorbsSpace(p: string, x: string, q: string)
    requires AllSpace(p) && AllSpace(q)
    ensures Trim(p + x + q) == Trim(x)
  {
    var m := Trim(x);
    var p', q' := TrimDecompose(x);
    var outer, inner := p + p', q' + q;
    assert p + x + q == outer + m + inner by {
      assert x == p' + m + q';
      Regroup(p, p', m, q', q);
    }
    AllSpaceConcat(p, p');
    AllSpaceConcat(q', q);
    TrimUnique(outer, m, inner);
  }

  /** `trim` is idempotent. */
  lemma TrimIdempotent(s: string)
    ensures Trim(Trim(s)) == Trim(s)
  {
    var m := Trim(s);
    var i: nat :| TrimSplit(s, m, i);
    assert m == [] + m + [];
    TrimUnique([], m, []);
  }

  /** `toUpperCase` restricted to ASCII: a..z become A..Z, everything else is kept. */
  function UpperChar(c: char): char {
    if 'a' <= c <= 'z' then (c as int - 32) as char else c
  }

  predicate IsLowerAscii(c: char) {
    'a' <= c <= 'z'
  }

  function Upper(s: string): (r: string)
    ensures |r| == |s|
    ensures forall i :: 0 <= i < |s| ==> r[i] == UpperChar(s[i])
    ensures forall i :: 0 <= i < |r| ==> !IsLowerAscii(r[i])
  {
    seq(|s|, i requires 0 <= i < |s| => UpperChar(s[i]))
  }

  lemma UpperConcat(x: string, y: string)
    ensures Upper(x + y) == Upper(x) + Upper(y)
  {
  }

  lemma UpperKeepsSpace(x: string)
    requires AllSpace(x)
    ensures Upper(x) == x
  {
  }

  lemma UpperCharSpace(c: char)
    ensures IsSpace(UpperChar(c)) <==> IsSpace(c)
  {
  }

  lemma UpperKeepsTight(m: string)
    requires Tight(m)
    ensures Tight(Upper(m))
  {
    if |m| > 0 {
      UpperCharSpace(m[0]);
      UpperCharSpace(m[|m| - 1]);
    }
  }

  /** Upper-casing keeps whitespace where it was, so it commutes with `trim`. */
  lemma UpperCommutesWithTrim(s: string)
    ensures Trim(Upper(s)) == Upper(Trim(s))
  {
    var m := Trim(s);
    var p, q := TrimDecompose(s);
    assert Upper(s) == p + Upper(m) + q by {
      UpperConcat(p, m);
      UpperConcat(p + m, q);
      UpperKeepsSpace(p);
      UpperKeepsSpace(q);
    }
    UpperKeepsTight(m);
    TrimUnique(p, Upper(m), q);
  }

  function Digit(d: int): (c: char)
    requires 0 <= d < 10
    ensures '0' <= c <= '9'
  {
    ('0' as int + d) as char
  }

  predicate IsDigits(s: string) {
    forall i :: 0 <= i < |s| ==> '0' <= s[i] <= '9'
  }

  /** Decimal rendering of a natural number, as `String(n)` prints it. */
  function NatToDecimal(n: nat): (r: string)
    ensures |r| >= 1 && IsDigits(r)
    ensures |r| > 1 ==> r[0] != '0'
  {
    if n < 10 then [Digit(n)] else NatToDecimal(n / 10) + [Digit(n % 10)]
  }

  /** Reads a string of decimal digits back as a number. */
  function DecimalValue(s: string): nat
    requires IsDigits(s)
  {
    if |s| == 0 then 0 else DecimalValue(s[..|s| - 1]) * 10 + (s[|s| - 1] as int - '0' as int)
  }

  /** Rendering a number in decimal and reading it back gives the number. */
  lemma {:induction false} DecimalRoundTrip(n: nat)
    ensures DecimalValue(NatToDecimal(n)) == n
  {
    if n >= 10 {
      var r := NatToDecimal(n);
      assert r[..|r| - 1] == NatToDecimal(n / 10);
      DecimalRoundTrip(n / 10);
    }
  }

  /** Decimal rendering of any integer, with a leading '-' for negatives. */
  function IntToDecimal(i: int): (r: string)
    ensures |r| >= 1
    ensures i < 0 <==> r[0] == '-'
    ensures i >= 0 ==> IsDigits(r) && DecimalValue(r) == i
    ensures i < 0 ==> IsDigits(r[1..]) && DecimalValue(r[1..]) == -i
    ensures var d := if i < 0 then r[1..] else r; |d| > 1 ==> d[0] != '0'
  {
    DecimalRoundTrip(if i < 0 then -i else i);
    if i < 0 then "-" + NatToDecimal(-i) else NatToDecimal(i)
  }
}
