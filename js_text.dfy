/**
 * The few pieces of JavaScript's string semantics the client code relies on:
 * the white-space class shared by the regex escape `\s` and
 * `String.prototype.trim`, trimming, decimal rendering of numbers and
 * `Array.prototype.join`.
 */
module JsText {

  /** ECMAScript WhiteSpace and LineTerminator code points, i.e. regex `\s`. */
  predicate IsWhitespace(c: char) {
    || c == '\t' || c == '\n' || c == '\U{B}' || c == '\U{C}' || c == '\r' || c == ' '
    || c == '\U{A0}' || c == '\U{1680}' || ('\U{2000}' <= c <= '\U{200A}')
    || c == '\U{2028}' || c == '\U{2029}' || c == '\U{202F}' || c == '\U{205F}'
    || c == '\U{3000}' || c == '\U{FEFF}'
  }

  predicate AllWhitespace(s: string) {
    forall i :: 0 <= i < |s| ==> IsWhitespace(s[i])
  }

  /** No white space at either end (the shape of everything `trim` returns). */
  predicate Unpadded(s: string) {
    s == [] || (!IsWhitespace(s[0]) && !IsWhitespace(s[|s| - 1]))
  }

  /** The end of the run of white space that starts at `from`. */
  function SkipWhitespace(s: string, from: nat): (k: nat)
    requires from <= |s|
    ensures from <= k <= |s|
    ensures forall i :: from <= i < k ==> IsWhitespace(s[i])
    ensures k < |s| ==> !IsWhitespace(s[k])
    decreases |s| - from
  {
    if from == |s| || !IsWhitespace(s[from]) then from else SkipWhitespace(s, from + 1)
  }

  /** The start of the run of white space that ends at `hi`, not going below `lo`. */
  function BackOverWhitespace(s: string, lo: nat, hi: nat): (p: nat)
    requires lo <= hi <= |s|
    ensures lo <= p <= hi
    ensures forall i :: p <= i < hi ==> IsWhitespace(s[i])
    ensures lo < p ==> !IsWhitespace(s[p - 1])
    decreases hi - lo
  {
    if hi == lo || !IsWhitespace(s[hi - 1]) then hi else BackOverWhitespace(s, lo, hi - 1)
  }

  /** `String.prototype.trim`. */
  function Trim(s: string): (r: string)
    ensures |r| <= |s|
    ensures Unpadded(r)
  {
    var a := SkipWhitespace(s, 0);
    s[a..BackOverWhitespace(s, a, |s|)]
  }

  /**
   * Trim is determined by where the white space ends: whenever `s[a..b]` is
   * unpadded and only white space lies outside it, trimming `s` yields it.
   */
  lemma TrimIsCore(s: string, a: nat, b: nat)
    requires a <= b <= |s|
    requires AllWhitespace(s[..a]) && AllWhitespace(s[b..])
    requires Unpadded(s[a..b])
    ensures Trim(s) == s[a..b]
  {
    var k := SkipWhitespace(s, 0);
    if a == b {
      assert forall i :: 0 <= i < |s| ==> IsWhitespace(s[i]) by {
        forall i | 0 <= i < |s| ensures IsWhitespace(s[i]) {
          if i < a { assert s[..a][i] == s[i]; } else { assert s[b..][i - b] == s[i]; }
        }
      }
      assert k == |s|;
    } else {
      assert !IsWhitespace(s[a]) by { assert s[a..b][0] == s[a]; }
      assert !IsWhitespace(s[b - 1]) by { assert s[a..b][b - a - 1] == s[b - 1]; }
      assert forall i :: 0 <= i < a ==> IsWhitespace(s[i]) by {
        forall i | 0 <= i < a ensures IsWhitespace(s[i]) { assert s[..a][i] == s[i]; }
      }
      assert forall i :: b <= i < |s| ==> IsWhitespace(s[i]) by {
        forall i | b <= i < |s| ensures IsWhitespace(s[i]) { assert s[b..][i - b] == s[i]; }
      }
    }
  }

  /** A slice of the middle part of `x + m + y` is the same slice of `m`. */
  lemma MiddleSlice(x: string, m: string, y: string, i: nat, j: nat)
    requires i <= j <= |m|
    ensures (x + m + y)[|x| + i..|x| + j] == m[i..j]
  {
    var s := x + m + y;
    forall k | 0 <= k < j - i
      ensures s[|x| + i..|x| + j][k] == m[i..j][k]
    {
      assert s[|x| + i + k] == m[i + k];
    }
  }

  lemma WhitespaceSlice(s: string, lo: nat, hi: nat)
    requires lo <= hi <= |s| && forall i :: lo <= i < hi ==> IsWhitespace(s[i])
    ensures AllWhitespace(s[lo..hi])
  {
    forall k | 0 <= k < hi - lo
      ensures IsWhitespace(s[lo..hi][k])
    {
      assert s[lo..hi][k] == s[lo + k];
    }
  }

  lemma UnpaddedSlice(s: string, lo: nat, hi: nat)
    requires lo <= hi <= |s| && (lo < hi ==> !IsWhitespace(s[lo]) && !IsWhitespace(s[hi - 1]))
    ensures Unpadded(s[lo..hi])
  {
    if lo < hi {
      assert s[lo..hi][0] == s[lo] && s[lo..hi][hi - lo - 1] == s[hi - 1];
    }
  }

  /** The value of a decimal digit character. */
  function DigitValue(c: char): int {
    c as int - '0' as int
  }

  /** The number a string of decimal digits denotes, most significant digit first. */
  function DecimalValue(s: string): int {
    if s == [] then 0 else DecimalValue(s[..|s| - 1]) * 10 + DigitValue(s[|s| - 1])
  }

  function DigitChar(d: nat): (c: char)
    requires d < 10
    ensures '0' <= c <= '9' && DigitValue(c) == d
  {
    ['0', '1', '2', '3', '4', '5', '6', '7', '8', '9'][d]
  }

  /** Decimal rendering of a natural number, most significant digit first. */
  function NatToString(n: nat): (r: string)
    ensures 1 <= |r|
    ensures forall i :: 0 <= i < |r| ==> '0' <= r[i] <= '9'
    ensures (r[0] == '0') == (n == 0)
    ensures n == 0 ==> r == "0"
    ensures DecimalValue(r) == n
    decreases n
  {
    if n < 10 then
      var r := [DigitChar(n)];
      assert r[..0] == [];
      r
    else
      var p := NatToString(n / 10);
      var r := p + [DigitChar(n % 10)];
      assert r[..|r| - 1] == p;
      r
  }

  /** Different numbers have different decimal renderings. */
  lemma NatToStringInjective(m: nat, n: nat)
    requires NatToString(m) == NatToString(n)
    ensures m == n
  {
  }

  /** `String(n)` for an integer number. */
  function IntToString(n: int): string {
    if n < 0 then "-" + NatToString(-n) else NatToString(n)
  }

  /** `parts.join(sep)`. */
  function Join(parts: seq<string>, sep: string): (r: string)
    ensures |parts| == 1 ==> r == parts[0]
    ensures (forall i :: 0 <= i < |parts| ==> |parts[i]| > 0) && 0 < |parts| ==> |r| > 0
  {
    if |parts| == 0 then "" else if |parts| == 1 then parts[0] else parts[0] + sep + Join(parts[1..], sep)
  }
}
