/**
 * The regular expressions of the scanner's token table, each written out as an
 * explicit matcher over ASCII text. A matcher returns the text of the whole
 * match (capture group 0), or the empty string when the pattern does not match,
 * exactly as the scanner reads `captures(..).get(0)`.
 */
module Patterns {

  predicate IsDigit(c: char) { '0' <= c <= '9' }

  predicate IsAlpha(c: char) { 'a' <= c <= 'z' || 'A' <= c <= 'Z' }

  /** The class `[ \n\t]` of the IGNORE pattern. */
  predicate IsBlank(c: char) { c == ' ' || c == '\n' || c == '\t' }

  predicate IsAscii(s: string) { forall i :: 0 <= i < |s| ==> s[i] < 128 as char }

  predicate AllDigits(s: string) { forall i :: 0 <= i < |s| ==> IsDigit(s[i]) }

  /** Length of the run of decimal digits that starts `s`. */
  function LeadingDigits(s: string): (n: nat)
    ensures n <= |s| && AllDigits(s[..n])
    ensures n < |s| ==> !IsDigit(s[n])
  {
    if s == [] || !IsDigit(s[0]) then 0 else 1 + LeadingDigits(s[1..])
  }

  /** Length of the run of decimal digits that ends `s`. */
  function TrailingDigits(s: string): (n: nat)
    ensures n <= |s| && AllDigits(s[|s| - n..])
    ensures n < |s| ==> !IsDigit(s[|s| - n - 1])
  {
    if s == [] || !IsDigit(s[|s| - 1]) then 0 else 1 + TrailingDigits(s[..|s| - 1])
  }

  /** The run of leading digits is exactly `q` long when it is followed by a non-digit or the end. */
  lemma {:induction false} LeadingDigitsExact(s: string, q: nat)
    requires q <= |s| && AllDigits(s[..q])
    requires q < |s| ==> !IsDigit(s[q])
    ensures LeadingDigits(s) == q
  {
    if q > 0 {
      assert IsDigit(s[..q][0]);
      assert s[1..][..q - 1] == s[..q][1..];
      LeadingDigitsExact(s[1..], q - 1);
    }
  }

  /** The run of trailing digits starts exactly at `q` when it is preceded by a non-digit or the start. */
  lemma {:induction false} TrailingDigitsExact(s: string, q: nat)
    requires q <= |s| && AllDigits(s[q..])
    requires q > 0 ==> !IsDigit(s[q - 1])
    ensures TrailingDigits(s) == |s| - q
  {
    if q < |s| {
      assert IsDigit(s[q..][|s| - q - 1]);
      var t := s[..|s| - 1];
      assert t[q..] == s[q..][..|s| - q - 1];
      TrailingDigitsExact(t, q);
    }
  }

  // ---------------------------------------------------------------------------
  // The NUM pattern `^([0-9]+(\.[0-9]+)?)|(\.[0-9]+)$`.
  // Alternation binds loosest, so the pattern is the alternative of a
  // start-anchored decimal and an end-anchored fraction.

  /** Text matched by the first alternative `[0-9]+(\.[0-9]+)?` as a whole. */
  predicate IsDecimal(x: string) {
    var d := LeadingDigits(x);
    0 < d && (d == |x| || (x[d] == '.' && d + 1 < |x| && AllDigits(x[d + 1..])))
  }

  /** Text matched by the second alternative `\.[0-9]+` as a whole. */
  predicate IsFraction(x: string) {
    1 < |x| && x[0] == '.' && AllDigits(x[1..])
  }

  /**
   * Leftmost-first match of the NUM pattern in `w`. When `w` starts with a digit
   * the first alternative matches at position 0 and takes the greedy prefix
   * (digits, then a fraction when one follows). Otherwise only the second
   * alternative can match, and only where `.digits` runs to the end of `w`.
   */
  function MatchNumber(w: string): (r: string)
    ensures |r| <= |w|
  {
    var d := LeadingDigits(w);
    if 0 < d then
      if d + 1 < |w| && w[d] == '.' && IsDigit(w[d + 1]) then
        w[..d + 1 + LeadingDigits(w[d + 1..])]
      else
        w[..d]
    else
      var t := TrailingDigits(w);
      if 0 < t < |w| && w[|w| - t - 1] == '.' then w[|w| - t - 1..]
      else ""
  }

  /** A NUM match is empty, a decimal that starts the window, or a fraction that ends it. */
  lemma MatchNumberShape(w: string)
    ensures var r := MatchNumber(w);
      r == "" || (r == w[..|r|] && IsDecimal(r)) || (r == w[|w| - |r|..] && IsFraction(r))
  {
    var d := LeadingDigits(w);
    if 0 < d {
      DecimalPrefixShape(w, d);
    } else {
      var t := TrailingDigits(w);
      if 0 < t < |w| && w[|w| - t - 1] == '.' {
        var r := w[|w| - t - 1..];
        assert r[1..] == w[|w| - t..];
      }
    }
  }

  /** Helper of MatchNumberShape: the greedy prefix taken after `d` leading digits is a decimal. */
  lemma DecimalPrefixShape(w: string, d: nat)
    requires 0 < d == LeadingDigits(w)
    ensures var r := MatchNumber(w); r == w[..|r|] && IsDecimal(r)
  {
    if d + 1 < |w| && w[d] == '.' && IsDigit(w[d + 1]) {
      var tail := w[d + 1..];
      var e := LeadingDigits(tail);
      assert 0 < e by { assert IsDigit(tail[0]); }
      var r := w[..d + 1 + e];
      assert MatchNumber(w) == r;
      assert r[..d] == w[..d];
      LeadingDigitsExact(r, d);
      assert r[d + 1..] == tail[..e];
    } else {
      assert MatchNumber(w) == w[..d];
      LeadingDigitsExact(w[..d], d);
    }
  }

  /**
   * The regular-expression meaning of MatchNumber: on a window that starts
   * with a digit the match is the LONGEST decimal prefix; otherwise it is the
   * fraction that ends the window, and there is a match exactly when some
   * suffix of the window is a fraction.
   */
  lemma NumberMatchIsLeftmostFirst(w: string)
    ensures var r := MatchNumber(w);
      (0 < |w| && IsDigit(w[0]) ==>
         r != "" && r == w[..|r|] && IsDecimal(r) &&
         forall n :: |r| < n <= |w| ==> !IsDecimal(w[..n]))
    ensures var r := MatchNumber(w);
      (!(0 < |w| && IsDigit(w[0])) ==>
         (r != "" <==> exists p :: 0 <= p < |w| && IsFraction(w[p..])) &&
         (r != "" ==> r == w[|w| - |r|..] && IsFraction(r)))
  {
    var r := MatchNumber(w);
    var d := LeadingDigits(w);
    MatchNumberShape(w);
    if 0 < |w| && IsDigit(w[0]) {
      assert 0 < d;
      forall n | |r| < n <= |w|
        ensures !IsDecimal(w[..n])
      {
        LongerPrefixIsNotDecimal(w, n);
      }
    } else {
      assert d == 0;
      if r != "" {
        assert IsFraction(w[|w| - |r|..]);
      }
      if exists p :: 0 <= p < |w| && IsFraction(w[p..]) {
        var p :| 0 <= p < |w| && IsFraction(w[p..]);
        assert AllDigits(w[p + 1..]) by { assert w[p + 1..] == w[p..][1..]; }
        TrailingDigitsExact(w, p + 1);
      }
    }
  }

  /** Helper of NumberMatchIsLeftmostFirst: no prefix longer than the greedy match is a decimal. */
  lemma LongerPrefixIsNotDecimal(w: string, n: nat)
    requires 0 < |w| && IsDigit(w[0])
    requires |MatchNumber(w)| < n <= |w|
    ensures !IsDecimal(w[..n])
  {
    var d := LeadingDigits(w);
    var x := w[..n];
    assert x[..d] == w[..d];
    LeadingDigitsExact(x, d);
    if d + 1 < |w| && w[d] == '.' && IsDigit(w[d + 1]) {
      var e := LeadingDigits(w[d + 1..]);
      assert x[d + 1..][e] == w[d + 1..][e];
      assert !AllDigits(x[d + 1..]);
    } else if d + 1 < n && x[d] == '.' {
      assert x[d + 1..][0] == w[d + 1];
    }
  }

  // ---------------------------------------------------------------------------
  // The remaining patterns are anchored at both ends, so they match the whole
  // window or nothing.

  /** `^[a-zA-Z]+[a-zA-Z0-9]*$`: a letter followed by letters and digits. */
  predicate IsIdentifier(x: string) {
    0 < |x| && IsAlpha(x[0]) && forall i :: 0 < i < |x| ==> IsAlpha(x[i]) || IsDigit(x[i])
  }

  function MatchIdentifier(w: string): (r: string)
  {
    if IsIdentifier(w) then w else ""
  }

  /** `^[ \n\t]$`: exactly one blank character. */
  function MatchBlank(w: string): (r: string)
  {
    if |w| == 1 && IsBlank(w[0]) then w else ""
  }

  /** `^X$` for a pattern X that spells a fixed string. */
  function MatchLiteral(lit: string, w: string): (r: string)
  {
    if w == lit then w else ""
  }
}
