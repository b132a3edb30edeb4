/** The string half of `Currency.formatNumber`: it starts from the fixed-point
    rendering of the amount (what `toFixed(maxDecimals)` produced), substitutes
    the decimal separator and trims trailing zero digits down to `minDecimals`. */
module NumberFormat {

  predicate IsDigit(c: char) { '0' <= c <= '9' }

  /** `sub` occurs in `s` starting at index `i`. */
  predicate MatchesAt(s: string, sub: string, i: int)
  {
    0 <= i && i + |sub| <= |s| && s[i..i + |sub|] == sub
  }

  /** The search behind JavaScript's `s.indexOf(sub)`, which is this with
      `from` 0: the first index at or after `from` where `sub` occurs, or -1
      when there is none. (For other starting points JavaScript differs on an
      empty `sub` past the end, which the model never asks for.) */
  function IndexOfFrom(s: string, sub: string, from: nat): (r: int)
    ensures r == -1 || (from <= r && MatchesAt(s, sub, r))
    ensures forall j :: from <= j && (r == -1 || j < r) ==> !MatchesAt(s, sub, j)
    decreases |s| - from
  {
    if from + |sub| > |s| then -1
    else if s[from..from + |sub|] == sub then from
    else IndexOfFrom(s, sub, from + 1)
  }

  /** JavaScript `s.indexOf(sub)`; the empty string is found at 0. */
  function IndexOf(s: string, sub: string): int
  {
    IndexOfFrom(s, sub, 0)
  }

  /** `s.replace(/\./, sep)`: the first '.' becomes `sep`; a string without
      '.' is returned as it is. */
  function ReplaceFirstDot(s: string, sep: string): (r: string)
    ensures '.' !in s ==> r == s
    ensures forall i :: 0 <= i < |s| && s[i] == '.' && '.' !in s[..i] ==>
              r == s[..i] + sep + s[i + 1..]
  {
    FirstDot(s);
    var i := IndexOf(s, ".");
    if i < 0 then s else s[..i] + sep + s[i + 1..]
  }

  /** The trimming loop of `formatNumber` as a specification: drop a trailing
      '0' while the last index is still beyond `bound`
      (`indexOf(separator) + minDecimals`). An empty string has nothing at its
      last index (JavaScript reads `undefined`), so trimming stops there. */
  function TrimTrailingZeros(s: string, bound: int): (r: string)
    // the result is a prefix of the input
    ensures |r| <= |s| && r == s[..|r|]
    // only '0' characters were removed
    ensures forall i :: |r| <= i < |s| ==> s[i] == '0'
    // nothing at or before index `bound` was cut
    ensures |r| == |s| || bound + 1 <= |r|
    // trimming stopped for a reason: the bound was reached, or the last
    // character is not '0', or nothing is left
    ensures |r| <= bound + 1 || r == [] || r[|r| - 1] != '0'
    decreases |s|
  {
    if 0 < |s| && bound < |s| - 1 && s[|s| - 1] == '0' then
      TrimTrailingZeros(s[..|s| - 1], bound)
    else
      s
  }

  /** The four properties in the contract of `TrimTrailingZeros` determine its
      result: any prefix that has them is that result. */
  lemma {:induction false} TrimTrailingZerosUnique(s: string, bound: int, p: string)
    requires |p| <= |s| && p == s[..|p|]
    requires forall i :: |p| <= i < |s| ==> s[i] == '0'
    requires |p| == |s| || bound + 1 <= |p|
    requires |p| <= bound + 1 || p == [] || p[|p| - 1] != '0'
    ensures p == TrimTrailingZeros(s, bound)
  {
    var r := TrimTrailingZeros(s, bound);
    assert |r| == |p|;
  }

  /** Trimming twice is trimming once. */
  lemma {:induction false} TrimTrailingZerosIdempotent(s: string, bound: int)
    ensures TrimTrailingZeros(TrimTrailingZeros(s, bound), bound) == TrimTrailingZeros(s, bound)
  {
    var r := TrimTrailingZeros(s, bound);
    assert r[..|r|] == r;
    TrimTrailingZerosUnique(r, bound, r);
  }

  /** What `formatNumber` returns for the fixed-point string `fixed`; both
      bounds default to 2 as in the source. */
  function Formatted(fixed: string, separator: string, maxDecimals: int := 2, minDecimals: int := 2): (r: string)
    ensures minDecimals >= maxDecimals ==> r == ReplaceFirstDot(fixed, separator)
    ensures var s := ReplaceFirstDot(fixed, separator);
            |r| <= |s| && r == s[..|r|] && (forall i :: |r| <= i < |s| ==> s[i] == '0')
    ensures var s := ReplaceFirstDot(fixed, separator);
            |r| == |s| || IndexOf(s, separator) + minDecimals + 1 <= |r|
    ensures var s := ReplaceFirstDot(fixed, separator);
            minDecimals >= maxDecimals || |r| <= IndexOf(s, separator) + minDecimals + 1 ||
            r == [] || r[|r| - 1] != '0'
  {
    var s := ReplaceFirstDot(fixed, separator);
    if minDecimals >= maxDecimals then s
    else TrimTrailingZeros(s, IndexOf(s, separator) + minDecimals)
  }

  /** `formatNumber` after `toFixed`: the source's loop, which keeps `endIndex`
      at the last index of `formatted` and drops one trailing '0' per turn. */
  method FormatNumber(fixed: string, separator: string, maxDecimals: int := 2, minDecimals: int := 2)
    returns (formatted: string)
    ensures formatted == Formatted(fixed, separator, maxDecimals, minDecimals)
  {
    formatted := ReplaceFirstDot(fixed, separator);
    if minDecimals >= maxDecimals {
      return;
    }
    ghost var substituted := formatted;
    var startLength := IndexOf(formatted, separator) + minDecimals;
    var endIndex := |formatted| - 1;
    while startLength < endIndex
      invariant endIndex == |formatted| - 1
      invariant |formatted| <= |substituted| && formatted == substituted[..|formatted|]
      invariant TrimTrailingZeros(formatted, startLength) == TrimTrailingZeros(substituted, startLength)
      decreases |formatted|
    {
      // an index below 0 reads `undefined`, which is not "0"
      if endIndex < 0 || formatted[endIndex] != '0' {
        break;
      }
      formatted := formatted[..|formatted| - 1];
      endIndex := endIndex - 1;
    }
  }

  /** A fixed-point rendering as `toFixed` produces it for a finite amount
      below 1e21 and at least one decimal: an optional '-', integer digits,
      '.', and the fraction digits. */
  predicate IsIntegerPart(s: string)
  {
    |s| > 0 && (forall i :: 0 <= i < |s| ==> IsDigit(s[i]) || (i == 0 && s[i] == '-'))
  }

  predicate AllDigits(s: string)
  {
    forall i :: 0 <= i < |s| ==> IsDigit(s[i])
  }

  /** On a well-formed fixed-point string and a one-character separator that is
      neither a digit nor '-' and lies in the Basic Multilingual Plane (so that
      it is one UTF-16 unit, as JavaScript counts), the result is the integer part, the separator and
      a prefix of the fraction digits: all of them when `minDecimals >=
      maxDecimals`, otherwise at least `minDecimals` of them, with only '0's
      dropped and a non-'0' last kept digit unless exactly `minDecimals` remain. */
  lemma FormattedFixedPoint(intPart: string, frac: string, c: char, maxDecimals: int, minDecimals: int)
    requires IsIntegerPart(intPart) && AllDigits(frac) && |frac| == maxDecimals >= 1
    requires !IsDigit(c) && c != '-' && (c as int) < 0x1_0000
    requires 0 <= minDecimals
    ensures var r := Formatted(intPart + "." + frac, [c], maxDecimals, minDecimals);
            var d := |r| - |intPart| - 1;
            0 <= d <= |frac| &&
            r == intPart + [c] + frac[..d] &&
            (minDecimals >= maxDecimals ==> d == maxDecimals) &&
            (minDecimals < maxDecimals ==> minDecimals <= d) &&
            (forall i :: d <= i < |frac| ==> frac[i] == '0') &&
            (minDecimals >= maxDecimals || d == minDecimals || frac[d - 1] != '0')
  {
    var n := |intPart|;
    var s := intPart + [c] + frac;
    SubstitutedFixedPoint(intPart, frac, c);
    var r := Formatted(intPart + "." + frac, [c], maxDecimals, minDecimals);
    var d := |r| - n - 1;
    assert r == s[..|r|];
    if |r| <= n {
      // the separator itself would have been removed, but it is not a '0'
      assert false;
    }
    PrefixOfFixedPoint(intPart, frac, c, d);
    assert r == intPart + [c] + frac[..d];
    forall i | d <= i < |frac| ensures frac[i] == '0' {
      assert s[n + 1 + i] == frac[i];
    }
    if minDecimals < maxDecimals && d != minDecimals && d > 0 {
      assert r[|r| - 1] == frac[d - 1];
    }
  }

  /** Substituting the separator in a well-formed fixed-point string, and where
      `indexOf` then finds the separator. */
  lemma SubstitutedFixedPoint(intPart: string, frac: string, c: char)
    requires IsIntegerPart(intPart) && AllDigits(frac)
    requires !IsDigit(c) && c != '-'
    ensures ReplaceFirstDot(intPart + "." + frac, [c]) == intPart + [c] + frac
    ensures IndexOf(intPart + [c] + frac, [c]) == |intPart|
  {
    var n := |intPart|;
    var fixed := intPart + "." + frac;
    var s := intPart + [c] + frac;
    FirstOccurrence(fixed, '.', n);
    assert fixed[..n] == intPart && fixed[n + 1..] == frac;
    FirstOccurrence(s, c, n);
  }

  /** Where `indexOf` finds the first '.', if there is one. */
  lemma FirstDot(s: string)
    ensures '.' !in s ==> IndexOf(s, ".") == -1
    ensures forall i :: 0 <= i < |s| && s[i] == '.' && '.' !in s[..i] ==> IndexOf(s, ".") == i
  {
    var r := IndexOf(s, ".");
    if r >= 0 {
      assert s[r..r + 1] == "." && s[r] == '.';
    }
    forall i | 0 <= i < |s| && s[i] == '.' && '.' !in s[..i]
      ensures IndexOf(s, ".") == i
    {
      forall j | 0 <= j < i ensures s[j] != '.' {
        assert s[..i][j] == s[j];
      }
      FirstOccurrence(s, '.', i);
    }
  }

  /** `indexOf` of a one-character string finds its first occurrence. */
  lemma FirstOccurrence(s: string, c: char, n: nat)
    requires n < |s| && s[n] == c
    requires forall j :: 0 <= j < n ==> s[j] != c
    ensures IndexOf(s, [c]) == n
  {
    assert MatchesAt(s, [c], n) by { assert s[n..n + 1] == [c]; }
    forall j | 0 <= j < n ensures !MatchesAt(s, [c], j) {
      assert s[j..j + 1] == [s[j]];
    }
  }

  lemma PrefixOfFixedPoint(intPart: string, frac: string, c: char, d: nat)
    requires d <= |frac|
    ensures (intPart + [c] + frac)[..|intPart| + 1 + d] == intPart + [c] + frac[..d]
  {
    var s := intPart + [c] + frac;
    var t := intPart + [c] + frac[..d];
    assert |s[..|intPart| + 1 + d]| == |t|;
    forall k | 0 <= k < |t| ensures s[k] == t[k] {
      if k > |intPart| {
        assert s[k] == frac[k - |intPart| - 1];
      }
    }
  }

  /** With `minDecimals` 0 every fraction digit can go and the separator stays
      behind as the last character. */
  lemma TrailingSeparatorKept()
    ensures Formatted("1.00", ".", 2, 0) == "1."
  {
    var fixed := "1.00";
    assert fixed[1] == '.' && fixed[0] != '.';
    FirstOccurrence(fixed, '.', 1);
    assert ReplaceFirstDot(fixed, ".") == fixed;
    assert TrimTrailingZeros(fixed, 1) == "1.";
  }

  /** Trailing zeros go down to `minDecimals` digits and no further. */
  lemma TrimsDownToMinDecimals()
    ensures Formatted("1.5000", ".", 4, 2) == "1.50"
  {
    FirstOccurrence("1.5000", '.', 1);
    assert ReplaceFirstDot("1.5000", ".") == "1.5000";
    assert TrimTrailingZeros("1.5000", 3) == "1.50";
  }

  /** Digits that are not '0' stay, and the separator is substituted. */
  lemma KeepsNonZeroDigits()
    ensures Formatted("1.2345", ",", 4, 2) == "1,2345"
  {
    FirstOccurrence("1.2345", '.', 1);
    assert "1.2345"[..1] == "1" && "1.2345"[2..] == "2345";
    assert ReplaceFirstDot("1.2345", ",") == "1,2345";
    FirstOccurrence("1,2345", ',', 1);
  }

  /** Equal bounds keep every digit. */
  lemma EqualBoundsKeepAllDigits()
    ensures Formatted("1.00", ".", 2, 2) == "1.00"
  {
    FirstOccurrence("1.00", '.', 1);
    assert ReplaceFirstDot("1.00", ".") == "1.00";
  }

  /** A separator of several characters counts against `minDecimals`: the cut
      is bounded at its first index, so fewer fraction digits stay. */
  lemma MultiCharacterSeparator()
    ensures Formatted("1.5000", ", ", 4, 2) == "1, 5"
    ensures Formatted("1.5000", ".") == "1.5000"
  {
    FirstOccurrence("1.5000", '.', 1);
    assert ReplaceFirstDot("1.5000", ", ") == "1, 5000";
    assert MatchesAt("1, 5000", ", ", 1) by { assert "1, 5000"[1..3] == ", "; }
    assert !MatchesAt("1, 5000", ", ", 0) by { assert "1, 5000"[0..2] != ", "; }
    assert IndexOf("1, 5000", ", ") == 1;
    assert TrimTrailingZeros("1, 5000", 3) == "1, 5";
  }
}
