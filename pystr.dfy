/** The Python `str` operations the program uses: literal `str.replace`,
    `rsplit('.')[-1]` and `int()` on a decimal string. */
module PyStr {
  import opened PySeq

  predicate StartsWith(s: string, p: string) {
    |p| <= |s| && s[..|p|] == p
  }

  /** `sub in s` */
  predicate Contains(s: string, sub: string) {
    exists i :: 0 <= i <= |s| && StartsWith(s[i..], sub)
  }

  /** `s.replace("", rep)`: `rep` before every character and at the end. */
  function Interleave(s: string, rep: string): (r: string)
    ensures |r| == |s| + (|s| + 1) * |rep|
  {
    if s == [] then rep else rep + [s[0]] + Interleave(s[1..], rep)
  }

  /** `s.replace(pat, rep)`: every non-overlapping occurrence of `pat`,
      scanning left to right, is replaced; the pattern is literal text. */
  function ReplaceAll(s: string, pat: string, rep: string): string
    decreases |s|
  {
    if pat == [] then Interleave(s, rep)
    else if StartsWith(s, pat) then rep + ReplaceAll(s[|pat|..], pat, rep)
    else if s == [] then []
    else [s[0]] + ReplaceAll(s[1..], pat, rep)
  }

  /** A string that does not contain a non-empty pattern is left unchanged. */
  lemma {:induction false} ReplaceAbsent(s: string, pat: string, rep: string)
    requires pat != [] && !Contains(s, pat)
    ensures ReplaceAll(s, pat, rep) == s
    decreases |s|
  {
    assert s[0..] == s;
    if s != [] {
      forall i | 0 <= i <= |s[1..]| ensures !StartsWith(s[1..][i..], pat) {
        assert s[1..][i..] == s[i + 1..];
      }
      ReplaceAbsent(s[1..], pat, rep);
      assert s == [s[0]] + s[1..];
    }
  }

  /** Every occurrence is replaced: a string made only of copies of the
      pattern becomes the same number of copies of the replacement. */
  function Repeat(s: string, n: nat): (r: string)
    ensures |r| == n * |s|
  {
    if n == 0 then [] else s + Repeat(s, n - 1)
  }

  lemma {:induction false} ReplaceRepeated(pat: string, rep: string, n: nat)
    requires pat != []
    ensures ReplaceAll(Repeat(pat, n), pat, rep) == Repeat(rep, n)
  {
    if n > 0 {
      var s := Repeat(pat, n);
      assert s[..|pat|] == pat;
      assert s[|pat|..] == Repeat(pat, n - 1);
      ReplaceRepeated(pat, rep, n - 1);
    }
  }

  /** `s.rsplit('.')[-1]`: the text after the last '.', or all of `s`. */
  function LastSegment(s: string): string {
    if s == [] then []
    else if s[|s| - 1] == '.' then []
    else LastSegment(s[..|s| - 1]) + [s[|s| - 1]]
  }

  /** The segment holds no '.', ends `s`, and is all of `s` or follows a '.'. */
  lemma {:induction false} LastSegmentMeaning(s: string)
    ensures var r := LastSegment(s);
      '.' !in r && |r| <= |s| && r == s[|s| - |r|..] && (|r| < |s| ==> s[|s| - |r| - 1] == '.')
  {
    if s != [] && s[|s| - 1] != '.' {
      var n := |s| - 1;
      LastSegmentMeaning(s[..n]);
      var r := LastSegment(s[..n]);
      assert LastSegment(s) == r + [s[n]];
      assert s[|s| - (|r| + 1)..] == s[..n][n - |r|..] + [s[n]];
      if |r| < n {
        assert s[..n][n - |r| - 1] == s[n - |r| - 1];
      }
    }
  }

  predicate IsDigit(c: char) {
    '0' <= c <= '9'
  }

  predicate AllDigits(s: string) {
    forall i :: 0 <= i < |s| ==> IsDigit(s[i])
  }

  function DigitValue(c: char): int
    requires IsDigit(c)
  {
    c as int - '0' as int
  }

  function DigitsValue(s: string): nat
    requires AllDigits(s)
  {
    if s == [] then 0 else DigitsValue(s[..|s| - 1]) * 10 + DigitValue(s[|s| - 1])
  }

  /** `int(s)` for a decimal literal with an optional sign. Python also
      accepts surrounding blanks and `_` separators; those inputs are
      rejected here. */
  function ParseInt(s: string): Option<int> {
    if |s| > 0 && (s[0] == '+' || s[0] == '-') then
      var t := s[1..];
      if |t| > 0 && AllDigits(t) then
        Some(if s[0] == '-' then -(DigitsValue(t) as int) else DigitsValue(t))
      else None
    else if |s| > 0 && AllDigits(s) then Some(DigitsValue(s))
    else None
  }

  /** `str(n)` for a natural number. */
  function Decimal(n: nat): (r: string)
    ensures |r| > 0 && AllDigits(r)
  {
    var d := ['0' + (n % 10) as char];
    if n < 10 then d else Decimal(n / 10) + d
  }

  lemma {:induction false} DecimalValue(n: nat)
    ensures DigitsValue(Decimal(n)) == n
  {
    var r := Decimal(n);
    if n >= 10 {
      DecimalValue(n / 10);
      assert r[..|r| - 1] == Decimal(n / 10);
    }
  }

  /** `int(str(n)) == n` */
  lemma ParseDecimal(n: nat)
    ensures ParseInt(Decimal(n)) == Some(n)
  {
    DecimalValue(n);
  }

  lemma {:induction false} LastSegmentAfterDot(p: string, t: string)
    requires '.' !in t
    ensures LastSegment(p + ['.'] + t) == t
    decreases |t|
  {
    var s := p + ['.'] + t;
    if t == [] {
    } else {
      var n := |t| - 1;
      assert s[..|s| - 1] == p + ['.'] + t[..n];
      LastSegmentAfterDot(p, t[..n]);
      assert t == t[..n] + [t[n]];
    }
  }

  /** The number at the end of a Yahoo team key `"<game>.l.<league>.t.<n>"`
      is recovered by `int(key.rsplit('.')[-1])`. */
  lemma TeamKeyNumber(prefix: string, n: nat)
    ensures ParseInt(LastSegment(prefix + ['.'] + Decimal(n))) == Some(n)
  {
    var d := Decimal(n);
    assert '.' !in d by {
      forall i | 0 <= i < |d| ensures d[i] != '.' {
        assert IsDigit(d[i]);
      }
    }
    LastSegmentAfterDot(prefix, d);
    ParseDecimal(n);
  }
}
