/** Optional values, for lookups and pattern searches that may find nothing. */
module Wrappers {

  datatype Option<+T> = None | Some(value: T)
}

/**
 Character classes and the few string operations the footer rewriter uses:
 Python's `str.rstrip()`, prefix and suffix tests, digit runs, line splitting,
 subsequences and the code-point ordering of strings.
 */
module Text {
  import opened Wrappers

  /** The characters Python's `str.isspace()` accepts; `\s` in a `str` pattern
      matches the same set. */
  predicate IsSpace(ch: char) {
    || ('\t' <= ch <= '\r')
    || ('\U{1C}' <= ch <= ' ')
    || ch == '\U{85}' || ch == '\U{A0}' || ch == '\U{1680}'
    || ('\U{2000}' <= ch <= '\U{200A}')
    || ch == '\U{2028}' || ch == '\U{2029}' || ch == '\U{202F}'
    || ch == '\U{205F}' || ch == '\U{3000}'
  }

  predicate AllSpace(s: string) {
    forall i :: 0 <= i < |s| ==> IsSpace(s[i])
  }

  /** True iff `s` is empty or its last character is not whitespace. */
  predicate NoTrailingSpace(s: string) {
    |s| == 0 || !IsSpace(s[|s| - 1])
  }

  predicate IsDigit(ch: char) {
    '0' <= ch <= '9'
  }

  predicate AllDigits(s: string) {
    forall i :: 0 <= i < |s| ==> IsDigit(s[i])
  }

  predicate NoNewline(s: string) {
    '\n' !in s
  }

  predicate StartsWith(s: string, prefix: string) {
    prefix <= s
  }

  predicate EndsWith(s: string, suffix: string) {
    |suffix| <= |s| && s[|s| - |suffix|..] == suffix
  }

  /** A suffix of a suffix is a suffix. */
  lemma EndsWithTransitive(s: string, t: string, u: string)
    requires EndsWith(s, t) && EndsWith(t, u)
    ensures EndsWith(s, u)
  {
    assert s[|s| - |u|..] == t[|t| - |u|..];
  }

  /* ---------------------------------------------------------------- rstrip */

  /** Python's `s.rstrip()`: the prefix of `s` left once trailing whitespace is cut. */
  function RStrip(s: string): (r: string)
    ensures r <= s
    ensures AllSpace(s[|r|..])
    ensures NoTrailingSpace(r)
    decreases |s|
  {
    if |s| > 0 && IsSpace(s[|s| - 1]) then
      var r := RStrip(s[..|s| - 1]);
      assert s[|r|..] == s[..|s| - 1][|r|..] + [s[|s| - 1]];
      r
    else
      s
  }

  /** The three properties of `RStrip` pin its result down: any prefix of `s`
      that ends in a non-space and is followed only by whitespace is it. */
  lemma RStripUnique(s: string, n: nat)
    requires n <= |s|
    requires AllSpace(s[n..])
    requires NoTrailingSpace(s[..n])
    ensures RStrip(s) == s[..n]
  {
  }

  /** Stripping twice is stripping once. */
  lemma RStripIdempotent(s: string)
    ensures RStrip(RStrip(s)) == RStrip(s)
  {
    var r := RStrip(s);
    RStripUnique(r, |r|);
  }

  /** A line break after text that ends in a non-space is all `rstrip` cuts. */
  lemma RStripLineBreak(s: string)
    requires NoTrailingSpace(s)
    ensures RStrip(s + "\n") == s
  {
    assert IsSpace('\n');
    assert (s + "\n")[..|s|] == s;
    RStripUnique(s + "\n", |s|);
  }

  /** When `y` holds a non-space character, `rstrip` of `x + y` only touches `y`. */
  lemma RStripAppend(x: string, y: string)
    requires |RStrip(y)| > 0
    ensures RStrip(x + y) == x + RStrip(y)
  {
    var ry := RStrip(y);
    var n := |x| + |ry|;
    assert (x + y)[..n] == x + ry;
    assert (x + y)[n..] == y[|ry|..];
    RStripUnique(x + y, n);
  }

  /* ------------------------------------------------------------ digit runs */

  /** The longest prefix of `s` made of ASCII digits (what a greedy `\d+` takes). */
  function DigitRun(s: string): (d: string)
    ensures d <= s
    ensures AllDigits(d)
    ensures |d| == |s| || !IsDigit(s[|d|])
  {
    if |s| > 0 && IsDigit(s[0]) then [s[0]] + DigitRun(s[1..]) else []
  }

  /** A digit prefix that is followed by a non-digit is the whole digit run. */
  lemma DigitRunUnique(s: string, d: string)
    requires d <= s
    requires AllDigits(d)
    requires |d| < |s| && !IsDigit(s[|d|])
    ensures DigitRun(s) == d
  {
  }

  /** `prefix`, a non-empty run of digits, then `suffix` open `s`: a match of
      the pattern `prefix\d+suffix` at the start of `s`. */
  ghost predicate FramedDigits(s: string, prefix: string, digits: string, suffix: string) {
    |digits| > 0 && AllDigits(digits) && prefix + digits + suffix <= s
  }

  /** Tries `prefix\d+suffix` at the start of `s`: `prefix`, the greedy digit
      run, then `suffix`. When `suffix` opens with a non-digit, backtracking into
      the run cannot help, so at most one digit string matches. */
  function MatchFramedDigits(s: string, prefix: string, suffix: string): (r: Option<string>)
    requires |suffix| > 0 && !IsDigit(suffix[0])
    ensures r.Some? ==> FramedDigits(s, prefix, r.value, suffix)
    ensures forall digits :: FramedDigits(s, prefix, digits, suffix) ==> r == Some(digits)
  {
    if prefix <= s then
      var digits := DigitRun(s[|prefix|..]);
      FramedDigitsUnique(s, prefix, digits, suffix);
      if |digits| > 0 && suffix <= s[|prefix| + |digits|..] then
        assert s[..|prefix + digits + suffix|] == prefix + digits + suffix;
        Some(digits)
      else
        None
    else
      None
  }

  /** Any digit string that matches is the greedy run after `prefix`. */
  lemma FramedDigitsUnique(s: string, prefix: string, run: string, suffix: string)
    requires |suffix| > 0 && !IsDigit(suffix[0])
    requires prefix <= s
    requires run == DigitRun(s[|prefix|..])
    ensures forall digits :: FramedDigits(s, prefix, digits, suffix) ==>
      digits == run && suffix <= s[|prefix| + |run|..]
  {
    forall digits | FramedDigits(s, prefix, digits, suffix)
      ensures digits == run && suffix <= s[|prefix| + |run|..]
    {
      var t := s[|prefix|..];
      assert digits + suffix <= t by {
        assert prefix + digits + suffix == prefix + (digits + suffix);
      }
      assert t[|digits|] == suffix[0];
      DigitRunUnique(t, digits);
      assert t[|digits|..] == s[|prefix| + |digits|..];
    }
  }

  /* ---------------------------------------------------------------- search */

  /** The leftmost start position from `p` through `n` at which `test` holds:
      how a regular-expression search tries one start position after another
      and stops at the first that matches. */
  function FindFirst(test: nat -> bool, p: nat, n: nat): (r: Option<nat>)
    requires p <= n
    ensures r.Some? ==> p <= r.value <= n && test(r.value)
    ensures r.Some? ==> forall j :: p <= j < r.value ==> !test(j)
    ensures r.None? ==> forall j :: p <= j <= n ==> !test(j)
    decreases n - p
  {
    if test(p) then Some(p)
    else if p == n then None
    else FindFirst(test, p + 1, n)
  }

  /* ----------------------------------------------------------------- lines */

  /** Length of the first line of `s`: the index of its first newline, or `|s|`. */
  function LineLength(s: string): (n: nat)
    ensures n <= |s|
    ensures NoNewline(s[..n])
    ensures n == |s| || s[n] == '\n'
  {
    if |s| == 0 || s[0] == '\n' then 0 else 1 + LineLength(s[1..])
  }

  /** Python's `s.split('\n')`: always at least one line. */
  function Lines(s: string): (ls: seq<string>)
    ensures |ls| > 0
    decreases |s|
  {
    var n := LineLength(s);
    if n == |s| then [s] else [s[..n]] + Lines(s[n + 1..])
  }

  lemma {:induction false} LineLengthOf(l: string, rest: string)
    requires NoNewline(l)
    requires |rest| == 0 || rest[0] == '\n'
    ensures LineLength(l + rest) == |l|
    decreases |l|
  {
    if |l| > 0 {
      assert (l + rest)[0] == l[0];
      assert (l + rest)[1..] == l[1..] + rest;
      LineLengthOf(l[1..], rest);
    }
  }

  lemma LinesSingle(l: string)
    requires NoNewline(l)
    ensures Lines(l) == [l]
  {
    LineLengthOf(l, []);
    assert l + [] == l;
  }

  lemma LinesCons(l: string, rest: string)
    requires NoNewline(l)
    ensures Lines(l + "\n" + rest) == [l] + Lines(rest)
  {
    var s := l + "\n" + rest;
    assert s == l + ("\n" + rest);
    LineLengthOf(l, "\n" + rest);
    assert s[..|l|] == l;
    assert s[|l| + 1..] == rest;
  }

  /** Python's `'\n'.join(lines)`. */
  function JoinLines(lines: seq<string>): string
    requires |lines| > 0
  {
    if |lines| == 1 then lines[0] else lines[0] + "\n" + JoinLines(lines[1..])
  }

  /** Joining peels off the first line. */
  lemma JoinLinesCons(lines: seq<string>)
    requires |lines| > 1
    ensures JoinLines(lines) == lines[0] + "\n" + JoinLines(lines[1..])
  {
  }

  /** Joining with one more piece at the end adds a break and that piece. */
  lemma {:induction false} JoinLinesSnoc(lines: seq<string>, last: string)
    requires |lines| > 0
    ensures JoinLines(lines + [last]) == JoinLines(lines) + "\n" + last
    decreases |lines|
  {
    if |lines| > 1 {
      assert (lines + [last])[1..] == lines[1..] + [last];
      JoinLinesSnoc(lines[1..], last);
    } else {
      assert (lines + [last])[1..] == [last];
    }
  }

  /** Splitting joined one-line pieces gives the pieces back. */
  lemma {:induction false} LinesOfJoinLines(lines: seq<string>)
    requires |lines| > 0
    requires forall k :: 0 <= k < |lines| ==> NoNewline(lines[k])
    ensures Lines(JoinLines(lines)) == lines
    decreases |lines|
  {
    if |lines| == 1 {
      LinesSingle(lines[0]);
    } else {
      LinesCons(lines[0], JoinLines(lines[1..]));
      LinesOfJoinLines(lines[1..]);
      assert lines == [lines[0]] + lines[1..];
    }
  }

  /* ------------------------------------------------------------ subsequence */

  /** `idx` lists, in increasing order, where each element of `a` sits in `b`. */
  ghost predicate Embeds<T>(a: seq<T>, b: seq<T>, idx: seq<nat>) {
    && |idx| == |a|
    && (forall k :: 0 <= k < |idx| ==> idx[k] < |b| && a[k] == b[idx[k]])
    && (forall k, l :: 0 <= k < l < |idx| ==> idx[k] < idx[l])
  }

  /** `a` is obtained from `b` by deleting elements only. */
  ghost predicate IsSubsequence<T>(a: seq<T>, b: seq<T>) {
    exists idx :: Embeds(a, b, idx)
  }

  lemma PrefixIsSubsequence<T>(a: seq<T>, b: seq<T>)
    requires a <= b
    ensures IsSubsequence(a, b)
  {
    var idx := seq(|a|, k => k);
    assert Embeds(a, b, idx);
  }

  lemma SuffixIsSubsequence<T>(a: seq<T>, b: seq<T>)
    requires |a| <= |b| && b[|b| - |a|..] == a
    ensures IsSubsequence(a, b)
  {
    var off := |b| - |a|;
    var idx := seq(|a|, k => k + off);
    assert Embeds(a, b, idx);
  }

  lemma SubsequenceTransitive<T>(a: seq<T>, b: seq<T>, c: seq<T>)
    requires IsSubsequence(a, b) && IsSubsequence(b, c)
    ensures IsSubsequence(a, c)
  {
    var i1 :| Embeds(a, b, i1);
    var i2 :| Embeds(b, c, i2);
    var idx := seq(|a|, k requires 0 <= k < |a| => i2[i1[k]]);
    assert Embeds(a, c, idx);
  }

  lemma SubsequenceConcat<T>(a1: seq<T>, b1: seq<T>, a2: seq<T>, b2: seq<T>)
    requires IsSubsequence(a1, b1) && IsSubsequence(a2, b2)
    ensures IsSubsequence(a1 + a2, b1 + b2)
  {
    var i1 :| Embeds(a1, b1, i1);
    var i2 :| Embeds(a2, b2, i2);
    var idx := i1 + seq(|i2|, k requires 0 <= k < |i2| => i2[k] + |b1|);
    assert Embeds(a1 + a2, b1 + b2, idx);
  }

  lemma {:induction false} EmbedsLowerBound<T>(a: seq<T>, b: seq<T>, idx: seq<nat>, k: nat)
    requires Embeds(a, b, idx) && k < |idx|
    ensures k <= idx[k]
  {
    if k > 0 {
      EmbedsLowerBound(a, b, idx, k - 1);
    }
  }

  /** Deleting never lengthens, and deleting nothing is the only way to keep the length. */
  lemma SubsequenceLength<T>(a: seq<T>, b: seq<T>)
    requires IsSubsequence(a, b)
    ensures |a| <= |b|
    ensures |a| == |b| ==> a == b
  {
    var idx :| Embeds(a, b, idx);
    if |a| > 0 {
      EmbedsLowerBound(a, b, idx, |a| - 1);
    }
    if |a| == |b| {
      forall k | 0 <= k < |a|
        ensures a[k] == b[k]
      {
        EmbedsLowerBound(a, b, idx, k);
        EmbedsUpperBound(a, b, idx, k);
      }
    }
  }

  lemma {:induction false} EmbedsUpperBound<T>(a: seq<T>, b: seq<T>, idx: seq<nat>, k: nat)
    requires Embeds(a, b, idx) && k < |idx|
    ensures idx[k] <= |b| - |idx| + k
    decreases |idx| - k
  {
    if k + 1 < |idx| {
      EmbedsUpperBound(a, b, idx, k + 1);
    }
  }

  /* -------------------------------------------------------------- ordering */

  /** Python's `<=` on `str`: lexicographic by code point, a prefix sorting first. */
  predicate StrLe(a: string, b: string)
    decreases |a|
  {
    |a| == 0 || (|b| > 0 && (a[0] < b[0] || (a[0] == b[0] && StrLe(a[1..], b[1..]))))
  }

  lemma {:induction false} StrLeReflexive(a: string)
    ensures StrLe(a, a)
    decreases |a|
  {
    if |a| > 0 {
      StrLeReflexive(a[1..]);
    }
  }

  lemma {:induction false} StrLeTotal(a: string, b: string)
    ensures StrLe(a, b) || StrLe(b, a)
    decreases |a|
  {
    if |a| > 0 && |b| > 0 && a[0] == b[0] {
      StrLeTotal(a[1..], b[1..]);
    }
  }

  lemma {:induction false} StrLeTransitive(a: string, b: string, c: string)
    requires StrLe(a, b) && StrLe(b, c)
    ensures StrLe(a, c)
    decreases |a|
  {
    if |a| > 0 && a[0] == b[0] && b[0] == c[0] {
      StrLeTransitive(a[1..], b[1..], c[1..]);
    }
  }

  lemma {:induction false} StrLeAntisymmetric(a: string, b: string)
    requires StrLe(a, b) && StrLe(b, a)
    ensures a == b
    decreases |a|
  {
    if |a| > 0 {
      StrLeAntisymmetric(a[1..], b[1..]);
      assert a == [a[0]] + a[1..];
      assert b == [b[0]] + b[1..];
    }
  }
}
