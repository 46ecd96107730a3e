/**
 The three passes that remove earlier footers from a module document before
 the standard footer is appended, applied in a fixed order:
   1. cut a legacy `**Module N Status**` block through to the end of the text;
   2. delete every `**Documentation Date**:` line that follows a line break;
   3. drop trailing whitespace and then one trailing `---` rule.
 Each regular expression of the script has a fixed shape and is written out
 here as a scan over the characters.
 */
module FooterStrip {
  import opened Wrappers
  import opened Text

  /* ------------------------------------------ pass 1: legacy status block */

  const LegacyOpen := "\n---\n\n**Module "
  const LegacyClose := " Status**:"
  const Rule := "---"

  /** The header that opens a legacy block for module `number`. */
  function LegacyHeader(number: string): string {
    LegacyOpen + number + LegacyClose
  }

  /** A legacy header for `number` starts at index `p` of `c`. */
  ghost predicate HeaderAt(c: string, p: int, number: string) {
    0 <= p <= |c| && FramedDigits(c[p..], LegacyOpen, number, LegacyClose)
  }

  /** A `---` starts at index `q` of `c` and only whitespace follows it. */
  ghost predicate ClosingRuleAt(c: string, q: int) {
    0 <= q && q + |Rule| <= |c| && c[q..q + |Rule|] == Rule && AllSpace(c[q + |Rule|..])
  }

  /** One match of the legacy pattern: a header at `p` and, at or after the end
      of that header, a closing rule at `q`. The match always runs to the end
      of the text, because the trailing `\s*` swallows all remaining whitespace. */
  ghost predicate LegacyMatch(c: string, p: int, number: string, q: int) {
    HeaderAt(c, p, number) && p + |LegacyHeader(number)| <= q && ClosingRuleAt(c, q)
  }

  /** Whether a closing rule starts at or after index `h`: decided by looking at
      what `rstrip` keeps. */
  predicate HasClosingRule(c: string, h: nat) {
    var t := RStrip(c);
    h + |Rule| <= |t| && EndsWith(t, Rule)
  }

  /** A closing rule seen in what `rstrip` keeps is one in the text. */
  lemma ClosingRuleOfRStrip(c: string, h: nat)
    requires HasClosingRule(c, h)
    ensures ClosingRuleAt(c, |RStrip(c)| - |Rule|) && h <= |RStrip(c)| - |Rule|
  {
    var t := RStrip(c);
    var q := |t| - |Rule|;
    assert c[..|t|] == t;
    assert c[q..q + |Rule|] == t[q..];
  }

  /** A closing rule in the text is what `rstrip` keeps at its end. */
  lemma RStripOfClosingRule(c: string, q: int)
    requires ClosingRuleAt(c, q)
    ensures RStrip(c) == c[..q + |Rule|]
    ensures EndsWith(RStrip(c), Rule)
  {
    var n := q + |Rule|;
    assert c[..n][n - 1] == '-';
    RStripUnique(c, n);
    assert c[..n][q..] == c[q..n];
  }

  lemma ClosingRuleSpec(c: string, h: nat)
    ensures HasClosingRule(c, h) <==> exists q :: h <= q && ClosingRuleAt(c, q)
  {
    if HasClosingRule(c, h) {
      ClosingRuleOfRStrip(c, h);
    }
    if q :| h <= q && ClosingRuleAt(c, q) {
      RStripOfClosingRule(c, q);
    }
  }

  /** The legacy pattern matches when tried at index `p`. */
  ghost predicate LegacyMatchAt(c: string, p: int) {
    exists number, q :: LegacyMatch(c, p, number, q)
  }

  /** Whether the legacy pattern matches at `p`, decided without search: read
      the header's digits, then look for a closing rule after the header. */
  function LegacyBlockAt(c: string, p: nat): bool {
    p <= |c| &&
    match MatchFramedDigits(c[p..], LegacyOpen, LegacyClose)
    case Some(number) => HasClosingRule(c, p + |LegacyHeader(number)|)
    case None => false
  }

  /** The decision agrees with the pattern. */
  lemma LegacyBlockAtSpec(c: string, p: nat)
    ensures LegacyBlockAt(c, p) <==> LegacyMatchAt(c, p)
  {
    if p <= |c| {
      match MatchFramedDigits(c[p..], LegacyOpen, LegacyClose)
      case Some(number) =>
        var h := p + |LegacyHeader(number)|;
        ClosingRuleSpec(c, h);
        if HasClosingRule(c, h) {
          var q :| h <= q && ClosingRuleAt(c, q);
          assert LegacyMatch(c, p, number, q);
        }
      case None =>
    }
  }

  /** The test the search applies at each start position. */
  function LegacyTest(c: string): nat -> bool {
    (j: nat) => LegacyBlockAt(c, j)
  }

  /** The leftmost index at which the legacy pattern matches. */
  function FindLegacyBlock(c: string): Option<nat> {
    FindFirst(LegacyTest(c), 0, |c|)
  }

  /** The search finds the leftmost match of the legacy pattern, and nothing
      when the pattern matches nowhere. */
  lemma FindLegacyBlockSpec(c: string)
    ensures FindLegacyBlock(c).Some? ==> LegacyMatchAt(c, FindLegacyBlock(c).value)
    ensures FindLegacyBlock(c).Some? ==> forall j :: 0 <= j < FindLegacyBlock(c).value ==> !LegacyMatchAt(c, j)
    ensures FindLegacyBlock(c).None? ==> forall j :: !LegacyMatchAt(c, j)
  {
    var test := LegacyTest(c);
    forall j: nat
      ensures test(j) <==> LegacyMatchAt(c, j)
    {
      LegacyBlockAtSpec(c, j);
    }
    forall j: int | j < 0 || j > |c|
      ensures !LegacyMatchAt(c, j)
    {
    }
  }

  /** Without a closing `---` at the very end there is no legacy block. */
  lemma NoLegacyBlockWithoutClosingRule(c: string)
    requires !EndsWith(RStrip(c), Rule)
    ensures StripLegacyStatus(c) == c
  {
    ClosingRuleSpec(c, 0);
  }

  /** Pass 1: cut everything from the first legacy block to the end; leave the
      text alone when the pattern matches nowhere. */
  function StripLegacyStatus(c: string): (r: string)
    ensures r <= c
    ensures r == c <==> forall p :: !LegacyMatchAt(c, p)
    ensures r != c ==> LegacyMatchAt(c, |r|)
    ensures forall p :: 0 <= p < |r| ==> !LegacyMatchAt(c, p)
  {
    FindLegacyBlockSpec(c);
    match FindLegacyBlock(c)
    case Some(p) => c[..p]
    case None => c
  }

  /** A legacy block — header, any text, a closing rule, trailing whitespace —
      appended to `a` is cut, together with anything from an earlier block. */
  lemma LegacyBlockRemoved(a: string, number: string, middle: string, w: string)
    requires |number| > 0 && AllDigits(number) && AllSpace(w)
    ensures |StripLegacyStatus(a + LegacyHeader(number) + middle + Rule + w)| <= |a|
  {
    var c := a + LegacyHeader(number) + middle + Rule + w;
    LegacyBlockMatches(c, a, number, middle, w);
    assert LegacyMatchAt(c, |a|);
  }

  lemma LegacyBlockMatches(c: string, a: string, number: string, middle: string, w: string)
    requires |number| > 0 && AllDigits(number) && AllSpace(w)
    requires c == a + LegacyHeader(number) + middle + Rule + w
    ensures LegacyMatch(c, |a|, number, |a| + |LegacyHeader(number)| + |middle|)
  {
    var p := |a|;
    var q := p + |LegacyHeader(number)| + |middle|;
    assert c[p..] == LegacyOpen + number + LegacyClose + (middle + Rule + w);
    assert c[q..] == Rule + w;
    assert c[q..q + |Rule|] == Rule && c[q + |Rule|..] == w;
  }

  /* ------------------------------------------- pass 2: documentation dates */

  /* The scan is defined for any one-line marker and used with the
     documentation-date label; its proofs never look inside the marker. */

  const DocDateLabel := "**Documentation Date**:"

  lemma DocDateLabelIsOneLine()
    ensures NoNewline(DocDateLabel)
  {
  }

  /** A line that pass 2 deletes when a line break precedes it. */
  predicate IsLabelLine(line: string, marker: string) {
    marker <= line
  }

  /** `c` opens with a line break followed by a line that starts with `marker`:
      where the pattern `\n<marker>.*$` starts a match. */
  predicate AtLabelLine(c: string, marker: string) {
    |c| > 0 && c[0] == '\n' && IsLabelLine(c[1..], marker)
  }

  /** The substitution as it scans: wherever a line break is followed by the
      marker, delete the break and the rest of that line (not the break that
      ends it); then carry on after the deleted text. */
  function DropLabelledLines(c: string, marker: string): (r: string)
    decreases |c|
  {
    if |c| == 0 then []
    else if AtLabelLine(c, marker) then DropLabelledLines(c[1 + LineLength(c[1..])..], marker)
    else [c[0]] + DropLabelledLines(c[1..], marker)
  }

  /** Pass 2: delete the documentation-date lines. Read line by line, it keeps
      the first line and every later line that does not start with the label. */
  function DropDocDateLines(c: string): (r: string)
    ensures r == WithoutLabelledLines(c, DocDateLabel)
  {
    DocDateLabelIsOneLine();
    DropLabelledLinesByLine(c, DocDateLabel);
    DropLabelledLines(c, DocDateLabel)
  }

  /** The lines after the first, each with the break that precedes it, except
      those that start with the label. */
  function KeptLines(lines: seq<string>, marker: string): string {
    if |lines| == 0 then []
    else (if IsLabelLine(lines[0], marker) then [] else "\n" + lines[0]) + KeptLines(lines[1..], marker)
  }

  /** The substitution stated line by line: keep the first line whatever it
      says, drop every later line that starts with the label. */
  function WithoutLabelledLines(c: string, marker: string): string {
    var lines := Lines(c);
    lines[0] + KeptLines(lines[1..], marker)
  }

  /** A labelled line opens at index `i` of `s`. */
  ghost predicate LabelLineAt(s: string, i: int, marker: string) {
    0 <= i < |s| && AtLabelLine(s[i..], marker)
  }

  /** No line break in `s` is followed by the label. */
  ghost predicate NoLabelLine(s: string, marker: string) {
    forall i :: !LabelLineAt(s, i, marker)
  }

  /** No line break in `s` is followed by the documentation-date label. */
  ghost predicate NoDocDateLine(s: string) {
    NoLabelLine(s, DocDateLabel)
  }

  /** A one-line label only ever sits inside one line. */
  lemma LabelWithinLine(s: string, marker: string)
    requires NoNewline(marker)
    ensures IsLabelLine(s, marker) <==> IsLabelLine(s[..LineLength(s)], marker)
  {
    var n := LineLength(s);
    if IsLabelLine(s[..n], marker) {
      assert s[..n][..|marker|] == s[..|marker|];
    }
  }

  /** One step of the scan on text that does not open a labelled line. */
  lemma {:induction false} DropStep(c: string, marker: string)
    requires |c| > 0 && !AtLabelLine(c, marker)
    ensures DropLabelledLines(c, marker) == [c[0]] + DropLabelledLines(c[1..], marker)
  {
  }

  /** One step of the scan on text that opens a labelled line. */
  lemma {:induction false} DropSkip(c: string, marker: string)
    requires AtLabelLine(c, marker)
    ensures DropLabelledLines(c, marker) == DropLabelledLines(c[1 + LineLength(c[1..])..], marker)
  {
  }

  /** Text before the first line break passes through unchanged. */
  lemma {:induction false} DropKeepsFirstLine(l: string, y: string, marker: string)
    requires NoNewline(l)
    ensures DropLabelledLines(l + y, marker) == l + DropLabelledLines(y, marker)
    decreases |l|
  {
    if |l| > 0 {
      var c := l + y;
      assert c[0] == l[0] && l[0] in l;
      assert c[1..] == l[1..] + y;
      DropStep(c, marker);
      DropKeepsFirstLine(l[1..], y, marker);
      calc {
        DropLabelledLines(c, marker);
        [l[0]] + DropLabelledLines(l[1..] + y, marker);
        [l[0]] + (l[1..] + DropLabelledLines(y, marker));
        { assert l == [l[0]] + l[1..]; }
        l + DropLabelledLines(y, marker);
      }
    } else {
      assert l + y == y;
      assert l + DropLabelledLines(y, marker) == DropLabelledLines(y, marker);
    }
  }

  lemma {:induction false} LineLengthAppend(a: string, b: string)
    requires |b| == 0 || b[0] == '\n'
    ensures LineLength(a + b) == LineLength(a)
    decreases |a|
  {
    if |a| > 0 {
      assert (a + b)[0] == a[0];
      assert (a + b)[1..] == a[1..] + b;
      LineLengthAppend(a[1..], b);
    } else {
      assert a + b == b;
    }
  }

  /** A labelled line opening `x + y`, where `y` starts a new line, lies
      within `x`. */
  lemma AtLabelLineAppend(x: string, y: string, marker: string)
    requires NoNewline(marker)
    requires |y| == 0 || y[0] == '\n'
    requires |x| > 0
    ensures AtLabelLine(x + y, marker) <==> AtLabelLine(x, marker)
  {
    var s := (x + y)[1..];
    assert s == x[1..] + y;
    var n := LineLength(x[1..]);
    LineLengthAppend(x[1..], y);
    LabelWithinLine(s, marker);
    LabelWithinLine(x[1..], marker);
    assert s[..n] == x[1..][..n];
  }

  /** Labelled lines of `x` and of `y` are all there is in `x + y` when `y`
      starts a new line. */
  lemma NoLabelLineAppend(x: string, y: string, marker: string)
    requires NoNewline(marker)
    requires |y| == 0 || y[0] == '\n'
    requires NoLabelLine(x, marker) && NoLabelLine(y, marker)
    ensures NoLabelLine(x + y, marker)
  {
    forall i | 0 <= i < |x + y|
      ensures !LabelLineAt(x + y, i, marker)
    {
      if i < |x| {
        assert (x + y)[i..] == x[i..] + y;
        assert !LabelLineAt(x, i, marker);
        AtLabelLineAppend(x[i..], y, marker);
      } else {
        assert (x + y)[i..] == y[i - |x|..];
        assert !LabelLineAt(y, i - |x|, marker);
      }
    }
  }

  /** A single line holds no labelled line: those start with a break. */
  lemma NoLabelLineInLine(l: string, marker: string)
    requires NoNewline(l)
    ensures NoLabelLine(l, marker)
  {
    forall i | 0 <= i < |l|
      ensures !LabelLineAt(l, i, marker)
    {
      assert l[i..][0] == l[i] && l[i] in l;
    }
  }

  /** A break in front of `x` opens a labelled line only when `x` starts with
      the label. */
  lemma NoLabelLineAfterBreak(x: string, marker: string)
    requires NoLabelLine(x, marker) && !IsLabelLine(x, marker)
    ensures NoLabelLine("\n" + x, marker)
  {
    var c := "\n" + x;
    assert c[1..] == x;
    forall i | 0 <= i < |c|
      ensures !LabelLineAt(c, i, marker)
    {
      if i > 0 {
        assert c[i..] == x[i - 1..];
        assert !LabelLineAt(x, i - 1, marker);
      }
    }
  }

  /** Joined one-line pieces hold a labelled line only where a piece after the
      first starts with the label. */
  lemma {:induction false} NoLabelLineOfJoin(lines: seq<string>, marker: string)
    requires NoNewline(marker)
    requires |lines| > 0
    requires forall k :: 0 <= k < |lines| ==> NoNewline(lines[k])
    requires forall k :: 1 <= k < |lines| ==> !IsLabelLine(lines[k], marker)
    ensures NoLabelLine(JoinLines(lines), marker)
    decreases |lines|
  {
    NoLabelLineInLine(lines[0], marker);
    if |lines| > 1 {
      var rest := JoinLines(lines[1..]);
      NoLabelLineOfJoin(lines[1..], marker);
      LinesOfJoinLines(lines[1..]);
      assert rest[..LineLength(rest)] == lines[1];
      LabelWithinLine(rest, marker);
      NoLabelLineAfterBreak(rest, marker);
      assert JoinLines(lines) == lines[0] + ("\n" + rest);
      NoLabelLineAppend(lines[0], "\n" + rest, marker);
    }
  }

  /** The scan applied to a single line and the break before it. */
  lemma DropOneLine(line: string, marker: string)
    requires NoNewline(line)
    ensures DropLabelledLines("\n" + line, marker) ==
      if IsLabelLine(line, marker) then [] else "\n" + line
  {
    var c := "\n" + line;
    assert c[1..] == line;
    LineLengthOf(line, []);
    assert line + [] == line;
    if IsLabelLine(line, marker) {
      DropSkip(c, marker);
      assert c[1 + |line|..] == [];
    } else {
      DropStep(c, marker);
      DropKeepsFirstLine(line, [], marker);
    }
  }

  lemma KeptLinesCons(line: string, lines: seq<string>, marker: string)
    ensures KeptLines([line] + lines, marker) ==
      (if IsLabelLine(line, marker) then [] else "\n" + line) + KeptLines(lines, marker)
  {
    assert ([line] + lines)[1..] == lines;
  }

  /** The scan applied to one full line and the break before it, then the rest. */
  lemma DropFirstLine(line: string, tail: string, marker: string)
    requires NoNewline(line) && NoNewline(marker)
    ensures DropLabelledLines("\n" + (line + "\n" + tail), marker) ==
      (if IsLabelLine(line, marker) then [] else "\n" + line) + DropLabelledLines("\n" + tail, marker)
  {
    var s := line + ("\n" + tail);
    assert line + "\n" + tail == s;
    var c := "\n" + s;
    assert c[1..] == s;
    LineLengthOf(line, "\n" + tail);
    LabelWithinLine(s, marker);
    assert s[..|line|] == line;
    if IsLabelLine(line, marker) {
      DropSkip(c, marker);
      assert c[1 + |line|..] == "\n" + tail;
    } else {
      DropStep(c, marker);
      DropKeepsFirstLine(line, "\n" + tail, marker);
      assert "\n" + (line + DropLabelledLines("\n" + tail, marker)) ==
        ("\n" + line) + DropLabelledLines("\n" + tail, marker);
    }
  }

  /** The scan applied to a line break and what follows it, line by line. */
  lemma {:induction false} DropAfterLineBreak(rest: string, marker: string)
    requires NoNewline(marker)
    ensures DropLabelledLines("\n" + rest, marker) == KeptLines(Lines(rest), marker)
    decreases |rest|
  {
    var n := LineLength(rest);
    var line := rest[..n];
    if n == |rest| {
      assert line == rest;
      LinesSingle(rest);
      DropOneLine(rest, marker);
      KeptLinesCons(rest, [], marker);
      assert [rest] + [] == [rest];
    } else {
      var tail := rest[n + 1..];
      assert rest == line + "\n" + tail;
      LinesCons(line, tail);
      KeptLinesCons(line, Lines(tail), marker);
      DropFirstLine(line, tail, marker);
      DropAfterLineBreak(tail, marker);
    }
  }

  /** The line-by-line reading of text made of the line `first`, a break and
      the text `rest`. */
  lemma WithoutLabelledLinesCons(first: string, rest: string, marker: string)
    requires NoNewline(first)
    ensures WithoutLabelledLines(first + "\n" + rest, marker) == first + KeptLines(Lines(rest), marker)
  {
    LinesCons(first, rest);
    assert ([first] + Lines(rest))[1..] == Lines(rest);
  }

  /** The scanning definition agrees with the line-by-line one. */
  lemma DropLabelledLinesByLine(c: string, marker: string)
    requires NoNewline(marker)
    ensures DropLabelledLines(c, marker) == WithoutLabelledLines(c, marker)
  {
    var n := LineLength(c);
    var first := c[..n];
    if n == |c| {
      assert first == c;
      LinesSingle(c);
      DropKeepsFirstLine(c, [], marker);
      assert c + [] == c;
      assert KeptLines([], marker) == [];
    } else {
      var rest := c[n + 1..];
      assert c == first + "\n" + rest == first + ("\n" + rest);
      WithoutLabelledLinesCons(first, rest, marker);
      DropKeepsFirstLine(first, "\n" + rest, marker);
      DropAfterLineBreak(rest, marker);
    }
  }

  /** The scan only deletes characters. */
  lemma {:induction false} DropIsSubsequence(c: string, marker: string)
    ensures IsSubsequence(DropLabelledLines(c, marker), c)
    decreases |c|
  {
    if |c| == 0 {
      PrefixIsSubsequence(c, c);
    } else if AtLabelLine(c, marker) {
      var rest := c[1 + LineLength(c[1..])..];
      DropSkip(c, marker);
      DropIsSubsequence(rest, marker);
      SuffixIsSubsequence(rest, c);
      SubsequenceTransitive(DropLabelledLines(rest, marker), rest, c);
    } else {
      DropStep(c, marker);
      DropIsSubsequence(c[1..], marker);
      PrefixIsSubsequence([c[0]], [c[0]]);
      SubsequenceConcat([c[0]], [c[0]], DropLabelledLines(c[1..], marker), c[1..]);
      assert [c[0]] + c[1..] == c;
    }
  }

  /** Output for text that starts a line starts with a line break (or is
      empty). */
  lemma {:induction false} DropStartsAtLineBreak(c: string, marker: string)
    requires |c| == 0 || c[0] == '\n'
    ensures var r := DropLabelledLines(c, marker); |r| == 0 || r[0] == '\n'
    decreases |c|
  {
    if |c| > 0 && AtLabelLine(c, marker) {
      var n := LineLength(c[1..]);
      assert 1 + n == |c| || c[1 + n] == '\n';
      DropSkip(c, marker);
      DropStartsAtLineBreak(c[1 + n..], marker);
    } else if |c| > 0 {
      DropStep(c, marker);
    }
  }

  /** Whatever the scan keeps of a line that does not start with the label
      does not start with it either. */
  lemma DropKeepsLineHead(x: string, marker: string)
    requires NoNewline(marker)
    requires !IsLabelLine(x, marker)
    ensures !IsLabelLine(DropLabelledLines(x, marker), marker)
  {
    var n := LineLength(x);
    var t := DropLabelledLines(x, marker);
    assert x == x[..n] + x[n..];
    DropKeepsFirstLine(x[..n], x[n..], marker);
    DropStartsAtLineBreak(x[n..], marker);
    LabelWithinLine(x, marker);
    LabelWithinLine(t, marker);
    assert t[..n] == x[..n];
    assert LineLength(t) == n by {
      LineLengthAppend(x[..n], DropLabelledLines(x[n..], marker));
      LineLengthOf(x[..n], []);
      assert x[..n] + [] == x[..n];
    }
  }

  /** After the scan, no line break is followed by the label. */
  lemma {:induction false} DropLeavesNoLabelLine(c: string, marker: string)
    requires NoNewline(marker)
    ensures NoLabelLine(DropLabelledLines(c, marker), marker)
    decreases |c|
  {
    if |c| == 0 {
    } else if AtLabelLine(c, marker) {
      DropSkip(c, marker);
      DropLeavesNoLabelLine(c[1 + LineLength(c[1..])..], marker);
    } else {
      var x := c[1..];
      var t := DropLabelledLines(x, marker);
      DropStep(c, marker);
      DropLeavesNoLabelLine(x, marker);
      var r := [c[0]] + t;
      assert r[1..] == t;
      if c[0] == '\n' {
        DropKeepsLineHead(x, marker);
      }
      assert r[0..] == r;
      assert !AtLabelLine(r, marker);
      forall i | 0 <= i < |r|
        ensures !LabelLineAt(r, i, marker)
      {
        if i > 0 {
          assert r[i..] == t[i - 1..];
          assert !LabelLineAt(t, i - 1, marker);
        }
      }
    }
  }

  /** Text with no labelled line is left alone. */
  lemma {:induction false} DropWithoutLabelLine(c: string, marker: string)
    requires NoLabelLine(c, marker)
    ensures DropLabelledLines(c, marker) == c
    decreases |c|
  {
    if |c| > 0 {
      assert c[0..] == c;
      assert !LabelLineAt(c, 0, marker);
      assert NoLabelLine(c[1..], marker) by {
        forall i | 0 <= i < |c[1..]|
          ensures !LabelLineAt(c[1..], i, marker)
        {
          assert c[1..][i..] == c[1 + i..];
          assert !LabelLineAt(c, 1 + i, marker);
        }
      }
      DropStep(c, marker);
      DropWithoutLabelLine(c[1..], marker);
      assert c == [c[0]] + c[1..];
    }
  }

  /** Pass 2 removes every documentation-date line, and changes nothing in a
      text that has none. */
  lemma DropDocDateLinesSpec(c: string)
    ensures NoDocDateLine(DropDocDateLines(c))
    ensures IsSubsequence(DropDocDateLines(c), c)
    ensures NoDocDateLine(c) ==> DropDocDateLines(c) == c
  {
    DocDateLabelIsOneLine();
    DropLeavesNoLabelLine(c, DocDateLabel);
    DropIsSubsequence(c, DocDateLabel);
    if NoDocDateLine(c) {
      DropWithoutLabelLine(c, DocDateLabel);
    }
  }

  /** A prefix of text with no labelled line has none either. */
  lemma NoLabelLinePrefix(c: string, p: string, marker: string)
    requires NoLabelLine(c, marker) && p <= c
    ensures NoLabelLine(p, marker)
  {
    forall i | 0 <= i < |p|
      ensures !LabelLineAt(p, i, marker)
    {
      assert !LabelLineAt(c, i, marker);
    }
  }

  /* -------------------------------------------- pass 3: trailing rule */

  const TrailingRule := "\n---"

  /** Pass 3: `rstrip`, then drop one trailing `\n---` and `rstrip` again. */
  function StripTrailingRule(c: string): (r: string)
    ensures r <= c
    ensures NoTrailingSpace(r)
    ensures AllSpace(c[|r|..]) ==> !EndsWith(r, TrailingRule)
    ensures !AllSpace(c[|r|..]) ==> exists k ::
      && |r| <= k && k + |TrailingRule| <= |c|
      && AllSpace(c[|r|..k]) && c[k..k + |TrailingRule|] == TrailingRule
      && AllSpace(c[k + |TrailingRule|..])
  {
    var t := RStrip(c);
    if EndsWith(t, TrailingRule) then
      var k := |t| - |TrailingRule|;
      var r := RStrip(t[..k]);
      assert c[|r|..k] == t[..k][|r|..];
      assert c[k..k + |TrailingRule|] == t[k..];
      assert c[|r|..][k - |r|] == '\n';
      r
    else
      t
  }

  /** One rule only: of two stacked rules, the lower one goes. */
  lemma OneRuleRemoved()
    ensures StripTrailingRule("x\n---\n---") == "x\n---"
  {
    var c := "x\n---\n---";
    assert RStrip(c) == c;
    assert RStrip(c[..|c| - 4]) == "x\n---";
  }

  /* ------------------------------------------------------- all three passes */

  /** The document body once all three passes have run. */
  function StripFooters(c: string): (r: string)
    ensures NoTrailingSpace(r)
  {
    StripTrailingRule(DropDocDateLines(StripLegacyStatus(c)))
  }

  /** Stripping only deletes: the body is a subsequence of the input, never
      longer, ends in a non-space or is empty, and no line break in it is followed by the
      documentation-date label. */
  lemma StripFootersDeletesOnly(c: string)
    ensures IsSubsequence(StripFooters(c), c)
    ensures |StripFooters(c)| <= |c|
    ensures NoDocDateLine(StripFooters(c))
  {
    var a := StripLegacyStatus(c);
    var b := DropDocDateLines(a);
    var r := StripTrailingRule(b);
    PrefixIsSubsequence(a, c);
    DropDocDateLinesSpec(a);
    PrefixIsSubsequence(r, b);
    SubsequenceTransitive(b, a, c);
    SubsequenceTransitive(r, b, c);
    SubsequenceLength(r, c);
    NoLabelLinePrefix(b, r, DocDateLabel);
  }
}
