/**
 A corrected rewrite of one module document. The rewrite as written does not
 recognise its own footer, so a second run keeps the old footer and stacks a
 new one below it. The corrected rewrite runs the same three passes and then
 also cuts an earlier standard footer — everything from the first
 `Opening` on — before appending the new footer. Running it twice gives the
 same text as running it once.
 */
module StableUpdate {
  import opened Wrappers
  import opened Text
  import ModuleFiles
  import Realizations
  import FooterStrip
  import Footer
  import opened Timestamp

  /** `pat` occurs in `s` starting at index `i`. */
  predicate OccursAt(s: string, i: int, pat: string) {
    0 <= i && i + |pat| <= |s| && s[i..i + |pat|] == pat
  }

  /** No standard footer opens anywhere in `s`. */
  ghost predicate NoOpening(s: string) {
    forall i :: !OccursAt(s, i, Footer.Opening)
  }

  /** An occurrence inside a prefix is an occurrence in the whole text. */
  lemma OccursInPrefix(s: string, n: nat, i: int, pat: string)
    requires n <= |s| && OccursAt(s[..n], i, pat)
    ensures OccursAt(s, i, pat)
  {
    assert s[..n][i..i + |pat|] == s[i..i + |pat|];
  }

  /** One differing character rules an occurrence out. */
  lemma Mismatch(s: string, i: nat, pat: string, x: nat)
    requires x < |pat| && i + |pat| <= |s| && s[i + x] != pat[x]
    ensures !OccursAt(s, i, pat)
  {
    assert s[i..i + |pat|][x] == s[i + x];
  }

  /** A prefix of text with no opening has none either. */
  lemma NoOpeningPrefix(s: string, p: string)
    requires NoOpening(s) && p <= s
    ensures NoOpening(p)
  {
    forall i | OccursAt(p, i, Footer.Opening)
      ensures false
    {
      assert p == s[..|p|];
      OccursInPrefix(s, |p|, i, Footer.Opening);
    }
  }

  /** Text cut before the first opening holds no opening. */
  lemma NoOpeningBefore(s: string, p: nat)
    requires p <= |s|
    requires forall j :: 0 <= j < p ==> !OccursAt(s, j, Footer.Opening)
    ensures NoOpening(s[..p])
  {
    forall i | OccursAt(s[..p], i, Footer.Opening)
      ensures false
    {
      OccursInPrefix(s, p, i, Footer.Opening);
    }
  }

  /** The test the search applies at each start position. */
  function OpeningTest(s: string): nat -> bool {
    (i: nat) => OccursAt(s, i, Footer.Opening)
  }

  /** The leftmost index at which an opening starts. */
  function FindOpening(s: string): Option<nat> {
    FindFirst(OpeningTest(s), 0, |s|)
  }

  /** The search finds the leftmost opening, and nothing when there is none. */
  lemma FindOpeningSpec(s: string)
    ensures FindOpening(s).Some? ==> var p := FindOpening(s).value;
      p <= |s| && OccursAt(s, p, Footer.Opening)
      && forall j :: 0 <= j < p ==> !OccursAt(s, j, Footer.Opening)
    ensures FindOpening(s).None? ==> NoOpening(s)
  {
    var test := OpeningTest(s);
    forall j: nat
      ensures test(j) == OccursAt(s, j, Footer.Opening)
    {
    }
  }

  /** Cut an earlier standard footer: keep the text before the first opening,
      or all of it when there is none. */
  function CutOwnFooter(s: string): (r: string)
    ensures r <= s
    ensures NoOpening(r)
    ensures r == s <==> NoOpening(s)
    ensures r != s ==> OccursAt(s, |r|, Footer.Opening)
  {
    FindOpeningSpec(s);
    match FindOpening(s)
    case Some(p) =>
      NoOpeningBefore(s, p);
      s[..p]
    case None => s
  }

  /** The corrected new text: the three passes, then the cut of an earlier
      standard footer, then `rstrip` and the footer. The body kept in front of
      the footer is what is left of the old text after deleting characters
      only; it ends in a non-space or is empty, has no documentation-date
      line and no opening of a standard footer. */
  function StableRewrite(content: string, footer: string): (r: string)
    ensures |footer| <= |r| && r[|r| - |footer|..] == footer
    ensures IsSubsequence(r[..|r| - |footer|], content)
    ensures NoTrailingSpace(r[..|r| - |footer|])
    ensures FooterStrip.NoDocDateLine(r[..|r| - |footer|])
    ensures NoOpening(r[..|r| - |footer|])
  {
    var stripped := FooterStrip.StripFooters(content);
    var cut := CutOwnFooter(stripped);
    var body := RStrip(cut);
    FooterStrip.StripFootersDeletesOnly(content);
    PrefixIsSubsequence(body, stripped);
    SubsequenceTransitive(body, stripped, content);
    FooterStrip.NoLabelLinePrefix(stripped, body, FooterStrip.DocDateLabel);
    NoOpeningPrefix(cut, body);
    var r := body + footer;
    assert r[..|body|] == body;
    r
  }

  /** On text that holds no standard footer once the passes have run, the
      corrected rewrite is the rewrite as written. */
  lemma StableRewriteAgrees(content: string, footer: string)
    requires NoOpening(FooterStrip.StripFooters(content))
    ensures StableRewrite(content, footer) == Rewrite(content, footer)
  {
  }

  /* ------------------------------------------------------------ idempotence */

  /** The only line breaks of `Opening` after its first character are the two
      that close the rule line and the blank line. */
  lemma OpeningLineBreaks()
    ensures |Footer.Opening| > 6
    ensures Footer.Opening[..7] == "\n---\n\n*"
    ensures forall m :: 6 <= m < |Footer.Opening| ==> Footer.Opening[m] != '\n'
    ensures Footer.Opening[|Footer.Opening| - 1] == ' '
  {
    Footer.FixedPartsAreOneLine();
    var op := Footer.Opening;
    assert op == "\n---\n\n" + Footer.LastVerifiedKey;
    forall m | 6 <= m < |op|
      ensures op[m] != '\n'
    {
      assert op[m] == Footer.LastVerifiedKey[m - 6];
    }
  }

  /** Text shaped like the output of the corrected rewrite, footer not yet
      stripped of its final line break: the first opening is the one right
      after the body's final line break. */
  lemma FirstOpeningAfterBody(body: string, stem: string)
    requires NoTrailingSpace(body) && NoOpening(body)
    requires "\n" + Footer.Opening <= stem
    ensures CutOwnFooter(body + stem) == body + "\n"
  {
    var s := body + stem;
    var op := Footer.Opening;
    var n := |body|;
    OpeningLineBreaks();
    assert s[n + 1..n + 1 + |op|] == stem[1..|op| + 1] == op;
    assert OccursAt(s, n + 1, op);
    forall j | 0 <= j <= n && j + |op| <= |s|
      ensures !OccursAt(s, j, op)
    {
      if j + |op| <= n {
        assert body[j..j + |op|] == s[j..j + |op|];
        assert !OccursAt(body, j, op);
      } else if j == n {
        assert s[j + 1] == stem[1] == '\n';
        Mismatch(s, j, op, 1);
      } else {
        var k := n - 1 - j;
        assert s[j + k] == body[n - 1] && !IsSpace(s[j + k]);
        assert s[j + k + 1] == stem[0] == '\n';
        if k == 3 {
          assert s[j + 6] == stem[2] == '-';
          Mismatch(s, j, op, 6);
        } else if k == 4 {
          Mismatch(s, j, op, k);
        } else {
          Mismatch(s, j, op, k + 1);
        }
      }
    }
    FindOpeningSpec(s);
    match FindOpening(s)
    case Some(p) =>
      assert p == n + 1;
      assert s[..n + 1] == body + "\n";
    case None =>
      assert false;
  }

  /** What the idempotence proof needs of a footer beyond `FooterShaped`: it
      starts with a line break and `Opening`. */
  predicate OpensLikeFooter(f: string) {
    "\n" + Footer.Opening <= f
  }

  /** Running the corrected rewrite on its own output changes nothing. */
  lemma StableRewriteIdempotent(content: string, f: string, first: string)
    requires FooterShaped(f) && OpensLikeFooter(f)
    requires first == StableRewrite(content, f)
    ensures StableRewrite(first, f) == first
  {
    var body := first[..|first| - |f|];
    var stem := f[..|f| - 1];
    assert first == body + f;
    StripFootersOfFootedText(body, f);
    OpeningBeforeFinalBreak(f);
    FirstOpeningAfterBody(body, stem);
    RStripLineBreak(body);
  }

  /** A footer that opens like one still does without its final line break. */
  lemma OpeningBeforeFinalBreak(f: string)
    requires FooterShaped(f) && OpensLikeFooter(f)
    ensures "\n" + Footer.Opening <= f[..|f| - 1]
  {
    OpeningLineBreaks();
    assert |"\n" + Footer.Opening| < |f|;
  }

  /* ------------------------------------------------------- whole documents */

  /** The corrected counterpart of `AddOrUpdateTimestamp`: the same decisions
      on the name, the corrected rewrite on the text. */
  function UpdateTimestamp(name: string, content: string): (r: Outcome)
    ensures r.Skipped? <==> !Processable(name)
    ensures r.Skipped? ==> r == AddOrUpdateTimestamp(name, content)
    ensures r.Rewritten? ==> EndsWith(r.content, FooterOf(name))
  {
    if Processable(name) then Rewritten(StableRewrite(content, FooterOf(name)))
    else AddOrUpdateTimestamp(name, content)
  }

  lemma FooterOfOpensLikeFooter(name: string)
    requires Processable(name)
    ensures OpensLikeFooter(FooterOf(name))
  {
    var number := ModuleFiles.ModuleNumber(name).value;
    var entry := Realizations.Lookup(number).value;
    Footer.RenderOpening(number, entry.name, entry.date);
  }

  /** Updating an updated document gives it back unchanged. */
  lemma UpdateIsIdempotent(name: string, content: string, first: string)
    requires UpdateTimestamp(name, content) == Rewritten(first)
    ensures UpdateTimestamp(name, first) == Rewritten(first)
  {
    FooterOfOpensLikeFooter(name);
    StableRewriteIdempotent(content, FooterOf(name), first);
  }
}
