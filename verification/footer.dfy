/**
 The standard footer appended to every module document it rewrites: a rule,
 the verification date, the realization source files the document was
 checked against, the method, and a change note.
 */
module Footer {
  import opened Text
  import FooterStrip

  const RuleLine := "---"
  const LastVerifiedKey := "**Last Verified**: "
  const VerifiedAgainstKey := "**Verified Against**: "
  const MethodKey := "**Verification Method**: "
  const MethodLine := MethodKey + "Equations cross-referenced with source code"
  const ChangesKey := "**Changes Since Last Verification**: "
  const ChangesLine := ChangesKey + "None (stable)"

  /** How the footer opens once the line it is appended to has ended: a blank
      line, the rule, a blank line and the start of the date field. */
  const Opening := "\n" + RuleLine + "\n\n" + LastVerifiedKey

  /** The source files a module's realization lives in, as a relative glob. */
  function SourcePattern(number: string, realization: string): string {
    "`../modules/" + number + "_*/" + realization + "/*.gms`"
  }

  /** The footer's lines for module `number`, checked against `realization`
      on `date`: the empty rest of the line it is appended to, a blank line,
      the rule, a blank line, four fields, and the empty remainder after the
      final line break. */
  function FooterLines(number: string, realization: string, date: string): seq<string> {
    [ "", "", RuleLine, "",
      LastVerifiedKey + date,
      VerifiedAgainstKey + SourcePattern(number, realization),
      MethodLine,
      ChangesLine,
      "" ]
  }

  /** The footer text: its lines joined by line breaks, which is exactly how
      the triple-quoted template lays them out. Splitting it at its line breaks
      gives back the nine lines, with the date and the source pattern intact,
      provided none of the three values carries a line break of its own. */
  function Render(number: string, realization: string, date: string): (r: string)
    ensures NoNewline(number) && NoNewline(realization) && NoNewline(date) ==>
      Lines(r) == FooterLines(number, realization, date) && Lines(r)[4] == LastVerifiedKey + date
  {
    var l := FooterLines(number, realization, date);
    if NoNewline(number) && NoNewline(realization) && NoNewline(date) then
      FooterLinesAreLines(number, realization, date);
      LinesOfJoinLines(l);
      JoinLines(l)
    else
      JoinLines(l)
  }

  /** Lines of text none of which contains a line break. */
  predicate OneLineEach(lines: seq<string>) {
    forall k :: 0 <= k < |lines| ==> NoNewline(lines[k])
  }

  /** The fixed parts of the footer stay on one line. */
  lemma FixedPartsAreOneLine()
    ensures NoNewline(RuleLine) && NoNewline(LastVerifiedKey) && NoNewline(VerifiedAgainstKey)
    ensures NoNewline(MethodLine) && NoNewline(ChangesLine)
  {
    MethodLineIsOneLine();
    ChangesLineIsOneLine();
  }

  lemma MethodLineIsOneLine()
    ensures NoNewline(MethodLine)
  {
    assert NoNewline(MethodKey) && NoNewline("Equations cross-referenced with source code");
  }

  lemma ChangesLineIsOneLine()
    ensures NoNewline(ChangesLine)
  {
    assert NoNewline(ChangesKey) && NoNewline("None (stable)");
  }

  lemma SourcePatternIsOneLine(number: string, realization: string)
    requires NoNewline(number) && NoNewline(realization)
    ensures NoNewline(SourcePattern(number, realization))
  {
    assert NoNewline("`../modules/") && NoNewline("_*/") && NoNewline("/*.gms`");
  }

  lemma FooterLinesAreLines(number: string, realization: string, date: string)
    requires NoNewline(number) && NoNewline(realization) && NoNewline(date)
    ensures OneLineEach(FooterLines(number, realization, date))
  {
    FixedPartsAreOneLine();
    SourcePatternIsOneLine(number, realization);
  }

  /** Nine lines that open with an empty one and close with the change note and
      an empty one join into text that starts a new line, ends with the change
      note and one line break, and loses exactly that break to `rstrip`. */
  lemma JoinEnds(l: seq<string>)
    requires |l| == 9 && l[0] == "" && l[7] == ChangesLine && l[8] == ""
    ensures var f := JoinLines(l);
      && |f| > |ChangesLine| + 1
      && f[0] == '\n'
      && EndsWith(f, ChangesLine + "\n")
      && RStrip(f) == f[..|f| - 1]
  {
    var f := JoinLines(l);
    assert l == l[..8] + [""];
    JoinLinesSnoc(l[..8], "");
    assert l[..8] == l[..7] + [ChangesLine];
    JoinLinesSnoc(l[..7], ChangesLine);
    var stem := JoinLines(l[..7]) + "\n" + ChangesLine;
    assert f == stem + "\n" + "";
    assert f[|f| - 1 - |ChangesLine|..] == ChangesLine + "\n";
    assert f[..|f| - 1] == stem;
    assert f[|f| - 2] == ChangesLine[|ChangesLine| - 1] == ')';
    assert f[|f| - 1..] == "\n";
    RStripUnique(f, |f| - 1);
    JoinLinesCons(l);
  }

  /** The footer starts a new line, ends with the change note and one line
      break, and `rstrip` removes exactly that final break. */
  lemma RenderEnds(number: string, realization: string, date: string)
    ensures var f := Render(number, realization, date);
      && |f| > |ChangesLine| + 1
      && f[0] == '\n'
      && EndsWith(f, ChangesLine + "\n")
      && RStrip(f) == f[..|f| - 1]
  {
    JoinEnds(FooterLines(number, realization, date));
  }

  /** No line of the footer is a documentation-date line, so pass 2 of a later
      run leaves it alone. */
  lemma RenderHasNoDocDateLine(number: string, realization: string, date: string)
    requires NoNewline(number) && NoNewline(realization) && NoNewline(date)
    ensures FooterStrip.NoDocDateLine(Render(number, realization, date))
  {
    var l := FooterLines(number, realization, date);
    var marker := FooterStrip.DocDateLabel;
    FooterLinesAreLines(number, realization, date);
    FooterStrip.DocDateLabelIsOneLine();
    assert marker[2] == 'D';
    assert l[4][2] == LastVerifiedKey[2] == 'L';
    assert l[5][2] == VerifiedAgainstKey[2] == 'V';
    assert l[6][2] == MethodKey[2] == 'V';
    assert l[7][2] == ChangesKey[2] == 'C';
    assert |l[1]| < |marker| && |l[2]| < |marker| && |l[3]| < |marker| && |l[8]| < |marker|;
    FooterStrip.NoLabelLineOfJoin(l, marker);
  }

  /** The footer starts with a line break and `Opening`, and goes on with the
      date. */
  lemma RenderOpening(number: string, realization: string, date: string)
    ensures "\n" + Opening < Render(number, realization, date)
  {
    var l := FooterLines(number, realization, date);
    var r := Render(number, realization, date);
    JoinHead(l);
    var head := "\n\n" + l[2] + "\n\n" + l[4];
    var op := "\n" + Opening;
    assert |op| <= |head| < |r|;
    assert r[..|head|] == head;
    forall k | 0 <= k < |op|
      ensures r[k] == op[k]
    {
      assert r[k] == head[k];
    }
  }

  /** The first five of several lines, joined. */
  lemma JoinHead(l: seq<string>)
    requires |l| > 5 && l[0] == "" && l[1] == "" && l[3] == ""
    ensures var head := "\n\n" + l[2] + "\n\n" + l[4];
      |JoinLines(l)| > |head| && JoinLines(l)[..|head|] == head
  {
    JoinLinesCons(l);
    JoinLinesCons(l[1..]);
    JoinLinesCons(l[2..]);
    JoinLinesCons(l[3..]);
    JoinLinesCons(l[4..]);
    assert l[1..][1..] == l[2..] && l[2..][1..] == l[3..] && l[3..][1..] == l[4..] && l[4..][1..] == l[5..];
  }
}
