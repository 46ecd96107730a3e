/**
 Adding or updating the footer of one module document: read the module
 number from the file name, look up its realization, strip earlier footers
 from the text and append the standard footer.
 */
module Timestamp {
  import opened Wrappers
  import opened Text
  import opened Realizations
  import ModuleFiles
  import FooterStrip
  import Footer

  /** Why a document is left alone. */
  datatype SkipReason =
    | NoModuleNumber               // the name holds no `module_<digits>.md`
    | UnknownModule(number: string) // the number has no row in the table

  /** What happens to one document: skipped, or rewritten with new text. */
  datatype Outcome = Skipped(reason: SkipReason) | Rewritten(content: string)

  /** The documents that get rewritten: decided by the name alone, exactly
      when the number it carries is the two-digit key of a table row. */
  function Processable(name: string): (r: bool)
    ensures r <==> exists v :: v < 100 && Entry(v).Some? && ModuleFiles.ModuleNumber(name) == Some(KeyOf(v))
  {
    match ModuleFiles.ModuleNumber(name)
    case None => false
    case Some(number) => Lookup(number).Some?
  }

  /** A digit string stays on one line. */
  lemma DigitsAreOneLine(s: string)
    requires AllDigits(s)
    ensures NoNewline(s)
  {
  }

  /** A module number read from a name is a non-empty run of digits. */
  lemma ModuleNumberIsDigits(name: string)
    requires ModuleFiles.ModuleNumber(name).Some?
    ensures var number := ModuleFiles.ModuleNumber(name).value;
      |number| > 0 && AllDigits(number) && NoNewline(number)
  {
    var number := ModuleFiles.ModuleNumber(name).value;
    var i :| ModuleFiles.NumberAt(name, i, number);
    DigitsAreOneLine(number);
  }

  /** The footer written for module `number` with table row `entry`. */
  function FooterFor(number: string, entry: Realization): string {
    Footer.Render(number, entry.name, entry.date)
  }

  /** The new text of a document: the stripped body, right-trimmed, followed
      by the footer. The body is what is left of the old text after deleting
      characters only; it ends in a non-space or is empty, and has no
      documentation-date line. */
  function Rewrite(content: string, footer: string): (r: string)
    ensures |footer| <= |r| && r[|r| - |footer|..] == footer
    ensures IsSubsequence(r[..|r| - |footer|], content)
    ensures NoTrailingSpace(r[..|r| - |footer|])
    ensures FooterStrip.NoDocDateLine(r[..|r| - |footer|])
  {
    var stripped := FooterStrip.StripFooters(content);
    var body := RStrip(stripped);
    FooterStrip.StripFootersDeletesOnly(content);
    PrefixIsSubsequence(body, stripped);
    SubsequenceTransitive(body, stripped, content);
    FooterStrip.NoLabelLinePrefix(stripped, body, FooterStrip.DocDateLabel);
    var r := body + footer;
    assert r[..|body|] == body;
    r
  }

  /** What the stripping passes rely on about a footer: it opens a new line,
      has no documentation-date line, and ends in `)` and one line break. */
  ghost predicate FooterShaped(f: string) {
    && |f| > 1 && f[0] == '\n' && f[|f| - 2] == ')' && f[|f| - 1] == '\n'
    && FooterStrip.NoDocDateLine(f)
  }

  lemma FooterForIsFooterShaped(number: string, entry: Realization)
    requires NoNewline(number) && NoNewline(entry.date)
    ensures FooterShaped(FooterFor(number, entry))
  {
    Footer.RenderEnds(number, entry.name, entry.date);
    Footer.RenderHasNoDocDateLine(number, entry.name, entry.date);
  }

  /** The footer a processable document receives. */
  function FooterOf(name: string): (f: string)
    requires Processable(name)
    ensures FooterShaped(f)
  {
    var number := ModuleFiles.ModuleNumber(name).value;
    ModuleNumberIsDigits(name);
    TableDates(number);
    FooterForIsFooterShaped(number, Lookup(number).value);
    FooterFor(number, Lookup(number).value)
  }

  /** One document: skip it when its name carries no module number or the
      number has no table row, otherwise rewrite it. The text only matters
      once the name has passed both checks. */
  function AddOrUpdateTimestamp(name: string, content: string): (r: Outcome)
    ensures r.Skipped? <==> !Processable(name)
    ensures r == Skipped(NoModuleNumber) <==> ModuleFiles.ModuleNumber(name).None?
    ensures r.Skipped? && r.reason.UnknownModule? ==>
      ModuleFiles.ModuleNumber(name) == Some(r.reason.number) && Lookup(r.reason.number).None?
    ensures r.Rewritten? ==> EndsWith(r.content, FooterOf(name))
  {
    match ModuleFiles.ModuleNumber(name)
    case None => Skipped(NoModuleNumber)
    case Some(number) =>
      match Lookup(number)
      case None => Skipped(UnknownModule(number))
      case Some(entry) => Rewritten(Rewrite(content, FooterFor(number, entry)))
  }

  /** The footer of a processable document names the date and the realization
      of its own table row, and the module number read from its name. */
  lemma FooterOfLines(name: string)
    requires Processable(name)
    ensures var number := ModuleFiles.ModuleNumber(name).value;
      var entry := Lookup(number).value;
      && |Lines(FooterOf(name))| == 9
      && Lines(FooterOf(name))[4] == Footer.LastVerifiedKey + entry.date
      && Lines(FooterOf(name))[5] == Footer.VerifiedAgainstKey + Footer.SourcePattern(number, entry.name)
  {
    var number := ModuleFiles.ModuleNumber(name).value;
    var entry := Lookup(number).value;
    ModuleNumberIsDigits(name);
    TableDates(number);
  }

  /** A rewritten document ends with the change note and one line break. */
  lemma OutputEndsWithChangeNote(name: string, content: string)
    requires Processable(name)
    ensures EndsWith(AddOrUpdateTimestamp(name, content).content, Footer.ChangesLine + "\n")
  {
    var number := ModuleFiles.ModuleNumber(name).value;
    var entry := Lookup(number).value;
    Footer.RenderEnds(number, entry.name, entry.date);
    EndsWithTransitive(AddOrUpdateTimestamp(name, content).content, FooterOf(name), Footer.ChangesLine + "\n");
  }

  /* ---------------------------------------------------------- re-running */

  /** The three stripping passes applied to a body with no documentation-date
      line followed by a footer-shaped tail remove only the tail's final line
      break. */
  lemma StripFootersOfFootedText(body: string, f: string)
    requires FooterStrip.NoDocDateLine(body) && FooterShaped(f)
    ensures FooterStrip.StripFooters(body + f) == body + f[..|f| - 1]
  {
    var c := body + f;
    var stem := f[..|f| - 1];
    assert f[|f| - 1..] == "\n";
    RStripUnique(f, |f| - 1);
    RStripAppend(body, f);
    var t := body + stem;
    assert RStrip(c) == t;
    assert t[|t| - 1] == ')';
    assert !EndsWith(t, FooterStrip.Rule);
    FooterStrip.NoLegacyBlockWithoutClosingRule(c);
    FooterStrip.DocDateLabelIsOneLine();
    FooterStrip.NoLabelLineAppend(body, f, FooterStrip.DocDateLabel);
    FooterStrip.DropDocDateLinesSpec(c);
    assert !EndsWith(t, FooterStrip.TrailingRule);
  }

  /** Rewriting a body with no documentation-date line followed by a footer
      keeps everything but the final line break and appends the footer again. */
  lemma RewriteFootedText(c: string, f: string)
    requires FooterShaped(f)
    requires |f| <= |c| && c[|c| - |f|..] == f
    requires FooterStrip.NoDocDateLine(c[..|c| - |f|])
    ensures Rewrite(c, f) == c[..|c| - 1] + f
  {
    var body := c[..|c| - |f|];
    var kept := body + f[..|f| - 1];
    assert c == body + f;
    StripFootersOfFootedText(body, f);
    assert kept[|kept| - 1] == ')';
    RewriteOfStripped(c, f, kept);
    assert c[..|c| - 1] == kept;
  }

  /** When the passes leave text that ends in a non-space, the rewrite only
      appends the footer to it. */
  lemma RewriteOfStripped(c: string, f: string, kept: string)
    requires FooterStrip.StripFooters(c) == kept && NoTrailingSpace(kept)
    ensures Rewrite(c, f) == kept + f
  {
    assert kept[..|kept|] == kept;
    RStripUnique(kept, |kept|);
  }

  /** Rewriting rewritten text keeps the old footer, minus its final line
      break, and appends the footer again. */
  lemma RewriteTwice(content: string, f: string, first: string)
    requires FooterShaped(f) && first == Rewrite(content, f)
    ensures Rewrite(first, f) == first[..|first| - 1] + f
  {
    RewriteFootedText(first, f);
  }

  lemma ProcessableRewrites(name: string, content: string)
    requires Processable(name)
    ensures AddOrUpdateTimestamp(name, content) == Rewritten(Rewrite(content, FooterOf(name)))
  {
  }

  lemma RerunChangesText(name: string, content: string)
    requires Processable(name)
    ensures var first := AddOrUpdateTimestamp(name, content).content;
      AddOrUpdateTimestamp(name, first).content != first
  {
    var f := FooterOf(name);
    var first := AddOrUpdateTimestamp(name, content).content;
    ProcessableRewrites(name, content);
    ProcessableRewrites(name, first);
    RewriteTwice(content, f, first);
    assert |first[..|first| - 1] + f| > |first|;
  }

  lemma RerunStacksFooters(name: string, content: string, first: string)
    requires Processable(name) && AddOrUpdateTimestamp(name, content) == Rewritten(first)
    ensures AddOrUpdateTimestamp(name, first) == Rewritten(first[..|first| - 1] + FooterOf(name))
  {
    ProcessableRewrites(name, first);
    assert AddOrUpdateTimestamp(name, first) == Rewritten(Rewrite(first, FooterOf(name)));
    ProcessableRewrites(name, content);
    assert first == Rewrite(content, FooterOf(name));
    RewriteTwice(content, FooterOf(name), first);
    assert Rewrite(first, FooterOf(name)) == first[..|first| - 1] + FooterOf(name);
  }

  /* ------------------------------------------------------------ examples */

  /** `module_9.md` names module "9", which is not the table key "09". */
  lemma UnpaddedNameIsSkipped(content: string)
    ensures AddOrUpdateTimestamp("module_9.md", content) == Skipped(UnknownModule("9"))
  {
    ModuleFiles.ModuleNumberOfFileName("9");
    assert ModuleFiles.FileName("9") == "module_9.md";
    UnpaddedNumbersAreAbsent();
  }

  /** `module_30.md` gets the footer for realization `croparea_nov24`. */
  lemma Module30Footer(content: string)
    ensures AddOrUpdateTimestamp("module_30.md", content) ==
      Rewritten(Rewrite(content, Footer.Render("30", "croparea_nov24", "2025-10-13")))
  {
    ModuleFiles.ModuleNumberOfFileName("30");
    assert ModuleFiles.FileName("30") == "module_30.md";
    Module30Entry();
  }
}
