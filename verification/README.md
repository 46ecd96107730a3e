# Timestamp footers for module documents, in Dafny

`add_timestamps.py` maintains the documentation of a set of model modules. For
every `module_<NN>.md` document in a `modules/` directory it:
- reads the module number from the file name;
- looks that number up in a fixed table of realizations and verification dates;
- removes earlier status footers from the text, in three regular-expression
  passes;
- appends a standard "Last Verified" footer that names the date, the
  realization's source files, the method and a change note.

`main` picks the documents with the glob `module_*.md`, leaves out the
`_notes.md` documents, sorts the rest by name, rewrites each one, and counts
the documents it rewrote.

This project models that logic as pure functions over strings. The filesystem
becomes a listing of names plus a map from each name to its text.

| file | module | what it holds |
|---|---|---|
| `text.dfy` | `Wrappers`, `Text` | `Option`, Python's `str.isspace`/`rstrip`, digit runs, line splitting and joining, the leftmost-match search, subsequences, code-point order of strings |
| `module_files.dfy` | `ModuleFiles` | the module number a file name carries; the glob and the notes filter |
| `realizations.dfy` | `Realizations` | the table of 46 rows |
| `footer_strip.dfy` | `FooterStrip` | the three stripping passes |
| `footer.dfy` | `Footer` | the footer template |
| `timestamp.dfy` | `Timestamp` | one document: skip or rewrite; what a second run does |
| `stable_update.dfy` | `StableUpdate` | a corrected rewrite that replaces its own earlier footer (see Findings) |
| `runner.dfy` | `Runner` | the pass over the directory |

The regular expressions are written out as scans over characters, not as a
regex engine:
- `module_(\d+)\.md` at line 65: the leftmost start position where
  `module_`, a greedy digit run and `.md` follow.
- Pass 1 at lines 82-87, DOTALL mode: the leftmost `\n---\n\n**Module <digits> Status**:`
  header that has, at or after the header's end, a `---` followed only by
  whitespace. The match runs to the end of the text, so the text is cut at
  the header.
- Pass 2 at lines 89-95, MULTILINE mode: every line break that is followed by
  `**Documentation Date**:`, together with the rest of that line. This happens
  anywhere in the text, not only at its end, whatever the comment says.

Whitespace is the exact set of characters Python's `str.isspace()` accepts,
which is also what `\s` matches in a `str` pattern.

The docstring at line 62 says the script adds or updates the footer, and the
comment at line 80 says any existing status footer is removed first. Read
together, they mean a second run should replace the footer it wrote, not add
another. The code does not do that, because no pass matches the footer it
writes. The model follows the code. `StableUpdate` holds
the corrected behaviour and its proof (see Findings).

## Model

| member | source | states |
|---|---|---|
| Text.RStrip | add_timestamps.py:98-100 | `rstrip` keeps a prefix, removes only whitespace and leaves no trailing whitespace |
| Text.RStripIdempotent | add_timestamps.py:114 | right-trimming text already trimmed changes nothing |
| Text.FindFirst | add_timestamps.py:65 | a search returns the leftmost start position where the pattern matches, and none when it matches at no position |
| Text.MatchFramedDigits | add_timestamps.py:65 | at a given start, `prefix\d+suffix` matches at most one digit string, and it finds that string whenever one matches |
| Text.StrLeTotal | add_timestamps.py:131-134 | any two names are ordered one way or the other |
| Text.StrLeTransitive | add_timestamps.py:131-134 | the name order is transitive |
| Text.StrLeAntisymmetric | add_timestamps.py:131-134 | two names ordered both ways are equal |
| ModuleFiles.NumberStartingAt | add_timestamps.py:65 | at one start position the name pattern yields exactly the digit string that matches there, if any |
| ModuleFiles.FindNumberSpec | add_timestamps.py:65 | the number search stops at the leftmost match and finds nothing when no position matches |
| ModuleFiles.ModuleNumber | add_timestamps.py:65-69 | no number exactly when no `module_<digits>.md` occurs anywhere in the name; otherwise the digits of the leftmost occurrence |
| ModuleFiles.ModuleNumberOfFileName | add_timestamps.py:65-69 | reading the number back from `module_<digits>.md` gives those digits |
| ModuleFiles.GlobShape | add_timestamps.py:132 | the glob accepts exactly the names `module_` + anything + `.md` |
| ModuleFiles.Selected | add_timestamps.py:132-133 | the filter of the directory scan: a name is kept exactly when it has the form `module_` + anything + `.md` and does not end in `_notes.md` |
| Realizations.Lookup | add_timestamps.py:12-75 | the lookup in the table: a number finds a row exactly when it is the zero-padded two-digit key of a row, and then it finds that row; nothing else, such as "9", is a key |
| Realizations.LookupByRow | add_timestamps.py:12-59 | the two-digit form of a row number finds that row |
| Realizations.TableDates | add_timestamps.py:12-59 | every row is dated 2025-10-13 |
| Realizations.UnpaddedNumbersAreAbsent | add_timestamps.py:71-73 | "9" is not a key although "09" is |
| Realizations.Module30Entry | add_timestamps.py:28 | row "30" is realization `croparea_nov24`, dated 2025-10-13 |
| FooterStrip.ClosingRuleSpec | add_timestamps.py:83 | the tail `---\s*$` can match at or after a position exactly when the right-trimmed text ends in `---` at or after it |
| FooterStrip.LegacyBlockAtSpec | add_timestamps.py:82-87 | the direct decision at a position agrees with the legacy pattern at that position, both ways |
| FooterStrip.FindLegacyBlockSpec | add_timestamps.py:82-87 | the legacy search finds the leftmost match, and nothing when none exists |
| FooterStrip.StripLegacyStatus | add_timestamps.py:82-87 | pass 1 keeps a prefix; the text is untouched exactly when the pattern matches nowhere; otherwise the cut lands on the leftmost match |
| FooterStrip.LegacyBlockRemoved | add_timestamps.py:82-87 | a header, any text, a `---` and trailing whitespace appended to a text are all cut, along with anything after an earlier header |
| FooterStrip.NoLegacyBlockWithoutClosingRule | add_timestamps.py:82-87 | text whose right-trimmed end is not `---` passes pass 1 unchanged |
| FooterStrip.DropDocDateLinesSpec | add_timestamps.py:89-95 | after pass 2 no line break is followed by the date label; pass 2 only deletes characters; text with no such line is unchanged |
| FooterStrip.DropDocDateLines | add_timestamps.py:89-95 | pass 2, computed as a scan, equals the line-by-line reading: it keeps the first line and every later line that does not start with the documentation-date label |
| FooterStrip.StripTrailingRule | add_timestamps.py:97-100 | pass 3 keeps a prefix with no trailing whitespace and removes at most one `\n---`, which must sit among trailing whitespace |
| FooterStrip.OneRuleRemoved | add_timestamps.py:97-100 | `x\n---\n---` becomes `x\n---` |
| FooterStrip.StripFooters | add_timestamps.py:82-100 | after the three passes the body ends in a non-space or is empty |
| FooterStrip.StripFootersDeletesOnly | add_timestamps.py:82-100 | the three passes only delete: the body is a subsequence of the input, no longer than it, and has no date line |
| Footer.Render | add_timestamps.py:103-111 | the footer text; when the number, realization and date carry no line break, splitting it at line breaks gives back its nine template lines, with the date on line 4 |
| Footer.RenderEnds | add_timestamps.py:103-111 | the footer starts with a line break, ends with the change note and one line break, and `rstrip` removes only that break |
| Footer.RenderHasNoDocDateLine | add_timestamps.py:103-111 | no line of the footer starts with the documentation-date label |
| Footer.RenderOpening | add_timestamps.py:103-107 | the footer opens with two line breaks, the rule, a blank line and the "Last Verified" key |
| Timestamp.ModuleNumberIsDigits | add_timestamps.py:65-69 | a module number read from a name is a non-empty digit string on one line |
| Timestamp.Processable | add_timestamps.py:65-73 | a document is rewritten exactly when the number its name carries is the two-digit key of some table row; the text plays no part |
| Timestamp.Rewrite | add_timestamps.py:98-114 | the new text is the stripped, right-trimmed body followed by the footer; the body is a subsequence of the old text, ends in a non-space or is empty, and has no date line |
| Timestamp.FooterOf | add_timestamps.py:75-111 | the footer of a processable document starts a new line, ends in `)` and a line break, and has no date line |
| Timestamp.AddOrUpdateTimestamp | add_timestamps.py:61-119 | skipped exactly when the name has no number or the number has no row, with the matching reason; otherwise the text ends with the document's footer |
| Timestamp.FooterOfLines | add_timestamps.py:107-108 | the footer's date line and source line carry the row's date and realization and the number read from the name |
| Timestamp.OutputEndsWithChangeNote | add_timestamps.py:110-114 | a rewritten document ends with the change-note line and a line break |
| Timestamp.UnpaddedNameIsSkipped | add_timestamps.py:65-73 | `module_9.md` is skipped as unknown module "9" |
| Timestamp.Module30Footer | add_timestamps.py:75-114 | `module_30.md` receives the footer for `croparea_nov24` dated 2025-10-13 |
| Timestamp.StripFootersOfFootedText | add_timestamps.py:82-100 | on a body with no documentation-date line followed by a footer, the passes remove only the footer's final line break |
| Timestamp.RewriteFootedText | add_timestamps.py:82-114 | rewriting text made of a body with no documentation-date line followed by a footer keeps the old footer, less its final line break, and appends a new one |
| Timestamp.RewriteTwice | add_timestamps.py:82-114 | a second rewrite keeps all but the last character of the first and appends the footer again |
| Timestamp.RerunChangesText | add_timestamps.py:82-114 | a second run on a processable document always changes its text |
| Timestamp.RerunStacksFooters | add_timestamps.py:82-114 | a second run yields the first output without its last character, followed by a second footer |
| StableUpdate.FindOpeningSpec | add_timestamps.py:80 | the search for an earlier standard footer finds the leftmost one, and nothing when there is none |
| StableUpdate.CutOwnFooter | add_timestamps.py:80 | the cut keeps a prefix free of footer openings; it changes the text exactly when an opening occurs, and then cuts right at one |
| StableUpdate.StableRewrite | add_timestamps.py:80-114 | the corrected text is a body followed by the footer; the body is a subsequence of the old text, ends in a non-space or is empty, and has no date line and no footer opening |
| StableUpdate.StableRewriteAgrees | add_timestamps.py:80-114 | when no footer opening is left after the three passes, the corrected rewrite equals the rewrite as written |
| StableUpdate.FirstOpeningAfterBody | add_timestamps.py:103-114 | in text the corrected rewrite produced (a body that holds no footer opening and ends in a non-space or is empty, then the footer), the first footer opening is the one right after the body |
| StableUpdate.StableRewriteIdempotent | add_timestamps.py:80-114 | the corrected rewrite applied to its own output changes nothing |
| StableUpdate.UpdateTimestamp | add_timestamps.py:61-119 | the same skip decisions as the original; a rewritten text ends with the document's footer |
| StableUpdate.UpdateIsIdempotent | add_timestamps.py:61-119 | updating an updated document gives it back unchanged |
| Runner.Insert | add_timestamps.py:131-134 | insertion adds exactly one copy of the name and nothing else |
| Runner.InsertSorted | add_timestamps.py:131-134 | insertion keeps a sorted list sorted |
| Runner.Sort | add_timestamps.py:131-134 | sorting permutes the listing |
| Runner.SortSorted | add_timestamps.py:131-134 | the sorted listing is in ascending code-point order |
| Runner.SortedUnique | add_timestamps.py:131-134 | two sorted arrangements of the same names are equal, so the sort's result is determined |
| Runner.Filter | add_timestamps.py:131-134 | each name is kept as often as it is listed when the glob accepts it and it is not a notes document, and never otherwise |
| Runner.SelectModuleFiles | add_timestamps.py:131-134 | the visited names are sorted and are, with multiplicity, the listed names the glob accepts minus the notes documents |
| Runner.VisitedNames | add_timestamps.py:131-134 | a name is visited exactly when it is listed and selected |
| Runner.VisitedAreFiles | add_timestamps.py:131-134 | every visited name is a file of the directory |
| Runner.CountProcessable | add_timestamps.py:139-143 | the count never exceeds the number of names |
| Runner.CountAll | add_timestamps.py:139-148 | every visited document counts exactly when every one is processable |
| Runner.CountAllAccepted | add_timestamps.py:139-143 | when every name is processable, all of them count |
| Runner.CountOneRejected | add_timestamps.py:139-143 | one skipped document keeps the count below the number visited |
| Runner.CountNone | add_timestamps.py:139-148 | the count is zero exactly when no visited document is processable |
| Runner.AfterOneRun | add_timestamps.py:141 | a processable document takes the rewritten text; any other keeps its text |
| Runner.AfterOneRunOutcome | add_timestamps.py:141-143 | the outcome of one document is a rewrite exactly when its name is processable, and decides its new text |
| Runner.RunAll | add_timestamps.py:140-143 | the pass keeps the directory's set of names |
| Runner.RunAllSnoc | add_timestamps.py:140-143 | one more visited name rewrites that document once and adds one to the count when it is processable |
| Runner.RunAllUnvisited | add_timestamps.py:140-143 | a document the pass does not visit keeps its text |
| Runner.RunAllVisitedOnce | add_timestamps.py:140-143 | a document visited once is rewritten once, from its original text |
| Runner.ProcessModules | add_timestamps.py:121-148 | the loop visits the selected names in order; its count is the number of processable ones, never more than the number visited; the texts afterwards are those of the pass |
| Runner.PassEffect | add_timestamps.py:131-148 | in a directory that lists each name once, every selected document is rewritten exactly once from its original text, and every other file keeps its text |

## Left out

- Filesystem access: `Path.exists`, `glob`, `read_text` and `write_text`. The
  directory is a listing of names and a map from each name to its text. The
  early return when `modules/` is missing, at lines 126-128, is not modelled.
  Neither are I/O errors.
- Text decoding: `read_text` decodes the bytes and turns `\r\n` and `\r` into
  `\n`, and `write_text` encodes the result. The model starts from the decoded
  text and ends with the text handed to `write_text`.
- All `print` output: the progress lines, the skip warning at line 72, and the
  summary. `Runner.ProcessModules` returns the count that the summary prints.
- The general `re` engine. Only the three fixed patterns are modelled, each
  as a scan over characters.
- ModuleFiles.ModuleNumber: `\d` is taken as the ASCII digits 0-9 only. In a
  Python `str` pattern, `\d` also matches the other Unicode decimal digits,
  and `re.search` stops at the first run of them. So a name with a non-ASCII
  digit run before an ASCII match, such as `module_\u0663.mdmodule_30.md`, is
  skipped by the script as an unknown module, but the model searches on and
  rewrites it with module 30's footer.
- FooterStrip.StripLegacyStatus: the `\d+` in the legacy header is taken as
  ASCII digits only. A header such as `**Module \u0662\u0661 Status**:` with
  non-ASCII decimal digits is cut by the script but left in place by the
  model.
- ModuleFiles.GlobShape: the glob's own subtleties are not modelled. These
  include entries that are directories and case sensitivity on
  case-insensitive filesystems. The listing is assumed to hold plain file
  names.
- Runner.SortSorted: `sorted` compares `Path` objects. On POSIX, within one
  directory, that comes down to comparing names by code point (a Windows path
  compares case-folded names), and that is how the model
  orders them.
- Runner.PassEffect: a listing that names the same file twice is outside
  this lemma. A real directory never lists a name twice. `Runner.RunAll`
  still covers such a listing.
- Runner.ProcessModules uses the rewrite as written, not the corrected one,
  because it models `main` as it stands.

## Findings

| source | as written | input that shows it | evidently intended | confidence | as-written member | corrected member |
|---|---|---|---|---|---|---|
| add_timestamps.py:80-114 | None of the three passes matches the footer that lines 103-111 write. A second run therefore keeps the previous footer, less its final line break, and appends a new footer below it. | `module_30.md` with any text, rewritten twice: the result holds two "Last Verified" footers | "Add or update" (line 62) and "Remove any existing status footer" (line 80): a second run should replace the footer, so running twice equals running once | high; not executed | Timestamp.RerunStacksFooters | StableUpdate.UpdateIsIdempotent |

The corrected rewrite, `StableUpdate.StableRewrite`, runs the same three passes.
It then also cuts everything from the first opening of a standard footer: a
blank line, the rule, a blank line and the "Last Verified" key. Only after that
does it right-trim the text and append the footer. When no such opening is
left after the three passes, it agrees with the original
(`StableUpdate.StableRewriteAgrees`). Text without an opening can still gain
one in pass 2, when a deleted date line sat between a rule and a "Last
Verified" line.
