/**
 File names of module documents: which names the directory scan selects, and
 the module number a name carries (the first `module_<digits>.md` inside it).
 */
module ModuleFiles {
  import opened Wrappers
  import opened Text

  const NamePrefix := "module_"
  const NameExtension := ".md"
  const NotesSuffix := "_notes.md"

  /** The document name for the digit string `number`. */
  function FileName(number: string): string {
    NamePrefix + number + NameExtension
  }

  /* ------------------------------------------------------ number extraction */

  /** `module_<number>.md` occurs in `name` starting at index `i`, with `number`
      a non-empty run of digits: one match of the search pattern. */
  ghost predicate NumberAt(name: string, i: int, number: string) {
    0 <= i <= |name| && FramedDigits(name[i..], NamePrefix, number, NameExtension)
  }

  /** What the search pattern finds when tried at index `i` alone. */
  function NumberStartingAt(name: string, i: nat): (r: Option<string>)
    requires i <= |name|
    ensures r.Some? ==> NumberAt(name, i, r.value)
    ensures forall number :: NumberAt(name, i, number) ==> r == Some(number)
  {
    MatchFramedDigits(name[i..], NamePrefix, NameExtension)
  }

  /** The test the search applies at each start position. */
  function NumberTest(name: string): nat -> bool {
    (i: nat) => i <= |name| && NumberStartingAt(name, i).Some?
  }

  /** The leftmost index at which the search pattern matches. */
  function FindNumber(name: string): Option<nat> {
    FindFirst(NumberTest(name), 0, |name|)
  }

  /** The search finds the leftmost match, and nothing when there is none. */
  lemma FindNumberSpec(name: string)
    ensures FindNumber(name).Some? ==> var i := FindNumber(name).value;
      i <= |name| && NumberStartingAt(name, i).Some?
      && forall j, number :: 0 <= j < i ==> !NumberAt(name, j, number)
    ensures FindNumber(name).None? ==> forall j, number :: !NumberAt(name, j, number)
  {
    var test := NumberTest(name);
    forall j: nat, number | NumberAt(name, j, number)
      ensures test(j)
    {
    }
  }

  /** The module number of a document name: the digits of the leftmost
      `module_<digits>.md` in it, or nothing when there is none. */
  function ModuleNumber(name: string): (r: Option<string>)
    ensures r.None? <==> forall i, number :: !NumberAt(name, i, number)
    ensures r.Some? ==> exists i ::
      && NumberAt(name, i, r.value)
      && forall j, number :: 0 <= j < i ==> !NumberAt(name, j, number)
  {
    FindNumberSpec(name);
    match FindNumber(name)
    case Some(i) => NumberStartingAt(name, i)
    case None => None
  }

  /** Naming a document after a digit string and reading its number back gives
      that digit string. */
  lemma {:induction false} ModuleNumberOfFileName(number: string)
    requires |number| > 0 && AllDigits(number)
    ensures ModuleNumber(FileName(number)) == Some(number)
  {
    var name := FileName(number);
    assert NumberAt(name, 0, number) by {
      assert name[0..] == name;
      assert FileName(number) == NamePrefix + number + NameExtension;
    }
    var found := ModuleNumber(name).value;
    var k :| NumberAt(name, k, found) && forall j, n :: 0 <= j < k ==> !NumberAt(name, j, n);
    assert k == 0;
    assert NumberStartingAt(name, 0) == Some(found);
  }

  /* ------------------------------------------------------------ enumeration */

  /** The directory glob `module_*.md`: the whole name is `module_`, any text,
      then `.md`. */
  predicate MatchesGlob(name: string) {
    |name| >= |NamePrefix| + |NameExtension| && StartsWith(name, NamePrefix) && EndsWith(name, NameExtension)
  }

  /** Notes documents are listed by the glob but left alone. */
  predicate IsNotesFile(name: string) {
    EndsWith(name, NotesSuffix)
  }

  /** The names the directory scan hands to the rewriter: those of the form
      `module_` + middle + `.md` that do not end in `_notes.md`. */
  function Selected(name: string): (r: bool)
    ensures r <==> (exists middle :: name == FileName(middle)) && !EndsWith(name, NotesSuffix)
  {
    GlobShape(name);
    MatchesGlob(name) && !IsNotesFile(name)
  }

  /** The glob accepts exactly the names of the form `module_` + middle + `.md`. */
  lemma GlobShape(name: string)
    ensures MatchesGlob(name) <==> exists middle :: name == FileName(middle)
  {
    if MatchesGlob(name) {
      var middle := name[|NamePrefix|..|name| - |NameExtension|];
      assert name == FileName(middle);
    }
  }
}
