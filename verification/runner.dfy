/**
 The pass over the modules directory: list the module documents, leave out the
 notes documents, sort the rest by name, run the rewrite on each in turn and
 count the documents it rewrote. The directory is a listing of names and a map
 from each name to its text.
 */
module Runner {
  import opened Text
  import ModuleFiles
  import opened Timestamp

  /* ---------------------------------------------------------------- sorting */

  /** Names in ascending code-point order. */
  predicate Sorted(s: seq<string>) {
    forall i, j :: 0 <= i < j < |s| ==> StrLe(s[i], s[j])
  }

  /** Inserts `x` into `s` in front of the first name it sorts before. */
  function Insert(x: string, s: seq<string>): (r: seq<string>)
    ensures multiset(r) == multiset(s) + multiset{x}
    ensures forall k :: 0 <= k < |r| ==> r[k] == x || r[k] in s
    decreases |s|
  {
    if |s| == 0 then [x]
    else if StrLe(x, s[0]) then [x] + s
    else
      var rest := Insert(x, s[1..]);
      assert s == [s[0]] + s[1..];
      var r := [s[0]] + rest;
      assert forall k :: 0 < k < |r| ==> r[k] == rest[k - 1];
      r
  }

  /** Insertion keeps a sorted sequence sorted. */
  lemma {:induction false} InsertSorted(x: string, s: seq<string>)
    requires Sorted(s)
    ensures Sorted(Insert(x, s))
    decreases |s|
  {
    if |s| == 0 {
    } else if StrLe(x, s[0]) {
      forall k | 1 <= k < |s|
        ensures StrLe(x, s[k])
      {
        StrLeTransitive(x, s[0], s[k]);
      }
    } else {
      StrLeTotal(x, s[0]);
      var rest := Insert(x, s[1..]);
      InsertSorted(x, s[1..]);
      forall k | 0 <= k < |rest|
        ensures StrLe(s[0], rest[k])
      {
        if rest[k] != x {
          var m :| 0 <= m < |s[1..]| && s[1..][m] == rest[k];
          assert s[1..][m] == s[m + 1];
        }
      }
      var r := [s[0]] + rest;
      assert forall k :: 0 < k < |r| ==> r[k] == rest[k - 1];
    }
  }

  /** Insertion sort of a listing. */
  function Sort(s: seq<string>): (r: seq<string>)
    ensures multiset(r) == multiset(s)
    decreases |s|
  {
    if |s| == 0 then []
    else
      var r := Insert(s[0], Sort(s[1..]));
      assert s == [s[0]] + s[1..];
      r
  }

  /** The sort's result is in ascending order. */
  lemma {:induction false} SortSorted(s: seq<string>)
    ensures Sorted(Sort(s))
    decreases |s|
  {
    if |s| > 0 {
      SortSorted(s[1..]);
      InsertSorted(s[0], Sort(s[1..]));
    }
  }

  /** Two sorted arrangements of the same names are the same sequence: the
      order is total, so sorting leaves no choice. */
  lemma {:induction false} SortedUnique(a: seq<string>, b: seq<string>)
    requires Sorted(a) && Sorted(b) && multiset(a) == multiset(b)
    ensures a == b
    decreases |a|
  {
    if |a| > 0 {
      assert a[0] in multiset(b);
      assert b[0] in multiset(a);
      var i :| 0 <= i < |b| && b[i] == a[0];
      var j :| 0 <= j < |a| && a[j] == b[0];
      StrLeReflexive(a[0]);
      assert StrLe(b[0], a[0]) by {
        if i > 0 { assert StrLe(b[0], b[i]); }
      }
      assert StrLe(a[0], b[0]) by {
        if j > 0 { assert StrLe(a[0], a[j]); }
      }
      StrLeAntisymmetric(a[0], b[0]);
      assert a == [a[0]] + a[1..];
      assert b == [b[0]] + b[1..];
      assert multiset(a[1..]) == multiset(b[1..]) by {
        assert multiset(a) == multiset{a[0]} + multiset(a[1..]);
        assert multiset(b) == multiset{a[0]} + multiset(b[1..]);
        forall x ensures multiset(a[1..])[x] == multiset(b[1..])[x] {
          assert multiset(a)[x] == multiset{a[0]}[x] + multiset(a[1..])[x];
          assert multiset(b)[x] == multiset{a[0]}[x] + multiset(b[1..])[x];
        }
      }
      assert Sorted(a[1..]) by {
        forall p, q | 0 <= p < q < |a[1..]| ensures StrLe(a[1..][p], a[1..][q]) {
          assert StrLe(a[p + 1], a[q + 1]);
        }
      }
      assert Sorted(b[1..]) by {
        forall p, q | 0 <= p < q < |b[1..]| ensures StrLe(b[1..][p], b[1..][q]) {
          assert StrLe(b[p + 1], b[q + 1]);
        }
      }
      SortedUnique(a[1..], b[1..]);
    }
  }

  /* -------------------------------------------------------------- selection */

  /** The listed names the glob matches and that are not notes documents, in
      listing order. */
  function Filter(listing: seq<string>): (r: seq<string>)
    ensures forall n :: multiset(r)[n] == if ModuleFiles.Selected(n) then multiset(listing)[n] else 0
    decreases |listing|
  {
    if |listing| == 0 then []
    else
      var rest := Filter(listing[1..]);
      assert listing == [listing[0]] + listing[1..];
      if ModuleFiles.Selected(listing[0]) then [listing[0]] + rest else rest
  }

  /** The documents the pass visits: the selected names, sorted. Each
      selected name is visited as often as it is listed, and nothing else is
      visited. */
  function SelectModuleFiles(listing: seq<string>): (r: seq<string>)
    ensures Sorted(r)
    ensures forall n :: multiset(r)[n] == if ModuleFiles.Selected(n) then multiset(listing)[n] else 0
  {
    SortSorted(Filter(listing));
    Sort(Filter(listing))
  }

  /** Visited means selected and listed. */
  lemma VisitedNames(listing: seq<string>, n: string)
    ensures n in SelectModuleFiles(listing) <==> n in listing && ModuleFiles.Selected(n)
  {
    var r := SelectModuleFiles(listing);
    assert n in r <==> n in multiset(r);
    assert n in listing <==> n in multiset(listing);
  }

  /** Every visited document is a file of the directory. */
  lemma VisitedAreFiles(listing: seq<string>, files: map<string, string>)
    requires forall k :: 0 <= k < |listing| ==> listing[k] in files
    ensures var visited := SelectModuleFiles(listing);
      forall k :: 0 <= k < |visited| ==> visited[k] in files
  {
    var visited := SelectModuleFiles(listing);
    forall k | 0 <= k < |visited|
      ensures visited[k] in files
    {
      VisitedNames(listing, visited[k]);
    }
  }

  /* ------------------------------------------------------------ the pass */

  /** Names listed once each, as in a directory. */
  ghost predicate Distinct(s: seq<string>) {
    forall n :: multiset(s)[n] <= 1
  }

  /** How many of `names` the rewriter would rewrite. */
  function CountProcessable(names: seq<string>): (n: nat)
    ensures n <= |names|
  {
    if |names| == 0 then 0
    else CountProcessable(names[..|names| - 1]) + if Processable(names[|names| - 1]) then 1 else 0
  }

  /** Every name counts exactly when the rewriter accepts every name. */
  lemma CountAll(names: seq<string>)
    ensures CountProcessable(names) == |names| <==> forall k :: 0 <= k < |names| ==> Processable(names[k])
  {
    if forall k :: 0 <= k < |names| ==> Processable(names[k]) {
      CountAllAccepted(names);
    } else {
      var k :| 0 <= k < |names| && !Processable(names[k]);
      CountOneRejected(names, k);
    }
  }

  /** When the rewriter accepts every name, every name counts. */
  lemma {:induction false} CountAllAccepted(names: seq<string>)
    requires forall k :: 0 <= k < |names| ==> Processable(names[k])
    ensures CountProcessable(names) == |names|
    decreases |names|
  {
    if |names| > 0 {
      var init := names[..|names| - 1];
      assert forall k :: 0 <= k < |init| ==> init[k] == names[k];
      CountAllAccepted(init);
    }
  }

  /** One name the rewriter rejects keeps the count below the length. */
  lemma {:induction false} CountOneRejected(names: seq<string>, k: nat)
    requires k < |names| && !Processable(names[k])
    ensures CountProcessable(names) < |names|
    decreases |names|
  {
    var init := names[..|names| - 1];
    if k < |init| {
      assert init[k] == names[k];
      CountOneRejected(init, k);
    } else {
      assert CountProcessable(names) == CountProcessable(init);
    }
  }

  /** No name counts exactly when the rewriter accepts none. */
  lemma {:induction false} CountNone(names: seq<string>)
    ensures CountProcessable(names) == 0 <==> forall k :: 0 <= k < |names| ==> !Processable(names[k])
    decreases |names|
  {
    if |names| > 0 {
      var init := names[..|names| - 1];
      CountNone(init);
      var last := names[|names| - 1];
      assert CountProcessable(names) == CountProcessable(init) + if Processable(last) then 1 else 0;
      assert forall k :: 0 <= k < |names| ==> names[k] == if k < |init| then init[k] else last;
    }
  }

  /** The text a document holds after the rewriter has seen it once. */
  function AfterOneRun(name: string, content: string): (r: string)
    ensures Processable(name) ==> AddOrUpdateTimestamp(name, content) == Rewritten(r)
    ensures !Processable(name) ==> r == content
  {
    match AddOrUpdateTimestamp(name, content)
    case Rewritten(c) => c
    case Skipped(_) => content
  }

  /** The directory after the rewriter has seen `names` in order. */
  function RunAll(names: seq<string>, files: map<string, string>): (r: map<string, string>)
    requires forall k :: 0 <= k < |names| ==> names[k] in files
    ensures r.Keys == files.Keys
    decreases |names|
  {
    if |names| == 0 then files
    else
      var m := RunAll(names[..|names| - 1], files);
      var n := names[|names| - 1];
      m[n := AfterOneRun(n, m[n])]
  }

  /** A document the pass never visits keeps its text. */
  lemma {:induction false} RunAllUnvisited(names: seq<string>, files: map<string, string>, n: string)
    requires forall k :: 0 <= k < |names| ==> names[k] in files
    requires n in files && n !in names
    ensures RunAll(names, files)[n] == files[n]
    decreases |names|
  {
    if |names| > 0 {
      var init := names[..|names| - 1];
      assert n !in init;
      RunAllUnvisited(init, files, n);
    }
  }

  /** A document visited once is rewritten once, from its original text. */
  lemma {:induction false} RunAllVisitedOnce(names: seq<string>, files: map<string, string>, n: string)
    requires forall k :: 0 <= k < |names| ==> names[k] in files
    requires Distinct(names) && n in names
    ensures RunAll(names, files)[n] == AfterOneRun(n, files[n])
    decreases |names|
  {
    var init := names[..|names| - 1];
    var last := names[|names| - 1];
    assert names == init + [last];
    assert multiset(names) == multiset(init) + multiset{last};
    if last == n {
      assert multiset(names)[n] == multiset(init)[n] + 1;
      assert n !in multiset(init);
      RunAllUnvisited(init, files, n);
    } else {
      assert n in init;
      assert Distinct(init) by {
        forall m ensures multiset(init)[m] <= 1 {
          assert multiset(names)[m] <= 1;
        }
      }
      RunAllVisitedOnce(init, files, n);
    }
  }

  /** One pass over the directory: the documents visited, how many were
      rewritten, and the texts afterwards. */
  method ProcessModules(listing: seq<string>, files: map<string, string>)
    returns (visited: seq<string>, successes: nat, after: map<string, string>)
    requires forall k :: 0 <= k < |listing| ==> listing[k] in files
    ensures visited == SelectModuleFiles(listing)
    ensures successes == CountProcessable(visited) && successes <= |visited|
    ensures forall k :: 0 <= k < |visited| ==> visited[k] in files
    ensures after == RunAll(visited, files)
  {
    visited := SelectModuleFiles(listing);
    VisitedAreFiles(listing, files);
    successes := 0;
    after := files;
    for i := 0 to |visited|
      invariant successes == CountProcessable(visited[..i])
      invariant after == RunAll(visited[..i], files)
    {
      var name := visited[i];
      var outcome := AddOrUpdateTimestamp(name, after[name]);
      AfterOneRunOutcome(name, after[name], outcome);
      RunAllSnoc(visited, files, i);
      if outcome.Rewritten? {
        after := after[name := outcome.content];
        successes := successes + 1;
      } else {
        assert after[name := after[name]] == after;
      }
    }
    assert visited[..|visited|] == visited;
  }

  /** The pass over one more name rewrites that name's document once. */
  lemma RunAllSnoc(names: seq<string>, files: map<string, string>, i: nat)
    requires forall k :: 0 <= k < |names| ==> names[k] in files
    requires i < |names|
    ensures var m := RunAll(names[..i], files);
      RunAll(names[..i + 1], files) == m[names[i] := AfterOneRun(names[i], m[names[i]])]
    ensures CountProcessable(names[..i + 1]) == CountProcessable(names[..i]) + if Processable(names[i]) then 1 else 0
  {
    assert names[..i + 1][..i] == names[..i];
  }

  /** The outcome of one document decides its new text. */
  lemma AfterOneRunOutcome(name: string, content: string, outcome: Outcome)
    requires outcome == AddOrUpdateTimestamp(name, content)
    ensures outcome.Rewritten? <==> Processable(name)
    ensures outcome.Rewritten? ==> AfterOneRun(name, content) == outcome.content
    ensures outcome.Skipped? ==> AfterOneRun(name, content) == content
  {
  }

  /** What one pass does to a directory whose listing names each file once:
      every visited document is rewritten exactly once from its original
      text, every other file keeps its text, and the count is the number of
      visited documents the rewriter accepts. */
  lemma PassEffect(listing: seq<string>, files: map<string, string>, n: string)
    requires forall k :: 0 <= k < |listing| ==> listing[k] in files
    requires Distinct(listing) && n in files
    ensures var visited := SelectModuleFiles(listing);
      && (forall k :: 0 <= k < |visited| ==> visited[k] in files)
      && RunAll(visited, files).Keys == files.Keys
      && (n in listing && ModuleFiles.Selected(n) ==> RunAll(visited, files)[n] == AfterOneRun(n, files[n]))
      && (!(n in listing && ModuleFiles.Selected(n)) ==> RunAll(visited, files)[n] == files[n])
  {
    var visited := SelectModuleFiles(listing);
    VisitedAreFiles(listing, files);
    VisitedNames(listing, n);
    assert Distinct(visited) by {
      forall m ensures multiset(visited)[m] <= 1 {
        assert multiset(listing)[m] <= 1;
      }
    }
    if n in visited {
      RunAllVisitedOnce(visited, files, n);
    } else {
      RunAllUnvisited(visited, files, n);
    }
  }
}
