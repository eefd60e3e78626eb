/**
 * src/test/register_ctests.py: for each test suite, the block of CTest
 * names under the suite's entry in CMakeLists.txt and the block of
 * `RUN_TEST_IF_ARGUMENT_EQUALS` lines in the suite's `run_tests` are
 * rewritten from the test functions found in the suite's source. Files
 * are given as their lines; reading and writing them is left out.
 */
module RegisterCTests {
  import opened Types
  import opened TextSearch
  import opened PythonLists

  /** A clamped scan start: a negative start skips nothing. */
  function FromIndex(i: int): nat
  {
    if i < 0 then 0 else i
  }

  /** `findLineIndexOfMatch`: the first line containing `element`, or -1. */
  method FindLineIndexOfMatch(lines: seq<string>, element: string) returns (index: int)
    ensures index == OrMinusOne(FirstLineFrom(lines, element, 0))
  {
    for i := 0 to |lines|
      invariant FirstLineFrom(lines, element, i) == FirstLineFrom(lines, element, 0)
    {
      if Contains(lines[i], element) {
        return i;
      }
    }
    return -1;
  }

  /**
   * The first line from `start` on that contains ")", unless a line
   * containing "addTestSuite" comes first (or is that line).
   */
  function NextClosingLine(lines: seq<string>, start: nat): (k: Option<nat>)
    ensures k.Some? ==>
      start <= k.value < |lines| &&
      Contains(lines[k.value], ")") && !Contains(lines[k.value], "addTestSuite")
    ensures k.Some? ==>
      forall i :: start <= i < k.value ==>
        !Contains(lines[i], ")") && !Contains(lines[i], "addTestSuite")
    ensures k.None? ==>
      forall i :: start <= i < |lines| && Contains(lines[i], ")") ==>
        exists j :: start <= j <= i && Contains(lines[j], "addTestSuite")
    decreases |lines| - start
  {
    if start >= |lines| then None
    else if Contains(lines[start], "addTestSuite") then None
    else if Contains(lines[start], ")") then Some(start)
    else NextClosingLine(lines, start + 1)
  }

  /** Characterises the closing line found from `start`. */
  lemma {:induction false} NextClosingLineIs(lines: seq<string>, start: nat, k: nat)
    requires start <= k < |lines|
    requires Contains(lines[k], ")") && !Contains(lines[k], "addTestSuite")
    requires forall i :: start <= i < k ==> !Contains(lines[i], ")") && !Contains(lines[i], "addTestSuite")
    ensures NextClosingLine(lines, start) == Some(k)
    decreases k - start
  {
    if start < k {
      NextClosingLineIs(lines, start + 1, k);
    }
  }

  /**
   * `findLineIndexOfNextClosingParenthesis`: the first line from
   * `startingIndex` on that contains ")", or -1 when there is none or an
   * "addTestSuite" line comes first.
   */
  method FindLineIndexOfNextClosingParenthesis(lines: seq<string>, startingIndex: int) returns (index: int)
    ensures index == OrMinusOne(NextClosingLine(lines, FromIndex(startingIndex)))
  {
    ghost var start := FromIndex(startingIndex);
    for i := 0 to |lines|
      invariant i > start ==> NextClosingLine(lines, i) == NextClosingLine(lines, start)
    {
      if i < startingIndex {
        continue;
      }
      if Contains(lines[i], "addTestSuite") {
        break;
      }
      if Contains(lines[i], ")") {
        return i;
      }
    }
    return -1;
  }

  /** `findLineIndexOfNextReturn`: the first line from `startingIndex` on containing "return true", or -1. */
  method FindLineIndexOfNextReturn(lines: seq<string>, startingIndex: int) returns (index: int)
    ensures index == OrMinusOne(FirstLineFrom(lines, ReturnTrue, FromIndex(startingIndex)))
  {
    ghost var start := FromIndex(startingIndex);
    for i := 0 to |lines|
      invariant i > start ==> FirstLineFrom(lines, ReturnTrue, i) == FirstLineFrom(lines, ReturnTrue, start)
    {
      if i < startingIndex {
        continue;
      }
      if Contains(lines[i], ReturnTrue) {
        return i;
      }
    }
    return -1;
  }

  /** The text written around a test's name on the line that registers it. */
  datatype EntryFormat = EntryFormat(before: string, after: string)

  /** A CMakeLists.txt line naming one test. */
  const CMakeEntry := EntryFormat("\t", "\n")

  /** A `run_tests` line running one test. */
  const SuiteEntry := EntryFormat("\tRUN_TEST_IF_ARGUMENT_EQUALS(", ");\n")

  /** One line per test, in order, each the test's name inside the format's text. */
  function Entries(f: EntryFormat, tests: seq<string>): (lines: seq<string>)
    ensures |lines| == |tests|
  {
    seq(|tests|, i requires 0 <= i < |tests| => f.before + tests[i] + f.after)
  }

  /** The block a rewrite starts at: after the anchor line, or at the top when there is none. */
  function BlockStart(anchor: Option<nat>): nat
  {
    if anchor.Some? then anchor.value + 1 else 0
  }

  /**
   * The block a rewrite ends before: the line found, or, when none is
   * found, the last line (the -1 of the search read as a slice bound).
   */
  function BlockStop(lines: seq<string>, found: Option<nat>): nat
  {
    if found.Some? then found.value
    else if |lines| == 0 then 0
    else |lines| - 1
  }

  /**
   * CMakeLists.txt after `updateCMakeLists` for a suite with the given
   * tests: the lines up to the first line naming the suite, one entry per
   * test, and the lines from the closing ")" line on.
   */
  function CMakeListsUpdate(lines: seq<string>, suite: string, tests: seq<string>): seq<string>
  {
    ClosingRewrite(lines, suite, Entries(CMakeEntry, tests))
  }

  /**
   * The lines after the first one containing `suite` (or from the top), up
   * to the closing ")" line (or up to the last line), replaced by `e`.
   */
  function ClosingRewrite(lines: seq<string>, suite: string, e: seq<string>): seq<string>
  {
    var start := BlockStart(FirstLineFrom(lines, suite, 0));
    var stop := BlockStop(lines, NextClosingLine(lines, start));
    Replace(lines, start, stop, e)
  }

  /** `updateCMakeLists`: the suite's CTest block rewritten from its source. */
  method UpdateCMakeLists(cmakeLines: seq<string>, suite: string, suiteSource: seq<string>)
    returns (updated: seq<string>)
    ensures updated == CMakeListsUpdate(cmakeLines, suite, FindAllTestsInFile(suiteSource))
  {
    var data := cmakeLines;
    var anchor := FindLineIndexOfMatch(data, suite);
    var testsStartIndex := anchor + 1;
    var closing := FindLineIndexOfNextClosingParenthesis(data, testsStartIndex);
    var testsEndIndex := closing - 1;
    var entries := Entries(CMakeEntry, FindAllTestsInFile(suiteSource));
    data := DeleteSlice(data, testsStartIndex, testsEndIndex + 1);
    data := InsertSlice(data, testsStartIndex, entries);
    DeleteThenInsert(cmakeLines, testsStartIndex, testsEndIndex + 1, entries);
    updated := data;
  }

  /**
   * When the suite and the closing ")" after it are found, the lines up to
   * and including the suite's line and those from the ")" line on are
   * kept, with one entry per test between them.
   */
  lemma CMakeListsUpdateKeeps(lines: seq<string>, suite: string, tests: seq<string>, a: nat, c: nat)
    requires FirstLineFrom(lines, suite, 0) == Some(a)
    requires NextClosingLine(lines, a + 1) == Some(c)
    ensures CMakeListsUpdate(lines, suite, tests) == lines[..a + 1] + Entries(CMakeEntry, tests) + lines[c..]
    ensures a < c
  {
    ClosingRewriteKeeps(lines, suite, Entries(CMakeEntry, tests), a, c);
  }

  /** With the suite's line at `a` and its closing line at `c`, only the lines between them are replaced. */
  lemma ClosingRewriteKeeps(lines: seq<string>, suite: string, e: seq<string>, a: nat, c: nat)
    requires FirstLineFrom(lines, suite, 0) == Some(a)
    requires NextClosingLine(lines, a + 1) == Some(c)
    ensures ClosingRewrite(lines, suite, e) == lines[..a + 1] + e + lines[c..]
    ensures a < c
  {
  }

  /**
   * Without a closing ")" after the suite's line (none at all, or an
   * "addTestSuite" line first), every line after the suite's line except
   * the file's last is replaced.
   */
  lemma CMakeListsUpdateWithoutClosing(lines: seq<string>, suite: string, tests: seq<string>, a: nat)
    requires FirstLineFrom(lines, suite, 0) == Some(a)
    requires NextClosingLine(lines, a + 1) == None
    requires a + 1 < |lines|
    ensures CMakeListsUpdate(lines, suite, tests) == lines[..a + 1] + Entries(CMakeEntry, tests) + [lines[|lines| - 1]]
  {
  }

  /**
   * Rewriting the CTest block twice gives what rewriting it once gives,
   * when no entry contains the suite's name, ")" or "addTestSuite".
   */
  lemma CMakeListsUpdateIdempotent(lines: seq<string>, suite: string, tests: seq<string>)
    requires FirstLineFrom(lines, suite, 0).Some?
    requires NextClosingLine(lines, FirstLineFrom(lines, suite, 0).value + 1).Some?
    requires NoneContains(Entries(CMakeEntry, tests), suite)
    requires NoneContains(Entries(CMakeEntry, tests), ")") && NoneContains(Entries(CMakeEntry, tests), "addTestSuite")
    ensures CMakeListsUpdate(CMakeListsUpdate(lines, suite, tests), suite, tests)
         == CMakeListsUpdate(lines, suite, tests)
  {
    ClosingRewriteIdempotent(lines, suite, Entries(CMakeEntry, tests));
  }

  /**
   * Once the lines after the suite's line up to its ")" line are `e`, and
   * `e` holds neither ")" nor "addTestSuite", rewriting again changes
   * nothing.
   */
  lemma {:induction false} ClosingRewriteIdempotent(lines: seq<string>, suite: string, e: seq<string>)
    requires FirstLineFrom(lines, suite, 0).Some?
    requires NextClosingLine(lines, FirstLineFrom(lines, suite, 0).value + 1).Some?
    requires NoneContains(e, ")") && NoneContains(e, "addTestSuite")
    ensures ClosingRewrite(ClosingRewrite(lines, suite, e), suite, e) == ClosingRewrite(lines, suite, e)
  {
    var a := FirstLineFrom(lines, suite, 0).value;
    var c := NextClosingLine(lines, a + 1).value;
    var r := ClosingRewrite(lines, suite, e);
    assert r == lines[..a + 1] + e + lines[c..] by {
      ClosingRewriteKeeps(lines, suite, e, a, c);
    }
    assert ClosingRewrite(r, suite, e) == r[..a + 1] + e + r[a + 1 + |e|..] by {
      ClosingRewriteTwiceSlices(lines, suite, e, a, c, r);
    }
    assert r[..a + 1] + e + r[a + 1 + |e|..] == r by {
      SpliceParts(lines, a + 1, c, e, r);
    }
  }

  /**
   * Where the suite's line and the closing ")" sit once the block is
   * rewritten, and so what a second rewrite replaces.
   */
  lemma ClosingRewriteTwiceSlices(lines: seq<string>, suite: string, e: seq<string>, a: nat, c: nat, r: seq<string>)
    requires FirstLineFrom(lines, suite, 0) == Some(a)
    requires NextClosingLine(lines, a + 1) == Some(c)
    requires NoneContains(e, ")") && NoneContains(e, "addTestSuite")
    requires r == lines[..a + 1] + e + lines[c..]
    ensures a + 1 + |e| <= |r| && ClosingRewrite(r, suite, e) == r[..a + 1] + e + r[a + 1 + |e|..]
  {
    assert FirstLineFrom(r, suite, 0) == Some(a) by {
      FirstLineKeptBefore(lines, suite, a, e + lines[c..], r);
    }
    assert NextClosingLine(r, a + 1) == Some(a + 1 + |e|) by {
      NextClosingAfterBlock(lines, a, c, e, r);
    }
    ClosingRewriteKeeps(r, suite, e, a, a + 1 + |e|);
  }

  /** Rewritten lines without ")" or "addTestSuite" move the closing line to just after them. */
  lemma NextClosingAfterBlock(lines: seq<string>, a: nat, c: nat, e: seq<string>, r: seq<string>)
    requires NextClosingLine(lines, a + 1) == Some(c)
    requires NoneContains(e, ")") && NoneContains(e, "addTestSuite")
    requires r == lines[..a + 1] + e + lines[c..]
    ensures NextClosingLine(r, a + 1) == Some(a + 1 + |e|)
  {
    var c' := a + 1 + |e|;
    assert r[c'] == lines[c];
    forall i | a + 1 <= i < c'
      ensures !Contains(r[i], ")") && !Contains(r[i], "addTestSuite")
    {
      assert r[i] == e[i - a - 1];
    }
    NextClosingLineIs(r, a + 1, c');
  }

  /**
   * The source after `updateTestSuiteFile` for the given tests: the lines
   * up to the `run_tests` signature, one `RUN_TEST_IF_ARGUMENT_EQUALS`
   * line per test, and the lines from the next "return true" on.
   */
  function TestSuiteUpdate(lines: seq<string>, tests: seq<string>): seq<string>
  {
    MarkedRewrite(lines, RunTestsSignature, ReturnTrue, Entries(SuiteEntry, tests))
  }

  const RunTestsSignature := "auto run_tests(std::string const& test)"

  const ReturnTrue := "return true"

  /**
   * The lines after the first one containing `open` (or from the top),
   * up to the first one from there containing `close` (or up to the last
   * line), replaced by `e`.
   */
  function MarkedRewrite(lines: seq<string>, open: string, close: string, e: seq<string>): seq<string>
  {
    var start := BlockStart(FirstLineFrom(lines, open, 0));
    var stop := BlockStop(lines, FirstLineFrom(lines, close, start));
    Replace(lines, start, stop, e)
  }

  /** `updateTestSuiteFile`: the suite's `run_tests` block rewritten from the suite's own tests. */
  method UpdateTestSuiteFile(suiteLines: seq<string>) returns (updated: seq<string>)
    ensures updated == TestSuiteUpdate(suiteLines, FindAllTestsInFile(suiteLines))
  {
    var data := suiteLines;
    var anchor := FindLineIndexOfMatch(data, RunTestsSignature);
    var testsStartIndex := anchor + 1;
    var returnIndex := FindLineIndexOfNextReturn(data, testsStartIndex);
    var testsEndIndex := returnIndex - 1;
    var entries := Entries(SuiteEntry, FindAllTestsInFile(suiteLines));
    data := DeleteSlice(data, testsStartIndex, testsEndIndex + 1);
    data := InsertSlice(data, testsStartIndex, entries);
    DeleteThenInsert(suiteLines, testsStartIndex, testsEndIndex + 1, entries);
    updated := data;
  }

  /**
   * When the signature and a "return true" after it are found, exactly
   * the lines strictly between them are replaced, one line per test.
   */
  lemma TestSuiteUpdateKeeps(lines: seq<string>, tests: seq<string>, a: nat, e: nat)
    requires FirstLineFrom(lines, RunTestsSignature, 0) == Some(a)
    requires FirstLineFrom(lines, ReturnTrue, a + 1) == Some(e)
    ensures TestSuiteUpdate(lines, tests) == lines[..a + 1] + Entries(SuiteEntry, tests) + lines[e..]
    ensures a < e
  {
    MarkedRewriteKeeps(lines, RunTestsSignature, ReturnTrue, Entries(SuiteEntry, tests), a, e);
  }

  /** With the `open` line at `a` and the next `close` line at `t`, only the lines between them are replaced. */
  lemma MarkedRewriteKeeps(lines: seq<string>, open: string, close: string, e: seq<string>, a: nat, t: nat)
    requires FirstLineFrom(lines, open, 0) == Some(a)
    requires FirstLineFrom(lines, close, a + 1) == Some(t)
    ensures MarkedRewrite(lines, open, close, e) == lines[..a + 1] + e + lines[t..]
    ensures a < t
  {
  }

  /**
   * Rewriting the `run_tests` block twice with the same tests gives what
   * rewriting it once gives, when the signature and a "return true" after
   * it are found and no new line contains either of them.
   */
  lemma TestSuiteUpdateIdempotent(lines: seq<string>, tests: seq<string>)
    requires FirstLineFrom(lines, RunTestsSignature, 0).Some?
    requires FirstLineFrom(lines, ReturnTrue, FirstLineFrom(lines, RunTestsSignature, 0).value + 1).Some?
    requires NoneContains(Entries(SuiteEntry, tests), RunTestsSignature)
    requires NoneContains(Entries(SuiteEntry, tests), ReturnTrue)
    ensures TestSuiteUpdate(TestSuiteUpdate(lines, tests), tests) == TestSuiteUpdate(lines, tests)
  {
    MarkedRewriteIdempotent(lines, RunTestsSignature, ReturnTrue, Entries(SuiteEntry, tests));
  }

  /**
   * Once the lines between the `open` line and the next `close` line are
   * `e`, and `e` names neither marker, rewriting again changes nothing.
   */
  lemma {:induction false} MarkedRewriteIdempotent(lines: seq<string>, open: string, close: string, e: seq<string>)
    requires FirstLineFrom(lines, open, 0).Some?
    requires FirstLineFrom(lines, close, FirstLineFrom(lines, open, 0).value + 1).Some?
    requires NoneContains(e, open) && NoneContains(e, close)
    ensures MarkedRewrite(MarkedRewrite(lines, open, close, e), open, close, e) == MarkedRewrite(lines, open, close, e)
  {
    var a := FirstLineFrom(lines, open, 0).value;
    var t := FirstLineFrom(lines, close, a + 1).value;
    var r := MarkedRewrite(lines, open, close, e);
    assert r == lines[..a + 1] + e + lines[t..] by {
      MarkedRewriteKeeps(lines, open, close, e, a, t);
    }
    assert MarkedRewrite(r, open, close, e) == r[..a + 1] + e + r[a + 1 + |e|..] by {
      MarkedRewriteTwiceSlices(lines, open, close, e, a, t, r);
    }
    assert r[..a + 1] + e + r[a + 1 + |e|..] == r by {
      SpliceParts(lines, a + 1, t, e, r);
    }
  }

  /**
   * Where the two marker lines sit once the block between them is
   * rewritten, and so what a second rewrite replaces.
   */
  lemma MarkedRewriteTwiceSlices(lines: seq<string>, open: string, close: string, e: seq<string>, a: nat, t: nat, r: seq<string>)
    requires FirstLineFrom(lines, open, 0) == Some(a)
    requires FirstLineFrom(lines, close, a + 1) == Some(t) && a < t
    requires NoneContains(e, close)
    requires r == lines[..a + 1] + e + lines[t..]
    ensures a + 1 + |e| <= |r| && MarkedRewrite(r, open, close, e) == r[..a + 1] + e + r[a + 1 + |e|..]
  {
    assert FirstLineFrom(r, open, 0) == Some(a) by {
      FirstLineKeptBefore(lines, open, a, e + lines[t..], r);
    }
    assert FirstLineFrom(r, close, a + 1) == Some(a + 1 + |e|) by {
      FirstLineAfterBlock(lines, close, a + 1, a, t, e, r);
    }
    MarkedRewriteKeeps(r, open, close, e, a, a + 1 + |e|);
  }

  /**
   * A rewritten block declares the same tests as the file it came from,
   * when neither the replaced lines nor the new ones contain "void ".
   */
  lemma {:induction false} ReplaceKeepsTests(lines: seq<string>, start: nat, stop: nat, block: seq<string>)
    requires start <= stop <= |lines|
    requires NoneContains(lines[start..stop], "void ")
    requires NoneContains(block, "void ")
    ensures FindAllTestsInFile(Replace(lines, start, stop, block)) == FindAllTestsInFile(lines)
  {
    assert Replace(lines, start, stop, block) == lines[..start] + block + lines[stop..];
    FindAllTestsAppend(lines[..start] + block, lines[stop..]);
    FindAllTestsAppend(lines[..start], block);
    FindAllTestsNone(block);
    assert lines == lines[..start] + lines[start..stop] + lines[stop..];
    FindAllTestsAppend(lines[..start] + lines[start..stop], lines[stop..]);
    FindAllTestsAppend(lines[..start], lines[start..stop]);
    FindAllTestsNone(lines[start..stop]);
  }

  /**
   * Running `updateTestSuiteFile` on its own output changes nothing, when
   * the signature and a "return true" after it are found, the replaced
   * lines declare no test, and no new line contains the signature,
   * "return true" or "void ".
   */
  lemma UpdateTestSuiteFileIdempotent(lines: seq<string>)
    requires FirstLineFrom(lines, RunTestsSignature, 0).Some?
    requires FirstLineFrom(lines, ReturnTrue, FirstLineFrom(lines, RunTestsSignature, 0).value + 1).Some?
    requires
      var a := FirstLineFrom(lines, RunTestsSignature, 0).value;
      var e := FirstLineFrom(lines, ReturnTrue, a + 1).value;
      NoneContains(lines[a + 1..e], "void ")
    requires
      var entries := Entries(SuiteEntry, FindAllTestsInFile(lines));
      NoneContains(entries, RunTestsSignature) && NoneContains(entries, ReturnTrue) &&
      NoneContains(entries, "void ")
    ensures
      var once := TestSuiteUpdate(lines, FindAllTestsInFile(lines));
      TestSuiteUpdate(once, FindAllTestsInFile(once)) == once
  {
    var a := FirstLineFrom(lines, RunTestsSignature, 0).value;
    var e := FirstLineFrom(lines, ReturnTrue, a + 1).value;
    var tests := FindAllTestsInFile(lines);
    ReplaceKeepsTests(lines, a + 1, e, Entries(SuiteEntry, tests));
    TestSuiteUpdateIdempotent(lines, tests);
  }
}
