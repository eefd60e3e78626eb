/**
 * src/test/generate_ctests.py: the older registration script. It counts
 * lines from 1, finds each suite's `list(APPEND test_cases` block by
 * scanning back from the suite's line in CMakeLists.txt, and rewrites the
 * `run_tests(char* argv[])` block of each suite's source. Files are given
 * as their lines; globbing, reading and writing them is left out.
 */
module GenerateCTests {
  import opened Types
  import opened TextSearch
  import opened PythonLists
  import RegisterCTests

  /** The scripts' 1-based line numbers, with -1 for "not found". */
  function LineNumber(k: Option<nat>): int
  {
    if k.Some? then k.value + 1 else -1
  }

  /** `findLineInList`: the number of the first line containing `needle`, or -1. */
  method FindLineInList(lines: seq<string>, needle: string) returns (num: int)
    ensures num == LineNumber(FirstLineFrom(lines, needle, 0))
  {
    for i := 0 to |lines|
      invariant FirstLineFrom(lines, needle, i) == FirstLineFrom(lines, needle, 0)
    {
      if Contains(lines[i], needle) {
        return i + 1;
      }
    }
    return -1;
  }

  /**
   * Scanning back from the line just before index `below`: the nearest
   * line containing "list(APPEND test_cases", unless a line containing
   * "addTestSuite" comes first (or is that line).
   */
  function PreviousListLine(lines: seq<string>, below: nat): (k: Option<nat>)
    requires below <= |lines|
    ensures k.Some? ==>
      k.value < below &&
      Contains(lines[k.value], ListMarker) && !Contains(lines[k.value], "addTestSuite")
    ensures k.Some? ==>
      forall i :: k.value < i < below ==>
        !Contains(lines[i], ListMarker) && !Contains(lines[i], "addTestSuite")
    ensures k.None? ==>
      forall i :: 0 <= i < below && Contains(lines[i], ListMarker) ==>
        exists j :: i <= j < below && Contains(lines[j], "addTestSuite")
  {
    if below == 0 then None
    else if Contains(lines[below - 1], "addTestSuite") then None
    else if Contains(lines[below - 1], ListMarker) then Some(below - 1)
    else PreviousListLine(lines, below - 1)
  }

  const ListMarker := "list(APPEND test_cases"

  /** Characterises the list line found below `below`. */
  lemma {:induction false} PreviousListLineIs(lines: seq<string>, below: nat, k: nat)
    requires k < below <= |lines|
    requires Contains(lines[k], ListMarker) && !Contains(lines[k], "addTestSuite")
    requires forall i :: k < i < below ==> !Contains(lines[i], ListMarker) && !Contains(lines[i], "addTestSuite")
    ensures PreviousListLine(lines, below) == Some(k)
  {
    if k < below - 1 {
      PreviousListLineIs(lines, below - 1, k);
    }
  }

  /** The lines a backward scan from line number `lineNumber` looks at: those numbered below it. */
  function LinesBelow(lines: seq<string>, lineNumber: int): (n: nat)
    ensures n <= |lines|
  {
    if lineNumber <= 1 then 0
    else if lineNumber - 1 > |lines| then |lines|
    else lineNumber - 1
  }

  /**
   * `findPreviousTestCaseList`: the number of the nearest line before
   * line `lineNumber` that contains "list(APPEND test_cases", or -1 when
   * there is none or an "addTestSuite" line comes first.
   */
  method FindPreviousTestCaseList(lines: seq<string>, lineNumber: int) returns (num: int)
    ensures num == LineNumber(PreviousListLine(lines, LinesBelow(lines, lineNumber)))
  {
    ghost var below := LinesBelow(lines, lineNumber);
    var i := |lines|;
    while i > 0
      invariant 0 <= i <= |lines|
      invariant PreviousListLine(lines, if i < below then i else below) == PreviousListLine(lines, below)
    {
      i := i - 1;
      if i + 1 >= lineNumber {
        continue;
      }
      if Contains(lines[i], "addTestSuite") {
        break;
      }
      if Contains(lines[i], ListMarker) {
        return i + 1;
      }
    }
    return -1;
  }

  /**
   * `findNextReturnInTestSuite`: the number of the first line from line
   * `lineNumber` on that contains "return 1", or -1.
   */
  method FindNextReturnInTestSuite(lines: seq<string>, lineNumber: int) returns (num: int)
    ensures num == LineNumber(FirstLineFrom(lines, ReturnMarker, RegisterCTests.FromIndex(lineNumber - 1)))
  {
    ghost var start := RegisterCTests.FromIndex(lineNumber - 1);
    for i := 0 to |lines|
      invariant i > start ==> FirstLineFrom(lines, ReturnMarker, i) == FirstLineFrom(lines, ReturnMarker, start)
    {
      if i + 1 < lineNumber {
        continue;
      }
      if Contains(lines[i], ReturnMarker) {
        return i + 1;
      }
    }
    return -1;
  }

  /** The index of the last line, where the scripts' -1 lands as a slice bound. */
  function LastIndex(lines: seq<string>): nat
  {
    if |lines| == 0 then 0 else |lines| - 1
  }

  /**
   * CMakeLists.txt after one suite's patch with the given tests. With the
   * suite's line (index `a`) and a list line (index `l`) above it, the
   * lines strictly between the list line and the line just before the
   * suite's line are replaced by one entry per test. Without either, the
   * entries go in front of the file's last line and nothing is removed.
   */
  function CMakePatch(lines: seq<string>, suite: string, tests: seq<string>): seq<string>
  {
    var found := FirstLineFrom(lines, suite, 0);
    var list := if found.Some? then PreviousListLine(lines, found.value) else None;
    BlockPatch(lines, found, list, RegisterCTests.Entries(RegisterCTests.CMakeEntry, tests))
  }

  /** CMakePatch given where the suite's line and the list line were found. */
  function BlockPatch(lines: seq<string>, found: Option<nat>, list: Option<nat>, e: seq<string>): seq<string>
    requires found.Some? ==> found.value < |lines|
    requires list.Some? ==> found.Some? && list.value < found.value
  {
    if found.Some? && list.Some? then Replace(lines, list.value + 1, found.value - 1, e)
    else Replace(lines, LastIndex(lines), LastIndex(lines), e)
  }

  /** One pass of the CMakeLists.txt loop, for one suite. */
  method PatchCMakeLists(content: seq<string>, suite: string, suiteSource: seq<string>)
    returns (patched: seq<string>)
    ensures patched == CMakePatch(content, suite, FindAllTestsInFile(suiteSource))
  {
    var data := content;
    var addTestSuiteLine := FindLineInList(data, suite);
    var testCasesListLine := FindPreviousTestCaseList(data, addTestSuiteLine);
    var testCasesStartIndex := (testCasesListLine - 1) + 1;
    var testCasesEndIndex := (addTestSuiteLine - 1) - 2;
    var entries := RegisterCTests.Entries(RegisterCTests.CMakeEntry, FindAllTestsInFile(suiteSource));
    CMakePatchBySlices(content, suite, FindAllTestsInFile(suiteSource), addTestSuiteLine, testCasesListLine);
    data := DeleteSlice(data, testCasesStartIndex, testCasesEndIndex + 1);
    data := InsertSlice(data, testCasesStartIndex, entries);
    DeleteThenInsert(content, testCasesStartIndex, testCasesEndIndex + 1, entries);
    patched := data;
  }

  /**
   * The slice bounds the loop computes from the two line numbers (-1 when
   * a line is not found) select the block CMakePatch replaces.
   */
  lemma CMakePatchBySlices(lines: seq<string>, suite: string, tests: seq<string>, a: int, l: int)
    requires a == LineNumber(FirstLineFrom(lines, suite, 0))
    requires l == LineNumber(PreviousListLine(lines, LinesBelow(lines, a)))
    ensures l >= 0 || SliceBound(a - 2, |lines|) <= SliceBound(l, |lines|)
    ensures Replace(lines, SliceBound(l, |lines|), SliceBound(a - 2, |lines|), RegisterCTests.Entries(RegisterCTests.CMakeEntry, tests))
      == CMakePatch(lines, suite, tests)
  {
    var found := FirstLineFrom(lines, suite, 0);
    var list := PreviousListLine(lines, LinesBelow(lines, LineNumber(found)));
    CMakePatchAsFound(lines, suite, tests);
    BlockPatchBySlices(lines, found, list, RegisterCTests.Entries(RegisterCTests.CMakeEntry, tests));
  }

  /** CMakePatch is the block patch at the two lines the loop finds. */
  lemma CMakePatchAsFound(lines: seq<string>, suite: string, tests: seq<string>)
    ensures var found := FirstLineFrom(lines, suite, 0);
      var list := PreviousListLine(lines, LinesBelow(lines, LineNumber(found)));
      LinesBelow(lines, LineNumber(found)) == (if found.Some? then found.value else 0) &&
      CMakePatch(lines, suite, tests) == BlockPatch(lines, found, list, RegisterCTests.Entries(RegisterCTests.CMakeEntry, tests))
  {
    var found := FirstLineFrom(lines, suite, 0);
    if found.None? {
      assert PreviousListLine(lines, 0) == None;
    }
  }

  lemma BlockPatchBySlices(lines: seq<string>, found: Option<nat>, list: Option<nat>, e: seq<string>)
    requires found.Some? ==> found.value < |lines|
    requires list.Some? ==> found.Some? && list.value < found.value
    ensures var a, l, n := LineNumber(found), LineNumber(list), |lines|;
      (l >= 0 || SliceBound(a - 2, n) <= SliceBound(l, n)) &&
      Replace(lines, SliceBound(l, n), SliceBound(a - 2, n), e) == BlockPatch(lines, found, list, e)
  {
  }

  /** CMakeLists.txt after the loop has patched each suite in turn. */
  function CMakePatchAll(content: seq<string>, suites: seq<string>, sources: seq<seq<string>>): seq<string>
    requires |sources| == |suites|
  {
    if |suites| == 0 then content
    else
      var m := |suites| - 1;
      CMakePatch(CMakePatchAll(content, suites[..m], sources[..m]), suites[m], FindAllTestsInFile(sources[m]))
  }

  /**
   * The CMakeLists.txt loop: each suite patched in turn, `sources[i]` being
   * the text of suite `suites[i]`.
   */
  method GenerateCMakeLists(content: seq<string>, suites: seq<string>, sources: seq<seq<string>>)
    returns (patched: seq<string>)
    requires |sources| == |suites|
    ensures patched == CMakePatchAll(content, suites, sources)
  {
    patched := content;
    for i := 0 to |suites|
      invariant patched == CMakePatchAll(content, suites[..i], sources[..i])
    {
      assert suites[..i + 1][..i] == suites[..i];
      assert sources[..i + 1][..i] == sources[..i];
      patched := PatchCMakeLists(patched, suites[i], sources[i]);
    }
    assert suites[..|suites|] == suites;
    assert sources[..|sources|] == sources;
  }

  /**
   * With the suite's line at `a` and the list line at `l` above it, the
   * patch keeps the lines up to the list line, the line just before the
   * suite's line and everything after it.
   */
  lemma CMakePatchKeeps(lines: seq<string>, suite: string, tests: seq<string>, a: nat, l: nat)
    requires FirstLineFrom(lines, suite, 0) == Some(a)
    requires PreviousListLine(lines, a) == Some(l)
    requires l + 1 < a
    ensures CMakePatch(lines, suite, tests)
         == lines[..l + 1] + RegisterCTests.Entries(RegisterCTests.CMakeEntry, tests) + lines[a - 1..]
  {
  }

  /**
   * A suite that CMakeLists.txt does not name yet gets its entries in
   * front of the file's last line, and nothing is removed.
   */
  lemma CMakePatchOfNewSuite(lines: seq<string>, suite: string, tests: seq<string>)
    requires FirstLineFrom(lines, suite, 0).None?
    requires |lines| > 0
    ensures CMakePatch(lines, suite, tests)
         == lines[..|lines| - 1] + RegisterCTests.Entries(RegisterCTests.CMakeEntry, tests) + [lines[|lines| - 1]]
  {
  }

  /**
   * Patching a suite twice gives what patching it once gives, when a line
   * separates the list line from the line before the suite's line and no
   * entry contains the suite's name, the list marker or "addTestSuite".
   */
  lemma {:induction false} CMakePatchIdempotent(lines: seq<string>, suite: string, tests: seq<string>)
    requires FirstLineFrom(lines, suite, 0).Some?
    requires PreviousListLine(lines, FirstLineFrom(lines, suite, 0).value).Some?
    requires
      PreviousListLine(lines, FirstLineFrom(lines, suite, 0).value).value + 1
        < FirstLineFrom(lines, suite, 0).value
    requires NoneContains(RegisterCTests.Entries(RegisterCTests.CMakeEntry, tests), suite)
    requires NoneContains(RegisterCTests.Entries(RegisterCTests.CMakeEntry, tests), ListMarker)
    requires NoneContains(RegisterCTests.Entries(RegisterCTests.CMakeEntry, tests), "addTestSuite")
    ensures CMakePatch(CMakePatch(lines, suite, tests), suite, tests) == CMakePatch(lines, suite, tests)
  {
    var a := FirstLineFrom(lines, suite, 0).value;
    var l := PreviousListLine(lines, a).value;
    var e := RegisterCTests.Entries(RegisterCTests.CMakeEntry, tests);
    var r := CMakePatch(lines, suite, tests);
    assert r == lines[..l + 1] + e + lines[a - 1..] by {
      CMakePatchKeeps(lines, suite, tests, a, l);
    }
    assert CMakePatch(r, suite, tests) == r[..l + 1] + e + r[l + 1 + |e|..] by {
      PatchTwiceSlices(lines, suite, tests, a, l, r);
    }
    assert r[..l + 1] + e + r[l + 1 + |e|..] == r by {
      SpliceParts(lines, l + 1, a - 1, e, r);
    }
  }

  /**
   * Where the suite's line and its list line sit once the block is
   * replaced by the entries, and so what a second patch replaces.
   */
  lemma {:induction false} PatchTwiceSlices(lines: seq<string>, suite: string, tests: seq<string>, a: nat, l: nat, r: seq<string>)
    requires FirstLineFrom(lines, suite, 0) == Some(a)
    requires PreviousListLine(lines, a) == Some(l)
    requires l + 1 < a
    requires NoneContains(RegisterCTests.Entries(RegisterCTests.CMakeEntry, tests), suite)
    requires NoneContains(RegisterCTests.Entries(RegisterCTests.CMakeEntry, tests), ListMarker)
    requires NoneContains(RegisterCTests.Entries(RegisterCTests.CMakeEntry, tests), "addTestSuite")
    requires r == lines[..l + 1] + RegisterCTests.Entries(RegisterCTests.CMakeEntry, tests) + lines[a - 1..]
    ensures var e := RegisterCTests.Entries(RegisterCTests.CMakeEntry, tests);
      l + 1 + |e| <= |r| && CMakePatch(r, suite, tests) == r[..l + 1] + e + r[l + 1 + |e|..]
  {
    var e := RegisterCTests.Entries(RegisterCTests.CMakeEntry, tests);
    var a' := l + 2 + |e|;
    assert forall i :: 0 <= i <= l ==> r[i] == lines[i];
    assert forall i :: 0 <= i < |e| ==> r[l + 1 + i] == e[i];
    assert r[a' - 1] == lines[a - 1] && r[a'] == lines[a];
    forall i | 0 <= i < a'
      ensures !Contains(r[i], suite)
    {
      if l + 1 <= i < a' - 1 {
        assert r[i] == e[i - l - 1];
      }
    }
    FirstLineFromIs(r, suite, 0, a');
    forall i | l < i < a'
      ensures !Contains(r[i], ListMarker) && !Contains(r[i], "addTestSuite")
    {
      if i < a' - 1 {
        assert r[i] == e[i - l - 1];
      }
    }
    PreviousListLineIs(r, a', l);
    CMakePatchKeeps(r, suite, tests, a', l);
  }

  const RunTestsSignature := "auto run_tests(char* argv[])"

  /** The line that ends the block of test calls in a suite's source. */
  const ReturnMarker := "return 1"

  /**
   * A suite's source after its patch with the given tests. With the
   * signature's line (index `s`) found, the lines after it up to the
   * first "return 1" from the signature on (or up to the last two lines
   * when there is none) are replaced by one line per test. Without it,
   * the lines go in front of the file's last line and nothing is removed.
   */
  function TestSuitePatch(lines: seq<string>, tests: seq<string>): seq<string>
  {
    MarkedBlockPatch(lines, RunTestsSignature, ReturnMarker, RegisterCTests.Entries(RegisterCTests.SuiteEntry, tests))
  }

  /**
   * The lines after the first one containing `open`, up to the first one
   * from there containing `close` (or up to the last two lines), replaced
   * by `entries`; without an `open` line, `entries` go in front of the
   * last line.
   */
  function MarkedBlockPatch(lines: seq<string>, open: string, close: string, entries: seq<string>): seq<string>
  {
    var signature := FirstLineFrom(lines, open, 0);
    var ret := if signature.Some? then FirstLineFrom(lines, close, signature.value) else None;
    SuiteBlockPatch(lines, signature, ret, entries)
  }

  /** MarkedBlockPatch given where the two marker lines were found. */
  function SuiteBlockPatch(lines: seq<string>, signature: Option<nat>, ret: Option<nat>, e: seq<string>): seq<string>
    requires signature.Some? ==> signature.value < |lines|
    requires ret.Some? ==> ret.value < |lines| && (signature.Some? ==> signature.value <= ret.value)
  {
    if signature.None? then Replace(lines, LastIndex(lines), LastIndex(lines), e)
    else
      var stop := if ret.Some? then ret.value else if |lines| < 2 then 0 else |lines| - 2;
      Replace(lines, signature.value + 1, stop, e)
  }

  /** The test-suite loop's body, for one suite's source. */
  method PatchTestSuite(suiteLines: seq<string>) returns (patched: seq<string>)
    ensures patched == TestSuitePatch(suiteLines, FindAllTestsInFile(suiteLines))
  {
    var data := suiteLines;
    var runTestsLine := FindLineInList(data, RunTestsSignature);
    var returnLine := FindNextReturnInTestSuite(data, runTestsLine);
    var runTestStartIndex := (runTestsLine - 1) + 1;
    var runTestEndIndex := (returnLine - 1) - 1;
    var entries := RegisterCTests.Entries(RegisterCTests.SuiteEntry, FindAllTestsInFile(suiteLines));
    TestSuitePatchBySlices(suiteLines, FindAllTestsInFile(suiteLines), runTestsLine, returnLine);
    data := DeleteSlice(data, runTestStartIndex, runTestEndIndex + 1);
    data := InsertSlice(data, runTestStartIndex, entries);
    DeleteThenInsert(suiteLines, runTestStartIndex, runTestEndIndex + 1, entries);
    patched := data;
  }

  /**
   * The slice bounds the loop computes from the two line numbers (-1 when
   * a line is not found) select the block TestSuitePatch replaces.
   */
  lemma TestSuitePatchBySlices(lines: seq<string>, tests: seq<string>, s: int, t: int)
    requires s == LineNumber(FirstLineFrom(lines, RunTestsSignature, 0))
    requires t == LineNumber(FirstLineFrom(lines, ReturnMarker, RegisterCTests.FromIndex(s - 1)))
    ensures s >= 0 || SliceBound(t - 1, |lines|) <= SliceBound(s, |lines|)
    ensures Replace(lines, SliceBound(s, |lines|), SliceBound(t - 1, |lines|), RegisterCTests.Entries(RegisterCTests.SuiteEntry, tests))
      == TestSuitePatch(lines, tests)
  {
    MarkedBlockPatchBySlices(lines, RunTestsSignature, ReturnMarker, RegisterCTests.Entries(RegisterCTests.SuiteEntry, tests), s, t);
  }

  lemma MarkedBlockPatchBySlices(lines: seq<string>, open: string, close: string, e: seq<string>, s: int, t: int)
    requires s == LineNumber(FirstLineFrom(lines, open, 0))
    requires t == LineNumber(FirstLineFrom(lines, close, RegisterCTests.FromIndex(s - 1)))
    ensures s >= 0 || SliceBound(t - 1, |lines|) <= SliceBound(s, |lines|)
    ensures Replace(lines, SliceBound(s, |lines|), SliceBound(t - 1, |lines|), e) == MarkedBlockPatch(lines, open, close, e)
  {
    var signature := FirstLineFrom(lines, open, 0);
    var ret := FirstLineFrom(lines, close, RegisterCTests.FromIndex(LineNumber(signature) - 1));
    SuiteBlockPatchBySlices(lines, signature, ret, e);
    MarkedBlockAsFound(lines, open, close, e);
  }

  /** MarkedBlockPatch is the block patch at the two lines the loop finds. */
  lemma MarkedBlockAsFound(lines: seq<string>, open: string, close: string, e: seq<string>)
    ensures var signature := FirstLineFrom(lines, open, 0);
      var ret := FirstLineFrom(lines, close, RegisterCTests.FromIndex(LineNumber(signature) - 1));
      MarkedBlockPatch(lines, open, close, e) == SuiteBlockPatch(lines, signature, ret, e)
  {
    var signature := FirstLineFrom(lines, open, 0);
    if signature.Some? {
      assert RegisterCTests.FromIndex(LineNumber(signature) - 1) == signature.value;
    }
  }

  lemma SuiteBlockPatchBySlices(lines: seq<string>, signature: Option<nat>, ret: Option<nat>, e: seq<string>)
    requires signature.Some? ==> signature.value < |lines|
    requires ret.Some? ==> ret.value < |lines| && (signature.Some? ==> signature.value <= ret.value)
    ensures var s, t, n := LineNumber(signature), LineNumber(ret), |lines|;
      (s >= 0 || SliceBound(t - 1, n) <= SliceBound(s, n)) &&
      Replace(lines, SliceBound(s, n), SliceBound(t - 1, n), e) == SuiteBlockPatch(lines, signature, ret, e)
  {
  }

  /**
   * With the signature at `s` and the first "return 1" after it at `t`,
   * exactly the lines strictly between them are replaced.
   */
  lemma TestSuitePatchKeeps(lines: seq<string>, tests: seq<string>, s: nat, t: nat)
    requires FirstLineFrom(lines, RunTestsSignature, 0) == Some(s)
    requires FirstLineFrom(lines, ReturnMarker, s) == Some(t)
    requires s < t
    ensures TestSuitePatch(lines, tests) == lines[..s + 1] + RegisterCTests.Entries(RegisterCTests.SuiteEntry, tests) + lines[t..]
  {
    MarkedBlockKeeps(lines, RunTestsSignature, ReturnMarker, RegisterCTests.Entries(RegisterCTests.SuiteEntry, tests), s, t);
  }

  /** With the `open` line at `s` and the next `close` line at `t`, only the lines between them are replaced. */
  lemma MarkedBlockKeeps(lines: seq<string>, open: string, close: string, e: seq<string>, s: nat, t: nat)
    requires FirstLineFrom(lines, open, 0) == Some(s)
    requires FirstLineFrom(lines, close, s) == Some(t)
    requires s < t
    ensures MarkedBlockPatch(lines, open, close, e) == lines[..s + 1] + e + lines[t..]
  {
  }

  /**
   * Patching a suite's source twice with the same tests gives what
   * patching it once gives, when "return 1" is found after the
   * signature's line and no new line contains the signature or
   * "return 1".
   */
  lemma TestSuitePatchIdempotent(lines: seq<string>, tests: seq<string>)
    requires FirstLineFrom(lines, RunTestsSignature, 0).Some?
    requires FirstLineFrom(lines, ReturnMarker, FirstLineFrom(lines, RunTestsSignature, 0).value + 1).Some?
    requires !Contains(lines[FirstLineFrom(lines, RunTestsSignature, 0).value], ReturnMarker)
    requires NoneContains(RegisterCTests.Entries(RegisterCTests.SuiteEntry, tests), RunTestsSignature)
    requires NoneContains(RegisterCTests.Entries(RegisterCTests.SuiteEntry, tests), ReturnMarker)
    ensures TestSuitePatch(TestSuitePatch(lines, tests), tests) == TestSuitePatch(lines, tests)
  {
    MarkedBlockIdempotent(lines, RunTestsSignature, ReturnMarker, RegisterCTests.Entries(RegisterCTests.SuiteEntry, tests));
  }

  /**
   * Once the block between an `open` line and the next `close` line holds
   * `e`, and `e` names neither marker, patching again finds the same two
   * lines around `e` and changes nothing.
   */
  lemma {:induction false} MarkedBlockIdempotent(lines: seq<string>, open: string, close: string, e: seq<string>)
    requires FirstLineFrom(lines, open, 0).Some?
    requires FirstLineFrom(lines, close, FirstLineFrom(lines, open, 0).value + 1).Some?
    requires !Contains(lines[FirstLineFrom(lines, open, 0).value], close)
    requires NoneContains(e, open) && NoneContains(e, close)
    ensures MarkedBlockPatch(MarkedBlockPatch(lines, open, close, e), open, close, e) == MarkedBlockPatch(lines, open, close, e)
  {
    var s := FirstLineFrom(lines, open, 0).value;
    var t := FirstLineFrom(lines, close, s + 1).value;
    var r := MarkedBlockPatch(lines, open, close, e);
    assert FirstLineFrom(lines, close, s) == Some(t) by {
      FirstLineFromIs(lines, close, s, t);
    }
    assert r == lines[..s + 1] + e + lines[t..] by {
      MarkedBlockKeeps(lines, open, close, e, s, t);
    }
    assert MarkedBlockPatch(r, open, close, e) == r[..s + 1] + e + r[s + 1 + |e|..] by {
      MarkedBlockTwiceSlices(lines, open, close, e, s, t, r);
    }
    assert r[..s + 1] + e + r[s + 1 + |e|..] == r by {
      SpliceParts(lines, s + 1, t, e, r);
    }
  }

  /**
   * Where the two marker lines sit once the block between them is
   * replaced, and so what a second patch replaces.
   */
  lemma MarkedBlockTwiceSlices(lines: seq<string>, open: string, close: string, e: seq<string>, s: nat, t: nat, r: seq<string>)
    requires FirstLineFrom(lines, open, 0) == Some(s)
    requires FirstLineFrom(lines, close, s) == Some(t) && s < t
    requires NoneContains(e, close)
    requires r == lines[..s + 1] + e + lines[t..]
    ensures s + 1 + |e| <= |r| && MarkedBlockPatch(r, open, close, e) == r[..s + 1] + e + r[s + 1 + |e|..]
  {
    assert FirstLineFrom(r, open, 0) == Some(s) by {
      FirstLineKeptBefore(lines, open, s, e + lines[t..], r);
    }
    assert FirstLineFrom(r, close, s) == Some(s + 1 + |e|) by {
      FirstLineAfterBlock(lines, close, s, s, t, e, r);
    }
    MarkedBlockKeeps(r, open, close, e, s, s + 1 + |e|);
  }

  /**
   * Running the suite patch on its own output changes nothing, under the
   * conditions above and when neither the replaced lines nor the new ones
   * contain "void ".
   */
  lemma PatchTestSuiteIdempotent(lines: seq<string>)
    requires FirstLineFrom(lines, RunTestsSignature, 0).Some?
    requires FirstLineFrom(lines, ReturnMarker, FirstLineFrom(lines, RunTestsSignature, 0).value + 1).Some?
    requires !Contains(lines[FirstLineFrom(lines, RunTestsSignature, 0).value], ReturnMarker)
    requires
      var s := FirstLineFrom(lines, RunTestsSignature, 0).value;
      var t := FirstLineFrom(lines, ReturnMarker, s + 1).value;
      NoneContains(lines[s + 1..t], "void ")
    requires
      var entries := RegisterCTests.Entries(RegisterCTests.SuiteEntry, FindAllTestsInFile(lines));
      NoneContains(entries, RunTestsSignature) && NoneContains(entries, ReturnMarker) &&
      NoneContains(entries, "void ")
    ensures
      var once := TestSuitePatch(lines, FindAllTestsInFile(lines));
      TestSuitePatch(once, FindAllTestsInFile(once)) == once
  {
    var s := FirstLineFrom(lines, RunTestsSignature, 0).value;
    var t := FirstLineFrom(lines, ReturnMarker, s + 1).value;
    var tests := FindAllTestsInFile(lines);
    FirstLineFromIs(lines, ReturnMarker, s, t);
    RegisterCTests.ReplaceKeepsTests(lines, s + 1, t, RegisterCTests.Entries(RegisterCTests.SuiteEntry, tests));
    TestSuitePatchIdempotent(lines, tests);
  }
}
