/**
 * Text searches shared by the test-registration scripts
 * (src/test/register_ctests.py, src/test/generate_ctests.py): substring
 * search, the `void <name>()` test-name pattern, and scans over a file's
 * lines.
 */
module TextSearch {
  import opened Types

  /** `t` occurs in `s` starting at index `i`. */
  predicate OccursAt(s: string, t: string, i: nat)
  {
    i + |t| <= |s| && s[i..i + |t|] == t
  }

  /** Python's `t in s`. */
  predicate Contains(s: string, t: string)
  {
    exists i: nat :: i <= |s| && OccursAt(s, t, i)
  }

  /** The first index from `from` on where `t` occurs in `s`. */
  function FirstOccurrence(s: string, t: string, from: nat): (k: Option<nat>)
    ensures k.Some? ==> from <= k.value <= |s| && OccursAt(s, t, k.value)
    ensures k.Some? ==> forall i: nat :: from <= i < k.value ==> !OccursAt(s, t, i)
    ensures k.None? ==> forall i: nat :: from <= i <= |s| ==> !OccursAt(s, t, i)
    decreases |s| - from
  {
    if from > |s| then None
    else if OccursAt(s, t, from) then Some(from)
    else FirstOccurrence(s, t, from + 1)
  }

  /** A first occurrence exists exactly when `t` occurs in `s`. */
  lemma FirstOccurrenceIffContains(s: string, t: string)
    ensures FirstOccurrence(s, t, 0).Some? <==> Contains(s, t)
  {
    var first := FirstOccurrence(s, t, 0);
    if first.Some? {
      assert OccursAt(s, t, first.value);
    }
  }

  /** The last index in [from, hi) where `t` occurs in `s`. */
  function LastOccurrenceBelow(s: string, t: string, from: nat, hi: nat): (k: Option<nat>)
    ensures k.Some? ==> from <= k.value < hi && OccursAt(s, t, k.value)
    ensures k.Some? ==> forall i: nat :: k.value < i < hi ==> !OccursAt(s, t, i)
    ensures k.None? ==> forall i: nat :: from <= i < hi ==> !OccursAt(s, t, i)
    decreases hi
  {
    if hi <= from then None
    else if OccursAt(s, t, hi - 1) then Some(hi - 1)
    else LastOccurrenceBelow(s, t, from, hi - 1)
  }

  /** The last index from `from` on where `t` occurs in `s`. */
  function LastOccurrence(s: string, t: string, from: nat): Option<nat>
  {
    LastOccurrenceBelow(s, t, from, |s| + 1)
  }

  // ---------------------------------------------------------------------
  // findAllTestsInFile
  // ---------------------------------------------------------------------

  /**
   * The match of `void .*\(\)` on one line, without its first five and
   * last two characters: the text between the first "void " and the last
   * "()" after it. The pattern's `.` never crosses a newline, so a file
   * is matched line by line.
   */
  function TestName(line: string): Option<string>
  {
    match FirstOccurrence(line, "void ", 0)
    case None => None
    case Some(k) =>
      match LastOccurrence(line, "()", k + 5)
      case None => None
      case Some(p) => Some(line[k + 5..p])
  }

  /** A line has a test name exactly when some "()" follows some "void ". */
  lemma TestNameIffPattern(line: string)
    ensures TestName(line).Some? <==>
      exists k: nat, p: nat :: OccursAt(line, "void ", k) && OccursAt(line, "()", p) && k + 5 <= p
  {
    var first := FirstOccurrence(line, "void ", 0);
    if first.Some? {
      var last := LastOccurrence(line, "()", first.value + 5);
      if last.Some? {
        assert OccursAt(line, "void ", first.value) && OccursAt(line, "()", last.value);
      }
    }
    if exists k: nat, p: nat :: OccursAt(line, "void ", k) && OccursAt(line, "()", p) && k + 5 <= p {
      var k: nat, p: nat :| OccursAt(line, "void ", k) && OccursAt(line, "()", p) && k + 5 <= p;
      assert first.Some? && first.value <= k;
      assert LastOccurrence(line, "()", first.value + 5).Some?;
    }
  }

  /** A declaration line `void <name>()` followed by text without "()" gives `name`. */
  lemma TestNameOfDeclaration(name: string, rest: string)
    requires !Contains(rest, "()")
    ensures TestName("void " + name + "()" + rest) == Some(name)
  {
    var line := "void " + name + "()" + rest;
    var p := |name| + 5;
    assert OccursAt(line, "void ", 0) by {
      assert line[..5] == "void ";
    }
    assert OccursAt(line, "()", p) by {
      assert line[p..p + 2] == "()";
    }
    forall i: nat | p < i <= |line|
      ensures !OccursAt(line, "()", i)
    {
      if i == p + 1 {
        assert line[i] == ')';
        if i + 2 <= |line| {
          assert line[i..i + 2][0] == ')';
        }
      } else if OccursAt(line, "()", i) {
        assert line[i..i + 2] == rest[i - p - 2..i - p];
        assert OccursAt(rest, "()", i - p - 2);
      }
    }
    assert line[5..p] == name;
  }

  /** `findAllTestsInFile`: the test names of a file's lines, in order. */
  function FindAllTestsInFile(lines: seq<string>): seq<string>
  {
    if |lines| == 0 then []
    else
      var last := TestName(lines[|lines| - 1]);
      FindAllTestsInFile(lines[..|lines| - 1]) + (if last.Some? then [last.value] else [])
  }

  /** The declaration lines of the given test functions. */
  function DeclarationLines(names: seq<string>, rest: string): (lines: seq<string>)
    ensures |lines| == |names|
  {
    seq(|names|, i requires 0 <= i < |names| => "void " + names[i] + "()" + rest)
  }

  /** A file of test declarations gives back the test names in order. */
  lemma {:induction false} FindAllTestsOfDeclarations(names: seq<string>, rest: string)
    requires !Contains(rest, "()")
    ensures FindAllTestsInFile(DeclarationLines(names, rest)) == names
  {
    if |names| > 0 {
      var m := |names| - 1;
      assert DeclarationLines(names, rest)[..m] == DeclarationLines(names[..m], rest);
      FindAllTestsOfDeclarations(names[..m], rest);
      TestNameOfDeclaration(names[m], rest);
      assert names == names[..m] + [names[m]];
    }
  }

  /** The tests of two parts of a file are those of each part, in order. */
  lemma {:induction false} FindAllTestsAppend(a: seq<string>, b: seq<string>)
    ensures FindAllTestsInFile(a + b) == FindAllTestsInFile(a) + FindAllTestsInFile(b)
  {
    if |b| == 0 {
      assert a + b == a;
    } else {
      var m := |b| - 1;
      assert (a + b)[..|a + b| - 1] == a + b[..m];
      FindAllTestsAppend(a, b[..m]);
    }
  }

  /** Lines without any "void " hold no test. */
  lemma {:induction false} FindAllTestsNone(lines: seq<string>)
    requires NoneContains(lines, "void ")
    ensures FindAllTestsInFile(lines) == []
  {
    if |lines| > 0 {
      var m := |lines| - 1;
      FindAllTestsNone(lines[..m]);
      FirstOccurrenceIffContains(lines[m], "void ");
    }
  }

  // ---------------------------------------------------------------------
  // Scans over lines
  // ---------------------------------------------------------------------

  /** No line contains `needle`. */
  predicate NoneContains(lines: seq<string>, needle: string)
  {
    forall i :: 0 <= i < |lines| ==> !Contains(lines[i], needle)
  }

  /** The first index from `start` on whose line contains `needle`. */
  function FirstLineFrom(lines: seq<string>, needle: string, start: nat): (k: Option<nat>)
    ensures k.Some? ==> start <= k.value < |lines| && Contains(lines[k.value], needle)
    ensures k.Some? ==> forall i :: start <= i < k.value ==> !Contains(lines[i], needle)
    ensures k.None? ==> forall i :: start <= i < |lines| ==> !Contains(lines[i], needle)
    decreases |lines| - start
  {
    if start >= |lines| then None
    else if Contains(lines[start], needle) then Some(start)
    else FirstLineFrom(lines, needle, start + 1)
  }

  /** Characterises the first match from `start` on. */
  lemma {:induction false} FirstLineFromIs(lines: seq<string>, needle: string, start: nat, k: nat)
    requires start <= k < |lines| && Contains(lines[k], needle)
    requires forall i :: start <= i < k ==> !Contains(lines[i], needle)
    ensures FirstLineFrom(lines, needle, start) == Some(k)
    decreases k - start
  {
    if start < k {
      FirstLineFromIs(lines, needle, start + 1, k);
    }
  }

  /** A first match stays where it was when only the lines after it change. */
  lemma FirstLineKeptBefore(lines: seq<string>, needle: string, s: nat, rest: seq<string>, r: seq<string>)
    requires FirstLineFrom(lines, needle, 0) == Some(s)
    requires r == lines[..s + 1] + rest
    ensures FirstLineFrom(r, needle, 0) == Some(s)
  {
    assert forall i :: 0 <= i <= s ==> r[i] == lines[i];
    FirstLineFromIs(r, needle, 0, s);
  }

  /**
   * Replacing the lines strictly between `s` and a match at `t` by lines
   * without the needle moves that match to just after them.
   */
  lemma FirstLineAfterBlock(lines: seq<string>, needle: string, from: nat, s: nat, t: nat, e: seq<string>, r: seq<string>)
    requires from <= s + 1 && s < t
    requires FirstLineFrom(lines, needle, from) == Some(t)
    requires NoneContains(e, needle)
    requires r == lines[..s + 1] + e + lines[t..]
    ensures FirstLineFrom(r, needle, from) == Some(s + 1 + |e|)
  {
    var t' := s + 1 + |e|;
    assert r[t'] == lines[t];
    forall i | from <= i < t'
      ensures !Contains(r[i], needle)
    {
      if i <= s {
        assert r[i] == lines[i];
      } else {
        assert r[i] == e[i - s - 1];
      }
    }
    FirstLineFromIs(r, needle, from, t');
  }

  /** The scans' "not found" convention: the position, or -1. */
  function OrMinusOne(k: Option<nat>): int
  {
    if k.Some? then k.value else -1
  }
}
