/**
 * The score file (src/score_helpers.cpp): one line per score, "W L name",
 * written by `generateScoreFileData` and read back by `parseScores`.
 */
module ScoreFiles {
  import opened Types
  import opened Helpers
  import opened Scores

  /**
   * `parseScore`: the wins and the losses are the line's first two words;
   * the name is what follows the two numbers as printed, each with one
   * space after it. A missing or non-numeric word, or nothing left for
   * the name, gives `EmptyScore`.
   */
  function ParseScore(line: string): (r: Score)
    ensures r.item == "" ==> r == EmptyScore
    ensures r != EmptyScore ==>
      var words := Words(line);
      |words| >= 2 && IsNumeral(words[0]) && IsNumeral(words[1]) &&
      r.wins == DecimalValue(words[0]) && r.losses == DecimalValue(words[1]) &&
      var nameOffset := NumberOfDigits(r.wins) + NumberOfDigits(r.losses) + 2;
      nameOffset < |line| && r.item == line[nameOffset..]
  {
    var words := Words(line);
    if |words| < 1 || ParseNumber(words[0]).None? then EmptyScore
    else if |words| < 2 || ParseNumber(words[1]).None? then EmptyScore
    else
      var wins := ParseNumber(words[0]).value;
      var losses := ParseNumber(words[1]).value;
      var nameOffset := NumberOfDigits(wins) + 1 + NumberOfDigits(losses) + 1;
      if nameOffset >= |line| then EmptyScore
      else Score(line[nameOffset..], wins, losses)
  }

  /** The line `generateScoreFileData` writes for a score. */
  function ScoreLine(s: Score): string
  {
    NatToString(s.wins) + " " + NatToString(s.losses) + " " + s.item
  }

  lemma NumeralIsWord(s: string)
    requires IsNumeral(s)
    ensures |s| > 0 && NoSpace(s)
  {
    assert forall i :: 0 <= i < |s| ==> IsDigit(s[i]);
  }

  /** Two words, each followed by one space, then the rest. */
  lemma WordsOfTwoWordsThen(w: string, l: string, rest: string)
    requires |w| > 0 && NoSpace(w) && |l| > 0 && NoSpace(l)
    ensures Words(w + (" " + (l + (" " + rest)))) == [w, l] + Words(" " + rest)
  {
    WordsOfWordThen(w, " " + (l + (" " + rest)));
    WordsSkipSpace(" ", l + (" " + rest));
    WordsOfWordThen(l, " " + rest);
  }

  /** `parseScore` of a line whose first two words are the given numerals. */
  lemma ParseScoreOf(line: string, w: string, l: string)
    requires |Words(line)| >= 2 && Words(line)[0] == w && Words(line)[1] == l
    requires ParseNumber(w).Some? && ParseNumber(l).Some?
    requires NumberOfDigits(ParseNumber(w).value) + NumberOfDigits(ParseNumber(l).value) + 2 < |line|
    ensures var wins, losses := ParseNumber(w).value, ParseNumber(l).value;
      ParseScore(line) == Score(line[NumberOfDigits(wins) + NumberOfDigits(losses) + 2..], wins, losses)
  {
  }

  /** A written score of a named item reads back as itself. */
  lemma ParseScoreLine(s: Score)
    requires s.item != ""
    ensures ParseScore(ScoreLine(s)) == s
  {
    var w, l := NatToString(s.wins), NatToString(s.losses);
    var line := ScoreLine(s);
    NumeralIsWord(w);
    NumeralIsWord(l);
    assert line == w + (" " + (l + (" " + s.item)));
    WordsOfTwoWordsThen(w, l, s.item);
    ParseNumberOfNatToString(s.wins);
    ParseNumberOfNatToString(s.losses);
    assert line[|w| + |l| + 2..] == s.item;
    ParseScoreOf(line, w, l);
  }

  /**
   * The name is cut at an offset computed from the numbers' values, not
   * from where the words ended: a hand-written line whose wins carry a
   * leading zero keeps a space in front of the name.
   */
  lemma ParseScoreOfPaddedNumber(item: string)
    ensures ParseScore("05" + (" " + ("3" + (" " + item)))) == Score(" " + item, 5, 3)
  {
    var zeroFive, three := "05", "3";
    var line := zeroFive + (" " + (three + (" " + item)));
    WordsOfTwoWordsThen(zeroFive, three, item);
    assert ParseNumber(zeroFive) == Some(5) by {
      assert zeroFive[..1] == "0" && "0"[..0] == [];
      assert DecimalValue(zeroFive) == DecimalValue("0") * 10 + 5;
      assert IsNumeral(zeroFive);
    }
    assert ParseNumber(three) == Some(3) by {
      assert three[..0] == [];
      assert IsNumeral(three);
    }
    assert NumberOfDigits(5) == 1 && NumberOfDigits(3) == 1;
    assert line[4..] == " " + item;
    ParseScoreOf(line, zeroFive, three);
  }

  /** The scores read from lines, skipping every line that fails to parse. */
  function ParsedScores(lines: seq<string>): seq<Score>
  {
    if |lines| == 0 then []
    else
      var s := ParseScore(lines[|lines| - 1]);
      ParsedScores(lines[..|lines| - 1]) + (if s == EmptyScore then [] else [s])
  }

  /** `parseScores`: each line parsed, the failures left out. */
  method ParseScores(lines: seq<string>) returns (scores: seq<Score>)
    ensures scores == ParsedScores(lines)
  {
    scores := [];
    for i := 0 to |lines|
      invariant scores == ParsedScores(lines[..i])
    {
      assert lines[..i + 1][..i] == lines[..i];
      var score := ParseScore(lines[i]);
      if score == EmptyScore {
        continue;
      }
      scores := scores + [score];
    }
    assert lines[..|lines|] == lines;
  }

  /**
   * At most one score per line, each of them named and read from one of
   * the lines.
   */
  lemma {:induction false} ParsedScoresFromLines(lines: seq<string>)
    ensures |ParsedScores(lines)| <= |lines|
    ensures forall k :: 0 <= k < |ParsedScores(lines)| ==>
      ParsedScores(lines)[k].item != "" &&
      exists i :: 0 <= i < |lines| && ParseScore(lines[i]) == ParsedScores(lines)[k]
  {
    if |lines| > 0 {
      var m := |lines| - 1;
      var prefix := lines[..m];
      var before := ParsedScores(prefix);
      var last := ParseScore(lines[m]);
      var r := ParsedScores(lines);
      assert r == before + (if last == EmptyScore then [] else [last]);
      ParsedScoresFromLines(prefix);
      forall k | 0 <= k < |r|
        ensures r[k].item != "" && exists i :: 0 <= i < |lines| && ParseScore(lines[i]) == r[k]
      {
        if k < |before| {
          assert r[k] == before[k];
          var i :| 0 <= i < |prefix| && ParseScore(prefix[i]) == before[k];
          assert lines[i] == prefix[i];
        } else {
          assert r[k] == last && ParseScore(lines[m]) == last;
        }
      }
    }
  }

  /** The lines of a score file, one per score in order. */
  function ScoreFileLines(scores: seq<Score>): (lines: seq<string>)
    ensures |lines| == |scores|
  {
    seq(|scores|, i requires 0 <= i < |scores| => ScoreLine(scores[i]))
  }

  /** `generateScoreFileData`: one "W L name" line per score. */
  method GenerateScoreFileData(scores: seq<Score>) returns (lines: seq<string>)
    ensures lines == ScoreFileLines(scores)
  {
    lines := [];
    for i := 0 to |scores|
      invariant lines == ScoreFileLines(scores[..i])
    {
      lines := lines + [ScoreLine(scores[i])];
    }
    assert scores[..|scores|] == scores;
  }

  /** Saved scores of named items read back as the same scores, in order. */
  lemma {:induction false} ScoreFileRoundTrip(scores: seq<Score>)
    requires forall i :: 0 <= i < |scores| ==> scores[i].item != ""
    ensures ParsedScores(ScoreFileLines(scores)) == scores
  {
    if |scores| > 0 {
      var m := |scores| - 1;
      var lines := ScoreFileLines(scores);
      assert lines[..m] == ScoreFileLines(scores[..m]);
      assert ParsedScores(lines[..m]) == scores[..m] by {
        ScoreFileRoundTrip(scores[..m]);
      }
      assert ParseScore(lines[m]) == scores[m] by {
        ParseScoreLine(scores[m]);
      }
      assert scores[m] != EmptyScore;
      assert ParsedScores(lines) == scores[..m] + [scores[m]];
      SplitLast(scores);
    }
  }
}
