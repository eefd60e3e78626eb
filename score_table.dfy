/**
 * Printing scores (src/score_helpers.cpp): the ranking order of
 * `sortScores` and the text table of `createScoreTable`.
 */
module ScoreTables {
  import opened Types
  import opened Helpers
  import opened Scores
  import VotingRounds

  // ---------------------------------------------------------------------
  // Ranking order
  // ---------------------------------------------------------------------

  /** `std::string`'s `<`: character by character, a proper prefix first. */
  predicate StrLess(a: string, b: string)
  {
    if |a| == 0 then |b| > 0
    else if |b| == 0 then false
    else a[0] < b[0] || (a[0] == b[0] && StrLess(a[1..], b[1..]))
  }

  /** The string order is a strict total order. */
  lemma {:induction false} StrLessOrder(a: string, b: string, c: string)
    ensures !StrLess(a, a)
    ensures StrLess(a, b) ==> !StrLess(b, a)
    ensures StrLess(a, b) && StrLess(b, c) ==> StrLess(a, c)
    ensures a == b || StrLess(a, b) || StrLess(b, a)
  {
    if |a| > 0 && |b| > 0 && |c| > 0 {
      StrLessOrder(a[1..], b[1..], c[1..]);
    } else if |a| > 0 && |b| > 0 {
      StrLessOrder(a[1..], b[1..], b[1..]);
      if a[0] == b[0] && a[1..] == b[1..] {
        assert a == [a[0]] + a[1..] && b == [b[0]] + b[1..];
      }
    } else if |a| > 0 {
      StrLessOrder(a[1..], a[1..], a[1..]);
    }
  }

  function NetWins(s: Score): int
  {
    s.wins - s.losses
  }

  function TotalVotes(s: Score): nat
  {
    s.wins + s.losses
  }

  /**
   * `sortScores`' comparator: more net wins first; among equal positive
   * net wins fewer votes first, among equal negative net wins more votes
   * first; then by item name.
   */
  predicate ScoreBefore(a: Score, b: Score)
  {
    var na, nb := NetWins(a), NetWins(b);
    var ta, tb := TotalVotes(a), TotalVotes(b);
    if na > nb then true
    else if na < nb then false
    else if na > 0 && ta < tb then true
    else if na > 0 && ta > tb then false
    else if na < 0 && ta > tb then true
    else if na < 0 && ta < tb then false
    else StrLess(a.item, b.item)
  }

  /** The tie-break among equal net wins, as a number ordered ascending. */
  function Confidence(s: Score): int
  {
    if NetWins(s) > 0 then TotalVotes(s) else if NetWins(s) < 0 then -(TotalVotes(s) as int) else 0
  }

  /** The comparator is the lexicographic order on (-net wins, confidence, name). */
  lemma ScoreBeforeByKey(a: Score, b: Score)
    ensures ScoreBefore(a, b) <==>
      NetWins(a) > NetWins(b) ||
      (NetWins(a) == NetWins(b) && (Confidence(a) < Confidence(b) ||
        (Confidence(a) == Confidence(b) && StrLess(a.item, b.item))))
  {
  }

  /**
   * The comparator is a strict weak ordering, as `std::sort` requires:
   * irreflexive, transitive, and "not before" is transitive too.
   */
  lemma ScoreBeforeOrder(a: Score, b: Score, c: Score)
    ensures !ScoreBefore(a, a)
    ensures ScoreBefore(a, b) && ScoreBefore(b, c) ==> ScoreBefore(a, c)
    ensures ScoreBefore(a, c) ==> ScoreBefore(a, b) || ScoreBefore(b, c)
  {
    ScoreBeforeByKey(a, a);
    ScoreBeforeByKey(a, b);
    ScoreBeforeByKey(b, c);
    ScoreBeforeByKey(a, c);
    StrLessOrder(a.item, b.item, c.item);
    StrLessOrder(a.item, c.item, b.item);
    StrLessOrder(b.item, a.item, c.item);
  }

  /** Scores of two different items are never tied. */
  lemma ScoreBeforeTotal(a: Score, b: Score)
    requires a.item != b.item
    ensures ScoreBefore(a, b) || ScoreBefore(b, a)
  {
    ScoreBeforeByKey(a, b);
    ScoreBeforeByKey(b, a);
    StrLessOrder(a.item, b.item, b.item);
  }

  /** No entry comes before an earlier one. */
  predicate SortedScores(s: seq<Score>)
  {
    forall i, j :: 0 <= i < j < |s| ==> !ScoreBefore(s[j], s[i])
  }

  /** `x` placed in front of the first entry that does not come before it. */
  function InsertScore(x: Score, s: seq<Score>): (r: seq<Score>)
    ensures |r| == |s| + 1
  {
    if |s| == 0 then [x]
    else if ScoreBefore(s[0], x) then [s[0]] + InsertScore(x, s[1..])
    else [x] + s
  }

  lemma {:induction false} InsertScorePermutes(x: Score, s: seq<Score>)
    ensures multiset(InsertScore(x, s)) == multiset(s) + multiset{x}
  {
    if |s| > 0 && ScoreBefore(s[0], x) {
      InsertScorePermutes(x, s[1..]);
      assert s == [s[0]] + s[1..];
    }
  }

  lemma {:induction false} InsertScoreSorts(x: Score, s: seq<Score>)
    requires SortedScores(s)
    ensures SortedScores(InsertScore(x, s))
  {
    if |s| > 0 {
      var s0 := s[0];
      if ScoreBefore(s0, x) {
        var rest := InsertScore(x, s[1..]);
        InsertScoreSorts(x, s[1..]);
        InsertScorePermutes(x, s[1..]);
        assert s == [s0] + s[1..];
        forall j | 0 <= j < |rest|
          ensures !ScoreBefore(rest[j], s0)
        {
          assert rest[j] in multiset(rest);
          if rest[j] == x {
            ScoreBeforeOrder(s0, x, x);
            ScoreBeforeByKey(s0, x);
            ScoreBeforeByKey(x, s0);
            StrLessOrder(s0.item, x.item, x.item);
          } else {
            assert rest[j] in multiset(s[1..]);
            var k :| 0 <= k < |s[1..]| && s[1..][k] == rest[j];
            assert s[k + 1] == rest[j];
          }
        }
      } else {
        forall j | 0 <= j < |s|
          ensures !ScoreBefore(s[j], x)
        {
          ScoreBeforeOrder(s[j], s0, x);
        }
      }
    }
  }

  /**
   * `sortScores`: a copy of the scores in comparator order (inserted one
   * by one).
   */
  function SortScores(scores: seq<Score>): (r: seq<Score>)
    ensures |r| == |scores|
  {
    if |scores| == 0 then [] else InsertScore(scores[0], SortScores(scores[1..]))
  }

  /** The sorted copy is a permutation of the scores. */
  lemma {:induction false} SortScoresPermutes(scores: seq<Score>)
    ensures multiset(SortScores(scores)) == multiset(scores)
  {
    if |scores| > 0 {
      SortScoresPermutes(scores[1..]);
      InsertScorePermutes(scores[0], SortScores(scores[1..]));
      assert scores == [scores[0]] + scores[1..];
    }
  }

  /** The sorted copy is in comparator order. */
  lemma {:induction false} SortScoresSorts(scores: seq<Score>)
    ensures SortedScores(SortScores(scores))
  {
    if |scores| > 0 {
      SortScoresSorts(scores[1..]);
      InsertScoreSorts(scores[0], SortScores(scores[1..]));
    }
  }

  /**
   * What the order means for two ranked entries: net wins never increase;
   * among equal positive net wins the total never decreases, among equal
   * negative net wins it never increases; fully tied entries are in name
   * order.
   */
  lemma SortScoresRanks(scores: seq<Score>, i: nat, j: nat)
    requires i < j < |scores|
    ensures var r := SortScores(scores);
      multiset(r) == multiset(scores) &&
      NetWins(r[i]) >= NetWins(r[j]) &&
      (NetWins(r[i]) == NetWins(r[j]) > 0 ==> TotalVotes(r[i]) <= TotalVotes(r[j])) &&
      (NetWins(r[i]) == NetWins(r[j]) < 0 ==> TotalVotes(r[i]) >= TotalVotes(r[j])) &&
      (NetWins(r[i]) == NetWins(r[j]) && TotalVotes(r[i]) == TotalVotes(r[j]) ==> !StrLess(r[j].item, r[i].item))
  {
    SortScoresSorts(scores);
    SortScoresPermutes(scores);
  }

  /** Two comparator-ordered permutations of scores of different items start alike. */
  lemma SortedHeadsEqual(s: seq<Score>, t: seq<Score>)
    requires SortedScores(s) && SortedScores(t) && multiset(s) == multiset(t) && Distinct(Names(s))
    requires |s| > 0
    ensures |t| > 0 && s[0] == t[0]
  {
    assert s[0] in multiset(t);
    var i :| 0 <= i < |t| && t[i] == s[0];
    assert t[0] in multiset(s);
    var k :| 0 <= k < |s| && s[k] == t[0];
    if s[0] != t[0] {
      assert Names(s)[0] != Names(s)[k];
      ScoreBeforeTotal(s[0], t[0]);
    }
  }

  lemma SortedTail(s: seq<Score>)
    requires SortedScores(s) && Distinct(Names(s)) && |s| > 0
    ensures SortedScores(s[1..]) && Distinct(Names(s[1..]))
  {
    assert Names(s[1..]) == Names(s)[1..];
  }

  lemma MultisetTail(s: seq<Score>)
    requires |s| > 0
    ensures multiset(s[1..]) == multiset(s) - multiset{s[0]}
  {
    assert s == [s[0]] + s[1..];
  }

  /** Two comparator-ordered permutations of scores of different items are equal. */
  lemma {:induction false} SortedPermutationUnique(s: seq<Score>, t: seq<Score>)
    requires SortedScores(s) && SortedScores(t) && multiset(s) == multiset(t) && Distinct(Names(s))
    ensures s == t
  {
    if |s| == 0 {
      assert |t| == |multiset(t)| == 0;
    } else {
      SortedHeadsEqual(s, t);
      SortedTail(s);
      assert SortedScores(t[1..]);
      assert s == [s[0]] + s[1..] && t == [t[0]] + t[1..];
      MultisetTail(s);
      MultisetTail(t);
      SortedPermutationUnique(s[1..], t[1..]);
    }
  }

  /** With different item names, the ranking does not depend on the input order. */
  lemma SortScoresCanonical(a: seq<Score>, b: seq<Score>)
    requires multiset(a) == multiset(b) && Distinct(Names(a))
    ensures SortScores(a) == SortScores(b)
  {
    SortScoresSorts(a);
    SortScoresSorts(b);
    SortScoresPermutes(a);
    SortScoresPermutes(b);
    var s := SortScores(a);
    DistinctNamesOfPermutation(a, s);
    SortedPermutationUnique(s, SortScores(b));
  }

  /** Different item names carry over to a permutation. */
  lemma DistinctNamesOfPermutation(a: seq<Score>, s: seq<Score>)
    requires Distinct(Names(a)) && multiset(a) == multiset(s)
    ensures Distinct(Names(s))
  {
    DistinctIffCardinality(Names(a));
    DistinctIffCardinality(Names(s));
    assert Elements(Names(a)) == Elements(Names(s)) by {
      forall x
        ensures x in Elements(Names(a)) <==> x in Elements(Names(s))
      {
        if x in Elements(Names(a)) {
          var i :| 0 <= i < |a| && Names(a)[i] == x;
          assert a[i] in multiset(s);
          var k :| 0 <= k < |s| && s[k] == a[i];
          assert Names(s)[k] == x;
        }
        if x in Elements(Names(s)) {
          var k :| 0 <= k < |s| && Names(s)[k] == x;
          assert s[k] in multiset(a);
          var i :| 0 <= i < |a| && a[i] == s[k];
          assert Names(a)[i] == x;
        }
      }
    }
    assert |s| == |multiset(s)| == |multiset(a)| == |a|;
  }

  // ---------------------------------------------------------------------
  // Column widths
  // ---------------------------------------------------------------------

  /** `findMaxLengthItem`: the length of a longest name, 0 for no scores. */
  function FindMaxLengthItem(scores: seq<Score>): (m: nat)
    ensures forall i :: 0 <= i < |scores| ==> |scores[i].item| <= m
    ensures |scores| == 0 ==> m == 0
    ensures |scores| > 0 ==> exists i :: 0 <= i < |scores| && |scores[i].item| == m
  {
    var names := Names(scores);
    assert forall i :: 0 <= i < |scores| ==> names[i] == scores[i].item;
    VotingRounds.FindMaxLength(names)
  }

  /** `findMaxLengthWins`: the most digits among the wins, 0 for no scores. */
  function FindMaxLengthWins(scores: seq<Score>): (m: nat)
    ensures forall i :: 0 <= i < |scores| ==> NumberOfDigits(scores[i].wins) <= m
    ensures |scores| == 0 ==> m == 0
    ensures |scores| > 0 ==> exists i :: 0 <= i < |scores| && NumberOfDigits(scores[i].wins) == m
  {
    var texts := seq(|scores|, i requires 0 <= i < |scores| => NatToString(scores[i].wins));
    assert forall i :: 0 <= i < |scores| ==> |texts[i]| == NumberOfDigits(scores[i].wins);
    VotingRounds.FindMaxLength(texts)
  }

  /** `findMaxLengthLosses`: the most digits among the losses, 0 for no scores. */
  function FindMaxLengthLosses(scores: seq<Score>): (m: nat)
    ensures forall i :: 0 <= i < |scores| ==> NumberOfDigits(scores[i].losses) <= m
    ensures |scores| == 0 ==> m == 0
    ensures |scores| > 0 ==> exists i :: 0 <= i < |scores| && NumberOfDigits(scores[i].losses) == m
  {
    var texts := seq(|scores|, i requires 0 <= i < |scores| => NatToString(scores[i].losses));
    assert forall i :: 0 <= i < |scores| ==> |texts[i]| == NumberOfDigits(scores[i].losses);
    VotingRounds.FindMaxLength(texts)
  }

  const ItemHeader := "Item"
  const WinsHeader := "Wins"
  const LossesHeader := "Losses"

  datatype Widths = Widths(item: nat, wins: nat, losses: nat)

  /** Each column as wide as its widest entry, and never narrower than its header. */
  function ColumnWidths(scores: seq<Score>): Widths
  {
    Widths(Max(FindMaxLengthItem(scores), |ItemHeader|) as nat,
      Max(FindMaxLengthWins(scores), |WinsHeader|) as nat,
      Max(FindMaxLengthLosses(scores), |LossesHeader|) as nat)
  }

  /** `total_length`: the borders and separators plus the three columns. */
  function RowLength(w: Widths): nat
  {
    2 + w.item + 3 + w.wins + 3 + w.losses + 2
  }

  // ---------------------------------------------------------------------
  // Table lines
  // ---------------------------------------------------------------------

  /** A table row: the three texts right-aligned in their columns between bars. */
  function TableRow(item: string, wins: string, losses: string, w: Widths): (line: string)
    requires |item| <= w.item && |wins| <= w.wins && |losses| <= w.losses
    ensures |line| == RowLength(w)
  {
    "| " + (Repeat(' ', w.item - |item|) + item) +
    " | " + (Repeat(' ', w.wins - |wins|) + wins) +
    " | " + (Repeat(' ', w.losses - |losses|) + losses) + " |"
  }

  /** Each text sits right-aligned in its column, between the bars. */
  lemma TableRowAligned(item: string, wins: string, losses: string, w: Widths)
    requires |item| <= w.item && |wins| <= w.wins && |losses| <= w.losses
    ensures var line := TableRow(item, wins, losses, w);
      line[..2] == "| " && line[|line| - 2..] == " |" &&
      VotingRounds.RightAligned(line[2..2 + w.item], item) &&
      line[2 + w.item..5 + w.item] == " | " &&
      VotingRounds.RightAligned(line[5 + w.item..5 + w.item + w.wins], wins) &&
      line[5 + w.item + w.wins..8 + w.item + w.wins] == " | " &&
      VotingRounds.RightAligned(line[8 + w.item + w.wins..8 + w.item + w.wins + w.losses], losses)
  {
    var f1 := Repeat(' ', w.item - |item|) + item;
    var f2 := Repeat(' ', w.wins - |wins|) + wins;
    var f3 := Repeat(' ', w.losses - |losses|) + losses;
    VotingRounds.PaddingRightAligns(w.item - |item|, item);
    VotingRounds.PaddingRightAligns(w.wins - |wins|, wins);
    VotingRounds.PaddingRightAligns(w.losses - |losses|, losses);
    var line := TableRow(item, wins, losses, w);
    assert line[2..2 + w.item] == f1;
    assert line[5 + w.item..5 + w.item + w.wins] == f2;
    assert line[8 + w.item + w.wins..8 + w.item + w.wins + w.losses] == f3;
  }

  /** The line under the header: dashes in every column. */
  function Separator(w: Widths): (line: string)
    ensures |line| == RowLength(w)
  {
    "|-" + Repeat('-', w.item) + "-|-" + Repeat('-', w.wins) + "-|-" + Repeat('-', w.losses) + "-|"
  }

  /** The line above and below the table. */
  function Frame(w: Widths): string
  {
    Repeat('-', RowLength(w))
  }

  function ScoreRow(s: Score, w: Widths): string
    requires |s.item| <= w.item && NumberOfDigits(s.wins) <= w.wins && NumberOfDigits(s.losses) <= w.losses
  {
    TableRow(s.item, NatToString(s.wins), NatToString(s.losses), w)
  }

  /** The rows of the ranked scores. */
  function ScoreRows(sorted: seq<Score>, w: Widths): (rows: seq<string>)
    requires w == ColumnWidths(sorted)
    ensures |rows| == |sorted|
    ensures forall i :: 0 <= i < |rows| ==> |rows[i]| == RowLength(w)
  {
    seq(|sorted|, i requires 0 <= i < |sorted| => ScoreRow(sorted[i], w))
  }

  /** The lines of a table of ranked scores: frame, header, separator, one row per score, frame. */
  function Table(sorted: seq<Score>): seq<string>
  {
    var w := ColumnWidths(sorted);
    [Frame(w), TableRow(ItemHeader, WinsHeader, LossesHeader, w), Separator(w)] + ScoreRows(sorted, w) + [Frame(w)]
  }

  /** The table of the scores in ranking order. */
  function TableLines(scores: seq<Score>): seq<string>
  {
    Table(SortScores(scores))
  }

  /** Lines each ended by a newline, joined. */
  function Unlines(lines: seq<string>): string
  {
    if |lines| == 0 then "" else Unlines(lines[..|lines| - 1]) + lines[|lines| - 1] + "\n"
  }

  lemma {:induction false} UnlinesAppend(a: seq<string>, b: seq<string>)
    ensures Unlines(a + b) == Unlines(a) + Unlines(b)
  {
    if |b| == 0 {
      assert a + b == a;
    } else {
      var m := |b| - 1;
      assert Unlines(a + b) == Unlines(a + b[..m]) + b[m] + "\n" by {
        assert (a + b)[..|a + b| - 1] == a + b[..m];
        assert (a + b)[|a + b| - 1] == b[m];
      }
      assert Unlines(a + b[..m]) == Unlines(a) + Unlines(b[..m]) by {
        UnlinesAppend(a, b[..m]);
      }
      assert Unlines(b) == Unlines(b[..m]) + b[m] + "\n";
    }
  }

  /** Three head lines, some rows and a last line, as text. */
  lemma UnlinesOfTable(a: string, b: string, c: string, rows: seq<string>, d: string)
    ensures Unlines([a, b, c] + rows + [d]) == a + "\n" + b + "\n" + c + "\n" + Unlines(rows) + d + "\n"
  {
    var head := [a, b, c];
    UnlinesAppend(head, rows);
    UnlinesAppend(head + rows, [d]);
    assert [d][..0] == [] && [a][..0] == [];
    assert Unlines([a, b]) == a + "\n" + b + "\n" by {
      assert [a, b][..1] == [a];
    }
    assert Unlines(head) == a + "\n" + b + "\n" + c + "\n" by {
      assert head[..2] == [a, b];
    }
  }

  /** Lines, each ended by a newline, appended to `prefix` one by one. */
  method AppendLines(prefix: string, lines: seq<string>) returns (text: string)
    ensures text == prefix + Unlines(lines)
  {
    text := prefix;
    for i := 0 to |lines|
      invariant text == prefix + Unlines(lines[..i])
    {
      assert lines[..i + 1][..i] == lines[..i];
      assert text + lines[i] + "\n" == prefix + (Unlines(lines[..i]) + lines[i] + "\n");
      text := text + lines[i] + "\n";
    }
    assert lines[..|lines|] == lines;
  }

  /** `createScoreTable`: the table text, built line by line. */
  method CreateScoreTable(scores: seq<Score>) returns (table: string)
    ensures table == Unlines(TableLines(scores))
  {
    var sorted := SortScores(scores);
    var w := ColumnWidths(sorted);
    table := Frame(w) + "\n";
    table := table + TableRow(ItemHeader, WinsHeader, LossesHeader, w) + "\n";
    table := table + Separator(w) + "\n";
    table := AppendLines(table, ScoreRows(sorted, w));
    table := table + Frame(w) + "\n";
    UnlinesOfTable(Frame(w), TableRow(ItemHeader, WinsHeader, LossesHeader, w), Separator(w), ScoreRows(sorted, w), Frame(w));
  }

  /**
   * The table has four lines besides one row per score, all of the same
   * length, and its rows are the scores in the given (ranking) order,
   * each field right-aligned by `TableRowAligned`.
   */
  lemma TableLayout(sorted: seq<Score>)
    ensures var lines := Table(sorted);
      var w := ColumnWidths(sorted);
      |lines| == |sorted| + 4 &&
      (forall k :: 0 <= k < |lines| ==> |lines[k]| == RowLength(w)) &&
      (forall i :: 0 <= i < |sorted| ==> lines[3 + i] == ScoreRow(sorted[i], w))
  {
    var w := ColumnWidths(sorted);
    LinesOfTable(Frame(w), TableRow(ItemHeader, WinsHeader, LossesHeader, w), Separator(w), ScoreRows(sorted, w), Frame(w), RowLength(w));
  }

  /**
   * Each column is as wide as its widest entry or its header, whichever
   * is wider, whatever the order of the scores.
   */
  lemma TableWidths(scores: seq<Score>)
    ensures var w := ColumnWidths(SortScores(scores));
      w.item == Max(FindMaxLengthItem(scores), 4) &&
      w.wins == Max(FindMaxLengthWins(scores), 4) &&
      w.losses == Max(FindMaxLengthLosses(scores), 6)
  {
    SortScoresPermutes(scores);
    WidthsOfPermutation(scores, SortScores(scores));
  }

  /** The lines of a table whose head, rows and last line all have length `n`. */
  lemma LinesOfTable(a: string, b: string, c: string, rows: seq<string>, d: string, n: nat)
    requires |a| == |b| == |c| == |d| == n
    requires forall i :: 0 <= i < |rows| ==> |rows[i]| == n
    ensures var lines := [a, b, c] + rows + [d];
      |lines| == |rows| + 4 &&
      (forall k :: 0 <= k < |lines| ==> |lines[k]| == n) &&
      (forall i :: 0 <= i < |rows| ==> lines[3 + i] == rows[i])
  {
  }

  /** The column widths do not depend on the order of the scores. */
  lemma WidthsOfPermutation(a: seq<Score>, b: seq<Score>)
    requires multiset(a) == multiset(b)
    ensures FindMaxLengthItem(a) == FindMaxLengthItem(b)
    ensures FindMaxLengthWins(a) == FindMaxLengthWins(b)
    ensures FindMaxLengthLosses(a) == FindMaxLengthLosses(b)
  {
    WidthsAtMost(a, b);
    WidthsAtMost(b, a);
  }

  lemma WidthsAtMost(a: seq<Score>, b: seq<Score>)
    requires multiset(a) == multiset(b)
    ensures FindMaxLengthItem(a) <= FindMaxLengthItem(b)
    ensures FindMaxLengthWins(a) <= FindMaxLengthWins(b)
    ensures FindMaxLengthLosses(a) <= FindMaxLengthLosses(b)
  {
    if |a| > 0 {
      var i :| 0 <= i < |a| && |a[i].item| == FindMaxLengthItem(a);
      assert a[i] in multiset(b);
      var i' :| 0 <= i' < |b| && b[i'] == a[i];
      var j :| 0 <= j < |a| && NumberOfDigits(a[j].wins) == FindMaxLengthWins(a);
      assert a[j] in multiset(b);
      var j' :| 0 <= j' < |b| && b[j'] == a[j];
      var k :| 0 <= k < |a| && NumberOfDigits(a[k].losses) == FindMaxLengthLosses(a);
      assert a[k] in multiset(b);
      var k' :| 0 <= k' < |b| && b[k'] == a[k];
    }
  }
}
