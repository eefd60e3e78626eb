/**
 * The voting-file text format shared by `VotingRound::create(lines)` /
 * `convertToText` (src/voting_round.cpp) and the legacy
 * `parseVotingRoundFromText` / `convertVotingRoundToText`
 * (src/functions.cpp): the item lines, an empty line, the seed, the format
 * word, then one "a b w" line per vote.
 */
module RoundTexts {
  import opened Types
  import opened Helpers
  import opened VotingFormats
  import opened Scheduling
  import opened Ranking

  /** What a voting file records about a round. */
  datatype RoundText = RoundText(items: seq<Item>, seed: nat, format: VotingFormat, votes: seq<Vote>)

  // ---------------------------------------------------------------------
  // Vote lines
  // ---------------------------------------------------------------------

  /** The default vote `Vote{}` that `parseVote` returns on every error. */
  const EmptyVote := Vote(0, 0, A)

  /** A vote's line: both indices and the option's number, separated by spaces. */
  function VoteLine(v: Vote): string
  {
    NatToString(v.a) + " " + NatToString(v.b) + " " + NatToString(OptionIndex(v.winner))
  }

  /**
   * `parseVote`: exactly three words, each a number, the last one 0 or 1;
   * anything else gives the empty vote.
   */
  function ParseVote(line: string): (v: Vote)
    ensures |Words(line)| != 3 ==> v == EmptyVote
    ensures v != EmptyVote ==>
      |Words(line)| == 3 &&
      ParseNumber(Words(line)[0]) == Some(v.a) &&
      ParseNumber(Words(line)[1]) == Some(v.b) &&
      ParseNumber(Words(line)[2]) == Some(OptionIndex(v.winner))
    ensures |Words(line)| == 3 ==>
      var a, b, w := ParseNumber(Words(line)[0]), ParseNumber(Words(line)[1]), ParseNumber(Words(line)[2]);
      a.Some? && b.Some? && w.Some? && w.value <= 1 ==>
        v == Vote(a.value, b.value, if w.value == 0 then A else B)
  {
    var words := Words(line);
    if |words| != 3 then EmptyVote
    else
      var a, b, w := ParseNumber(words[0]), ParseNumber(words[1]), ParseNumber(words[2]);
      if !(a.Some? && b.Some? && w.Some?) then EmptyVote
      else if !(w.value == 0 || w.value == 1) then EmptyVote
      else Vote(a.value, b.value, if w.value == 0 then A else B)
  }

  lemma NumeralHasNoSpace(s: string)
    requires IsNumeral(s)
    ensures |s| > 0 && NoSpace(s)
  {
  }

  lemma VoteLineWords(v: Vote)
    ensures Words(VoteLine(v)) ==
      [NatToString(v.a), NatToString(v.b), NatToString(OptionIndex(v.winner))]
  {
    var x, y, z := NatToString(v.a), NatToString(v.b), NatToString(OptionIndex(v.winner));
    NumeralHasNoSpace(x);
    NumeralHasNoSpace(y);
    NumeralHasNoSpace(z);
    var ws := [x, y, z];
    assert ws[1..] == [y, z] && ws[1..][1..] == [z];
    assert JoinWords([z]) == z;
    assert JoinWords([y, z]) == y + " " + z;
    assert JoinWords(ws) == x + " " + (y + " " + z);
    assert VoteLine(v) == x + " " + (y + " " + z);
    WordsOfJoinWords(ws);
  }

  /** Reading a written vote line gives the vote back. */
  lemma ParseVoteLine(v: Vote)
    ensures ParseVote(VoteLine(v)) == v
  {
    VoteLineWords(v);
    ParseNumberOfNatToString(v.a);
    ParseNumberOfNatToString(v.b);
    ParseNumberOfNatToString(OptionIndex(v.winner));
  }

  function ParseVotes(lines: seq<string>): (votes: seq<Vote>)
    ensures |votes| == |lines|
  {
    seq(|lines|, i requires 0 <= i < |lines| => ParseVote(lines[i]))
  }

  function VoteLines(votes: seq<Vote>): (lines: seq<string>)
    ensures |lines| == |votes|
  {
    seq(|votes|, i requires 0 <= i < |votes| => VoteLine(votes[i]))
  }

  lemma ParseVoteLines(votes: seq<Vote>)
    ensures ParseVotes(VoteLines(votes)) == votes
  {
    forall i | 0 <= i < |votes|
      ensures ParseVotes(VoteLines(votes))[i] == votes[i]
    {
      ParseVoteLine(votes[i]);
    }
  }

  // ---------------------------------------------------------------------
  // Checks on the parsed votes
  // ---------------------------------------------------------------------

  /** No vote reads as indices (0, 0), the value a failed parse gives. */
  predicate NoEmptyVote(votes: seq<Vote>)
  {
    forall i :: 0 <= i < |votes| ==> !(votes[i].a == 0 && votes[i].b == 0)
  }

  /** `votingIndicesAreSmallerThanNumberOfItems`. */
  predicate IndicesInRange(votes: seq<Vote>, n: nat)
  {
    forall i :: 0 <= i < |votes| ==> votes[i].a < n && votes[i].b < n
  }

  /** Each vote's unordered matchup. */
  function MatchupKeys(votes: seq<Vote>): (keys: seq<IndexPair>)
    ensures |keys| == |votes|
  {
    seq(|votes|, i requires 0 <= i < |votes| => SortIndexPair(Pair(votes[i].a, votes[i].b)))
  }

  /**
   * `hasDuplicateMatchups`: fewer distinct unordered matchups than votes.
   * That is, two votes are about the same two items, in either order.
   */
  predicate HasDuplicateMatchups(votes: seq<Vote>)
  {
    |Elements(MatchupKeys(votes))| != |votes|
  }

  lemma DuplicateMatchupsMeaning(votes: seq<Vote>)
    ensures HasDuplicateMatchups(votes) <==>
      exists i, j :: 0 <= i < j < |votes| &&
        {votes[i].a, votes[i].b} == {votes[j].a, votes[j].b}
  {
    var keys := MatchupKeys(votes);
    DistinctIffCardinality(keys);
    forall i, j | 0 <= i < |votes| && 0 <= j < |votes|
      ensures keys[i] == keys[j] <==> {votes[i].a, votes[i].b} == {votes[j].a, votes[j].b}
    {
      var x, y := votes[i], votes[j];
      if {x.a, x.b} == {y.a, y.b} {
        assert x.a in {y.a, y.b} && x.b in {y.a, y.b};
        assert y.a in {x.a, x.b} && y.b in {x.a, x.b};
      }
    }
  }

  /** Ranked votes are exactly the matchups the insertion sort presented. */
  predicate RankedConsistent(votes: seq<Vote>)
  {
    votes == History(Winners(votes))
  }

  /** Each vote of a consistent ranked history is the matchup presented at that point. */
  lemma ConsistentVoteAt(votes: seq<Vote>, i: nat)
    requires RankedConsistent(votes) && i < |votes|
    ensures votes[i] == VoteAt(WindowAfter(Winners(votes)[..i]), votes[i].winner)
  {
    HistoryAt(Winners(votes), i);
  }

  // ---------------------------------------------------------------------
  // Reading and writing a whole file
  // ---------------------------------------------------------------------

  /** The number of item lines: the lines before the first empty one. */
  function ItemCount(lines: seq<string>): (k: nat)
    ensures k <= |lines|
    ensures forall i :: 0 <= i < k ==> lines[i] != ""
    ensures k < |lines| ==> lines[k] == ""
  {
    if |lines| == 0 || lines[0] == "" then 0 else 1 + ItemCount(lines[1..])
  }

  lemma {:induction false} ItemCountOf(items: seq<Item>, rest: seq<string>)
    requires forall i :: 0 <= i < |items| ==> items[i] != ""
    requires |rest| > 0 && rest[0] == ""
    ensures ItemCount(items + rest) == |items|
  {
    if |items| > 0 {
      assert (items + rest)[1..] == items[1..] + rest;
      ItemCountOf(items[1..], rest);
    } else {
      assert items + rest == rest;
    }
  }

  /**
   * `create(lines)` as written: every check it makes, each failing the
   * whole load. It does not check ranked votes against the matchups the
   * insertion sort presents when they are replayed.
   */
  function ParseRoundTextAsWritten(lines: seq<string>): (r: Option<RoundText>)
    ensures r.Some? ==> 2 <= |r.value.items| < |lines| && r.value.items == lines[..|r.value.items|]
    ensures r.Some? ==> r.value.format != Invalid
    ensures r.Some? ==> |r.value.votes| == |lines| - |r.value.items| - 3
  {
    var k := ItemCount(lines);
    var items := lines[..k];
    if |items| < 2 || |Elements(items)| != |items| then None
    else if k + 1 >= |lines| then None
    else match ParseNumber(lines[k + 1]) {
      case None => None
      case Some(seed) =>
        if k + 2 >= |lines| then None
        else CheckedRound(items, seed, StringToVotingFormat(lines[k + 2]), ParseVotes(lines[k + 3..]))
    }
  }

  /**
   * The checks on the format and the votes, in the load's order, once the
   * items and the seed are read: the round exactly when all of them pass.
   */
  function CheckedRound(items: seq<Item>, seed: nat, format: VotingFormat, votes: seq<Vote>): (r: Option<RoundText>)
    ensures r.Some? <==> HeaderAndVotesPass(|items|, format, votes)
    ensures r.Some? ==> r.value == RoundText(items, seed, format, votes)
  {
    if format == Invalid then None
    else if !NoEmptyVote(votes) then None
    else if !IndicesInRange(votes, |items|) then None
    else if HasDuplicateMatchups(votes) then None
    else if IsScoreFormat(format) && |votes| > |Schedule(|items|, format == Reduced)| then None
    else Some(RoundText(items, seed, format, votes))
  }

  /**
   * `create(lines)` with ranked votes also required to be the matchups
   * the insertion sort presents as they are replayed.
   */
  function ParseRoundText(lines: seq<string>): (r: Option<RoundText>)
    ensures r.Some? ==> ParseRoundTextAsWritten(lines) == r
    ensures r.None? && ParseRoundTextAsWritten(lines).Some? ==>
      ParseRoundTextAsWritten(lines).value.format == Ranked
  {
    var t := ParseRoundTextAsWritten(lines);
    if t.Some? && t.value.format == Ranked && !RankedConsistent(t.value.votes) then None else t
  }

  /** The corrected load differs from the load as written only on inconsistent ranked votes. */
  lemma ParseRoundTextOf(lines: seq<string>)
    requires ParseRoundTextAsWritten(lines).Some?
    ensures var t := ParseRoundTextAsWritten(lines).value;
      ParseRoundText(lines) == if t.format == Ranked && !RankedConsistent(t.votes) then None else Some(t)
  {
  }

  /** `convertToText` of a round with items: the lines a voting file holds. */
  function RoundToLines(t: RoundText): seq<string>
  {
    t.items + [""] + [NatToString(t.seed), VotingFormatToString(t.format)] + VoteLines(t.votes)
  }

  /** Everything the load as written checks, stated on the contents. */
  predicate Checked(t: RoundText)
  {
    |t.items| >= 2 &&
    (forall i :: 0 <= i < |t.items| ==> t.items[i] != "") &&
    Distinct(t.items) &&
    HeaderAndVotesPass(|t.items|, t.format, t.votes)
  }

  /** The checks made on the format and the votes of a round of `n` items. */
  predicate HeaderAndVotesPass(n: nat, format: VotingFormat, votes: seq<Vote>)
  {
    format != Invalid &&
    NoEmptyVote(votes) &&
    IndicesInRange(votes, n) &&
    !HasDuplicateMatchups(votes) &&
    (IsScoreFormat(format) ==> |votes| <= |Schedule(n, format == Reduced)|)
  }

  /** Everything loading a voting file checks, stated on its contents. */
  predicate Acceptable(t: RoundText)
  {
    Checked(t) && (t.format == Ranked ==> RankedConsistent(t.votes))
  }

  /** Whatever the load as written accepts passes its checks. */
  lemma CheckedText(lines: seq<string>)
    requires ParseRoundTextAsWritten(lines).Some?
    ensures Checked(ParseRoundTextAsWritten(lines).value)
  {
    DistinctIffCardinality(ParseRoundTextAsWritten(lines).value.items);
  }

  /** Whatever loads is acceptable. */
  lemma ParsedIsAcceptable(lines: seq<string>)
    requires ParseRoundText(lines).Some?
    ensures Acceptable(ParseRoundText(lines).value)
  {
    var t := ParseRoundText(lines).value;
    DistinctIffCardinality(t.items);
  }

  /** The load as written reads back every checked round it is given as text. */
  lemma WrittenTextLoads(t: RoundText)
    requires Checked(t)
    ensures ParseRoundTextAsWritten(RoundToLines(t)) == Some(t)
  {
    WrittenLinesPieces(t);
    DistinctIffCardinality(t.items);
    LoadsAsWritten(RoundToLines(t), t);
  }

  /** Where the load finds each part of a written round among its lines. */
  lemma WrittenLinesPieces(t: RoundText)
    requires forall i :: 0 <= i < |t.items| ==> t.items[i] != ""
    ensures var lines, k := RoundToLines(t), |t.items|;
      k + 2 < |lines| && ItemCount(lines) == k && lines[..k] == t.items &&
      ParseNumber(lines[k + 1]) == Some(t.seed) &&
      StringToVotingFormat(lines[k + 2]) == t.format &&
      ParseVotes(lines[k + 3..]) == t.votes
  {
    var lines := RoundToLines(t);
    var k := |t.items|;
    var rest := [""] + [NatToString(t.seed), VotingFormatToString(t.format)] + VoteLines(t.votes);
    assert ItemCount(lines) == k && lines[..k] == t.items by {
      assert lines == t.items + rest;
      ItemCountOf(t.items, rest);
    }
    assert ParseNumber(lines[k + 1]) == Some(t.seed) by {
      assert lines[k + 1] == NatToString(t.seed);
      ParseNumberOfNatToString(t.seed);
    }
    assert StringToVotingFormat(lines[k + 2]) == t.format by {
      assert lines[k + 2] == VotingFormatToString(t.format);
      FormatRoundTrip(t.format);
    }
    assert ParseVotes(lines[k + 3..]) == t.votes by {
      assert lines[k + 3..] == VoteLines(t.votes);
      ParseVoteLines(t.votes);
    }
  }

  /** The load as written, given the pieces it reads from the lines. */
  lemma LoadsAsWritten(lines: seq<string>, t: RoundText)
    requires |t.items| >= 2 && |Elements(t.items)| == |t.items| && HeaderAndVotesPass(|t.items|, t.format, t.votes)
    requires |t.items| + 2 < |lines|
    requires ItemCount(lines) == |t.items| && lines[..|t.items|] == t.items
    requires ParseNumber(lines[|t.items| + 1]) == Some(t.seed)
    requires StringToVotingFormat(lines[|t.items| + 2]) == t.format
    requires ParseVotes(lines[|t.items| + 3..]) == t.votes
    ensures ParseRoundTextAsWritten(lines) == Some(t)
  {
    assert CheckedRound(t.items, t.seed, t.format, t.votes) == Some(t);
  }

  /** Writing an acceptable round and loading it back gives the same contents. */
  lemma RoundTextRoundTrip(t: RoundText)
    requires Acceptable(t)
    ensures ParseRoundText(RoundToLines(t)) == Some(t)
  {
    WrittenTextLoads(t);
    ParseRoundTextOf(RoundToLines(t));
  }

  // ---------------------------------------------------------------------
  // Voting and undoing keep a round loadable
  // ---------------------------------------------------------------------

  /** The votes cast so far are the first pairs of the schedule, in order. */
  predicate VotesFollow(votes: seq<Vote>, pairs: seq<IndexPair>)
  {
    |votes| <= |pairs| &&
    forall i :: 0 <= i < |votes| ==> votes[i].a == pairs[i].first && votes[i].b == pairs[i].second
  }

  /** A rearrangement of a repeat-free list is repeat-free. */
  lemma DistinctOfPermutation<T>(a: seq<T>, b: seq<T>)
    requires multiset(a) == multiset(b) && Distinct(b)
    ensures Distinct(a)
  {
    assert |a| == |multiset(a)| == |multiset(b)| == |b|;
    assert Elements(a) == Elements(b) by {
      forall x
        ensures x in a <==> x in b
      {
        assert x in a <==> x in multiset(a);
        assert x in b <==> x in multiset(b);
      }
    }
    DistinctIffCardinality(a);
    DistinctIffCardinality(b);
  }

  /** Dropping the last vote leaves no repeated matchup. */
  lemma DropLastKeepsUnrepeated(votes: seq<Vote>)
    requires !HasDuplicateMatchups(votes) && |votes| > 0
    ensures !HasDuplicateMatchups(votes[..|votes| - 1])
  {
    var k := |votes| - 1;
    assert MatchupKeys(votes[..k]) == MatchupKeys(votes)[..k];
    DistinctIffCardinality(MatchupKeys(votes));
    DistinctIffCardinality(MatchupKeys(votes[..k]));
  }

  /** Dropping the last answer of a consistent ranked history leaves a consistent one. */
  lemma DropLastKeepsConsistent(votes: seq<Vote>)
    requires RankedConsistent(votes) && |votes| > 0
    ensures RankedConsistent(votes[..|votes| - 1])
  {
    var k := |votes| - 1;
    var ws := Winners(votes);
    assert Winners(votes[..k]) == ws[..k];
    assert History(ws)[..k] == History(ws[..k]);
  }

  /** Dropping the last vote keeps the format and vote checks passing. */
  lemma DropLastKeepsPassing(n: nat, format: VotingFormat, votes: seq<Vote>)
    requires HeaderAndVotesPass(n, format, votes) && |votes| > 0
    ensures HeaderAndVotesPass(n, format, votes[..|votes| - 1])
  {
    var shorter := votes[..|votes| - 1];
    DropLastKeepsUnrepeated(votes);
    assert NoEmptyVote(shorter) && IndicesInRange(shorter, n) by {
      assert forall i :: 0 <= i < |shorter| ==> shorter[i] == votes[i];
    }
  }

  /** Removing the last vote keeps a round's contents loadable. */
  lemma UndoKeepsAcceptable(t: RoundText)
    requires Acceptable(t) && |t.votes| > 0
    ensures Acceptable(t.(votes := t.votes[..|t.votes| - 1]))
  {
    var u := t.(votes := t.votes[..|t.votes| - 1]);
    assert u.items == t.items && u.format == t.format;
    DropLastKeepsPassing(|t.items|, t.format, t.votes);
    if t.format == Ranked {
      DropLastKeepsConsistent(t.votes);
    }
  }

  /**
   * Voting on the next scheduled pair keeps a score round's contents
   * loadable, as long as its earlier votes were the schedule's first pairs.
   */
  lemma ScoreVoteKeepsAcceptable(t: RoundText, pairs: seq<IndexPair>, o: VoteOption)
    requires Acceptable(t) && IsScoreFormat(t.format)
    requires multiset(pairs) == multiset(Schedule(|t.items|, t.format == Reduced))
    requires |t.votes| < |pairs| && VotesFollow(t.votes, pairs)
    ensures var p := pairs[|t.votes|];
      var next := t.votes + [Vote(p.first, p.second, o)];
      Acceptable(t.(votes := next)) && VotesFollow(next, pairs)
  {
    var n, k := |t.items|, |t.votes|;
    assert Distinct(pairs) && forall q :: q in pairs ==> IsMatchup(q, n) by {
      var schedule := Schedule(n, t.format == Reduced);
      ScheduleDistinct(n, t.format == Reduced);
      DistinctOfPermutation(pairs, schedule);
      forall q | q in pairs
        ensures IsMatchup(q, n)
      {
        assert q in multiset(schedule);
      }
    }
    var p := pairs[k];
    assert IsMatchup(p, n) by {
      assert p in pairs;
    }
    assert |pairs| == |Schedule(n, t.format == Reduced)| by {
      assert |multiset(pairs)| == |multiset(Schedule(n, t.format == Reduced))|;
    }
    var v := Vote(p.first, p.second, o);
    var next := t.votes + [v];
    assert VotesFollow(next, pairs) by {
      assert forall i :: 0 <= i < k ==> next[i] == t.votes[i];
    }
    assert SortIndexPair(Pair(v.a, v.b)) !in MatchupKeys(t.votes) by {
      forall i | 0 <= i < k
        ensures MatchupKeys(t.votes)[i] != p
      {
        assert pairs[i] in pairs;
        assert MatchupKeys(t.votes)[i] == pairs[i];
      }
    }
    AppendNewMatchup(t.votes, v);
    assert NoEmptyVote(next) && IndicesInRange(next, n) by {
      assert forall i :: 0 <= i < k ==> next[i] == t.votes[i];
    }
  }

  /** A vote on a matchup not voted on before keeps the matchups unrepeated. */
  lemma AppendNewMatchup(votes: seq<Vote>, v: Vote)
    requires !HasDuplicateMatchups(votes)
    requires SortIndexPair(Pair(v.a, v.b)) !in MatchupKeys(votes)
    ensures !HasDuplicateMatchups(votes + [v])
  {
    var keys, key := MatchupKeys(votes), SortIndexPair(Pair(v.a, v.b));
    assert MatchupKeys(votes + [v]) == keys + [key];
    DistinctIffCardinality(keys);
    assert Distinct(keys + [key]) by {
      forall i, j | 0 <= i < j < |keys| + 1
        ensures (keys + [key])[i] != (keys + [key])[j]
      {
        assert (keys + [key])[i] == keys[i];
      }
    }
    DistinctIffCardinality(keys + [key]);
  }

  /** The matchup the insertion sort shows next has not been voted on. */
  lemma NextMatchupIsNew(votes: seq<Vote>)
    requires RankedConsistent(votes)
    ensures var w := WindowAfter(Winners(votes));
      Pair(Mid(w), w.sorted) !in MatchupKeys(votes)
  {
    var ws := Winners(votes);
    var w := WindowAfter(ws);
    var keys := MatchupKeys(votes);
    forall i | 0 <= i < |keys|
      ensures keys[i] != Pair(Mid(w), w.sorted)
    {
      ConsistentVoteAt(votes, i);
      WindowAfterValid(ws[..i]);
      LaterMatchupDiffers(ws, i);
    }
  }

  /**
   * Voting on the matchup the insertion sort shows keeps a ranked round's
   * contents loadable.
   */
  lemma RankedVoteKeepsAcceptable(t: RoundText, o: VoteOption)
    requires Acceptable(t) && t.format == Ranked
    requires WindowAfter(Winners(t.votes)).sorted < |t.items|
    ensures Acceptable(t.(votes := t.votes + [VoteAt(WindowAfter(Winners(t.votes)), o)]))
  {
    var ws := Winners(t.votes);
    var w := WindowAfter(ws);
    var v := VoteAt(w, o);
    var next := t.votes + [v];
    WindowAfterValid(ws);
    assert RankedConsistent(next) by {
      WinnersAppend(t.votes, v);
      HistoryAppend(ws, o);
    }
    assert !HasDuplicateMatchups(next) by {
      NextMatchupIsNew(t.votes);
      AppendNewMatchup(t.votes, v);
    }
    assert NoEmptyVote(next) && IndicesInRange(next, |t.items|) by {
      assert forall i :: 0 <= i < |t.votes| ==> next[i] == t.votes[i];
    }
  }

  // ---------------------------------------------------------------------
  // Ranked votes replayed past the last item
  // ---------------------------------------------------------------------

  /** Two items, then two ranked votes although one answer already places both. */
  const OverrunLines: seq<string> := ["a", "b", "", "1", "ranked", "0 1 0", "1 1 0"]

  /**
   * The load as written accepts these lines. After replaying the first vote
   * both items are placed, so replaying the second reads the item at index
   * 2 of a list of two.
   */
  lemma RankedReplayOverrun()
    ensures ParseRoundTextAsWritten(OverrunLines).Some?
    ensures var t := ParseRoundTextAsWritten(OverrunLines).value;
      t.format == Ranked && |t.items| == 2 && |t.votes| == 2 &&
      WindowAfter(Winners(t.votes)[..1]).sorted == |t.items|
  {
    var lines := OverrunLines;
    OverrunItemCount();
    OverrunHeader();
    OverrunVotes();
    OverrunVoteChecks();
    var votes := [Vote(0, 1, A), Vote(1, 1, A)];
    assert ParseRoundTextAsWritten(lines) == Some(RoundText(["a", "b"], 1, Ranked, votes));
    assert Winners(votes)[..1] == [A];
    assert WindowAfter([A]) == WindowStep(InitialWindow, A) by {
      assert [A][..0] == [];
    }
  }

  lemma OverrunHeader()
    ensures OverrunLines[..2] == ["a", "b"] && |Elements(OverrunLines[..2])| == 2
    ensures ParseNumber(OverrunLines[3]) == Some(1)
    ensures StringToVotingFormat(OverrunLines[4]) == Ranked
  {
    var items := OverrunLines[..2];
    assert items == ["a", "b"];
    DistinctIffCardinality(items);
  }

  lemma OverrunVoteChecks()
    ensures var votes := [Vote(0, 1, A), Vote(1, 1, A)];
      NoEmptyVote(votes) && IndicesInRange(votes, 2) && !HasDuplicateMatchups(votes)
  {
    var votes := [Vote(0, 1, A), Vote(1, 1, A)];
    assert MatchupKeys(votes) == [Pair(0, 1), Pair(1, 1)];
    assert Elements(MatchupKeys(votes)) == {Pair(0, 1), Pair(1, 1)};
  }

  lemma OverrunItemCount()
    ensures ItemCount(OverrunLines) == 2
  {
    var lines := OverrunLines;
    assert lines[1..] == ["b", "", "1", "ranked", "0 1 0", "1 1 0"];
    assert lines[1..][1..] == ["", "1", "ranked", "0 1 0", "1 1 0"];
  }

  lemma OverrunVotes()
    ensures ParseVotes(OverrunLines[5..]) == [Vote(0, 1, A), Vote(1, 1, A)]
  {
    var votes := [Vote(0, 1, A), Vote(1, 1, A)];
    assert OverrunLines[5..] == VoteLines(votes) by {
      assert VoteLine(votes[0]) == "0 1 0";
      assert VoteLine(votes[1]) == "1 1 0";
    }
    ParseVoteLines(votes);
  }

  /** The corrected load refuses those lines. */
  lemma RankedReplayOverrunRejected()
    ensures ParseRoundText(OverrunLines).None?
  {
    RankedReplayOverrun();
    var t := ParseRoundTextAsWritten(OverrunLines).value;
    var ws := Winners(t.votes);
    HistoryAt(ws, 1);
    WindowAfterValid(ws[..1]);
    WindowAfterPrefix(ws, 0);
    assert ws[..0] == [];
  }

  /**
   * With the correction, replaying the votes of a loaded ranked round only
   * ever reads items that exist: before each vote, some item is still
   * unplaced.
   */
  lemma RankedReplayInBounds(lines: seq<string>, i: nat)
    requires ParseRoundText(lines).Some? && ParseRoundText(lines).value.format == Ranked
    requires i < |ParseRoundText(lines).value.votes|
    ensures var t := ParseRoundText(lines).value;
      WindowAfter(Winners(t.votes)[..i]).sorted < |t.items|
  {
    var t := ParseRoundText(lines).value;
    HistoryAt(Winners(t.votes), i);
  }
}
