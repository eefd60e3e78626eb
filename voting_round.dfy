/**
 * `VotingRound` (src/voting_round.cpp): a round over a list of items that
 * is either score based (a fixed schedule of pairs, one vote each) or rank
 * based (the user-driven insertion sort of module Ranking), together with
 * loading it from and writing it to the voting-file text of module
 * RoundTexts.
 */
module VotingRounds {
  import opened Types
  import opened Helpers
  import opened VotingFormats
  import opened Scheduling
  import opened Ranking
  import opened RoundTexts

  /** `VotingRound::ScoreBased`: the scheduled pairs, in voting order. */
  datatype ScoreBased = ScoreBased(indexPairs: seq<IndexPair>)

  /** The two items of the current vote. */
  datatype Matchup = Matchup(itemA: Item, itemB: Item)

  /**
   * The seeded shuffle. The program uses `std::shuffle` with a
   * `std::default_random_engine`, whose output is implementation-defined;
   * this stand-in rotates the list by the seed. The model only relies on
   * it being a permutation that depends on nothing but the seed and the
   * list.
   */
  function Shuffled<T>(seed: nat, s: seq<T>): (r: seq<T>)
    ensures |r| == |s|
    ensures multiset(r) == multiset(s)
  {
    if |s| == 0 then s
    else
      var k := seed % |s|;
      assert s == s[..k] + s[k..];
      s[k..] + s[..k]
  }

  /**
   * `ScoreBased::create`: only the score formats have a schedule, every
   * pair for Full and the reduced list for Reduced.
   */
  method CreateScoreBased(n: nat, format: VotingFormat) returns (s: Option<ScoreBased>)
    ensures s.Some? <==> IsScoreFormat(format)
    ensures s.Some? ==> s.value.indexPairs == Schedule(n, format == Reduced)
  {
    if !IsScoreFormat(format) {
      return None;
    }
    var pairs := GenerateIndexPairs(n);
    if format == Reduced {
      pairs := ReduceVotes(pairs, n);
    }
    return Some(ScoreBased(pairs));
  }

  // ---------------------------------------------------------------------
  // Reading a voting file, line by line
  // ---------------------------------------------------------------------

  /** The item loop of `create(lines)`: every line up to the first empty one. */
  method ReadItems(lines: seq<string>) returns (items: seq<Item>)
    ensures items == lines[..ItemCount(lines)]
  {
    items := [];
    var i := 0;
    while i < |lines| && lines[i] != ""
      invariant i <= |lines| && items == lines[..i]
      invariant forall j :: 0 <= j < i ==> lines[j] != ""
    {
      items := items + [lines[i]];
      i := i + 1;
    }
    assert i == ItemCount(lines);
  }

  /** The vote loop of `create(lines)`: any line read as indices (0, 0) fails. */
  method ReadVotes(lines: seq<string>) returns (votes: Option<seq<Vote>>)
    ensures votes.Some? <==> NoEmptyVote(ParseVotes(lines))
    ensures votes.Some? ==> votes.value == ParseVotes(lines)
  {
    var parsed: seq<Vote> := [];
    for i := 0 to |lines|
      invariant parsed == ParseVotes(lines)[..i]
      invariant NoEmptyVote(parsed)
    {
      var v := ParseVote(lines[i]);
      if v.a == 0 && v.b == 0 {
        assert ParseVotes(lines)[i] == v;
        return None;
      }
      parsed := parsed + [v];
    }
    assert ParseVotes(lines)[..|lines|] == ParseVotes(lines);
    return Some(parsed);
  }

  // ---------------------------------------------------------------------
  // The text shown for a vote
  // ---------------------------------------------------------------------

  /** `findMaxLength`: the length of a longest item, 0 for no items. */
  function FindMaxLength(items: seq<Item>): (m: nat)
    ensures forall i :: 0 <= i < |items| ==> |items[i]| <= m
    ensures |items| == 0 ==> m == 0
    ensures |items| > 0 ==> exists i :: 0 <= i < |items| && |items[i]| == m
  {
    if |items| == 0 then 0
    else
      var rest := FindMaxLength(items[..|items| - 1]);
      var last := |items[|items| - 1]|;
      if rest < last then last else rest
  }

  /** `field` ends with `text` and is spaces before it. */
  predicate RightAligned(field: string, text: string)
  {
    |text| <= |field| && field[|field| - |text|..] == text && AllSpace(field[..|field| - |text|])
  }

  lemma PaddingRightAligns(k: nat, text: string)
    ensures RightAligned(Repeat(' ', k) + text, text)
  {
    var f := Repeat(' ', k) + text;
    assert f[|f| - |text|..] == text;
    assert f[..|f| - |text|] == Repeat(' ', k);
  }

  /**
   * "(c/t)" with both texts right-aligned in the width of the wider one,
   * the shape both `counterString` overloads build.
   */
  function PaddedPair(c: string, t: string): string
  {
    var m := Max(|t|, |c|);
    "(" + (Repeat(' ', m - |c|) + c) + "/" + (Repeat(' ', m - |t|) + t) + ")"
  }

  /** Where the two texts and the delimiters of "(c/t)" sit. */
  lemma PaddedPairLayout(c: string, t: string)
    ensures var m, s := Max(|t|, |c|), PaddedPair(c, t);
      |s| == 2 * m + 3 && s[0] == '(' && s[m + 1] == '/' && s[2 * m + 2] == ')'
    ensures var m, s := Max(|t|, |c|), PaddedPair(c, t);
      RightAligned(s[1..m + 1], c) && RightAligned(s[m + 2..2 * m + 2], t)
  {
    var m := Max(|t|, |c|);
    var f1, f2 := Repeat(' ', m - |c|) + c, Repeat(' ', m - |t|) + t;
    var s := PaddedPair(c, t);
    assert s == "(" + f1 + "/" + f2 + ")";
    assert s[1..m + 1] == f1;
    assert s[m + 2..2 * m + 2] == f2;
    PaddingRightAligns(m - |c|, c);
    PaddingRightAligns(m - |t|, t);
  }

  /**
   * `counterString(counter, total_str)`. The counter's width,
   * `numberOfDigits(counter)`, is the length of its decimal text
   * (NatToString's contract).
   */
  function CounterStringText(counter: nat, total: string): string
  {
    PaddedPair(NatToString(counter), total)
  }

  /** `counterString(counter, total)`: both numbers printed, then padded alike. */
  function CounterString(counter: nat, total: nat): string
  {
    PaddedPair(NatToString(counter), NatToString(total))
  }

  /**
   * The prompt after the counter: both options quoted and padded to the
   * longest item, so that option B and the question always start in the
   * same column.
   */
  function ChoiceLine(counter: string, a: Item, b: Item, width: nat): (line: string)
    requires |a| <= width && |b| <= width
    ensures |line| == |counter| + 2 * width + 37
    ensures line[..|counter|] == counter
    ensures line[|counter| + 14..|counter| + 14 + |a|] == a
    ensures line[|counter| + width + 21..|counter| + width + 21 + |b|] == b
  {
    counter + " H: help. A: '" + a + "'." + Repeat(' ', width - |a|) + " B: '" + b + "'." + Repeat(' ', width - |b|) + " Your choice: "
  }

  // ---------------------------------------------------------------------
  // The round
  // ---------------------------------------------------------------------

  class VotingRound {
    var originalItemOrder: seq<Item>
    var items: array<Item>
    var seed: nat
    var format: VotingFormat
    var votes: seq<Vote>
    var isSaved: bool
    var scoreBased: Option<ScoreBased>
    var rankBased: RankBased?

    /**
     * The state every round reachable through the public operations is
     * in: the items are a permutation of at least two non-empty originals;
     * a score round has a permutation of its schedule and no more votes
     * than pairs; a ranked round's window is the one its recorded answers
     * lead to, and those answers are the matchups it presented.
     */
    predicate Valid()
      reads this, items, rankBased
    {
      items.Length == |originalItemOrder| >= 2 &&
      (forall i :: 0 <= i < |originalItemOrder| ==> originalItemOrder[i] != "") &&
      multiset(items[..]) == multiset(originalItemOrder) &&
      format != Invalid &&
      (IsScoreFormat(format) ==>
        scoreBased.Some? && rankBased == null &&
        multiset(scoreBased.value.indexPairs) == multiset(Schedule(items.Length, format == Reduced)) &&
        |votes| <= |scoreBased.value.indexPairs|) &&
      (format == Ranked ==>
        scoreBased.None? && rankBased != null && rankBased.Valid() &&
        rankBased.CurrentWindow() == WindowAfter(Winners(votes)) &&
        votes == History(Winners(votes)) &&
        Placing(rankBased.CurrentWindow(), items.Length))
    }

    /** What a voting file records about the round. */
    function Text(): RoundText
      reads this
    {
      RoundText(originalItemOrder, seed, format, votes)
    }

    /** Items in their original order and the schedule as generated. */
    predicate Unshuffled()
      reads this, items
    {
      items[..] == originalItemOrder &&
      (IsScoreFormat(format) ==> scoreBased == Some(ScoreBased(Schedule(items.Length, format == Reduced))))
    }

    /**
     * The items and schedule are what the recorded text determines:
     * the originals shuffled by the seed, then moved by the ranked
     * answers; the schedule shuffled by the seed.
     */
    predicate Reproducible()
      reads this, items
    {
      (format == Ranked ==> items[..] == ItemsAfter(Shuffled(seed, originalItemOrder), Winners(votes))) &&
      (IsScoreFormat(format) ==>
        items[..] == Shuffled(seed, originalItemOrder) &&
        scoreBased == Some(ScoreBased(Shuffled(seed, Schedule(|originalItemOrder|, format == Reduced)))))
    }

    /**
     * A score round's votes are the first pairs of its schedule, as `vote`
     * records them; a file edited by hand need not be.
     */
    predicate FollowsSchedule()
      reads this
    {
      IsScoreFormat(format) && scoreBased.Some? ==> VotesFollow(votes, scoreBased.value.indexPairs)
    }

    /** The fields a default-constructed round gets from `create`. */
    constructor (original: seq<Item>, seed: nat, format: VotingFormat)
      ensures originalItemOrder == original && items[..] == original && fresh(items)
      ensures this.seed == seed && this.format == format && votes == [] && !isSaved
      ensures scoreBased.None? && rankBased == null
    {
      originalItemOrder := original;
      items := new Item[|original|](i requires 0 <= i < |original| => original[i]);
      this.seed := seed;
      this.format := format;
      votes := [];
      isSaved := false;
      scoreBased := None;
      rankBased := null;
    }

    /** `createFormatImpl`: the schedule or the ranking state the format needs. */
    method CreateFormat() returns (ok: bool)
      modifies this
      ensures ok <==> format != Invalid
      ensures IsScoreFormat(format) ==>
        scoreBased == Some(ScoreBased(Schedule(items.Length, format == Reduced))) && rankBased == old(rankBased)
      ensures format == Ranked ==>
        fresh(rankBased) && rankBased.CurrentWindow() == InitialWindow && scoreBased == old(scoreBased)
      ensures format == Invalid ==> scoreBased == old(scoreBased) && rankBased == old(rankBased)
      ensures items == old(items) && originalItemOrder == old(originalItemOrder) && seed == old(seed)
      ensures format == old(format) && votes == old(votes) && isSaved == old(isSaved)
    {
      if IsScoreFormat(format) {
        scoreBased := CreateScoreBased(items.Length, format);
        return true;
      } else if format == Ranked {
        rankBased := new RankBased();
        return true;
      }
      return false;
    }

    /**
     * `create(items, format, seed)`: fails with fewer than two items, an
     * empty item or the Invalid format. A zero seed is replaced by one
     * from the clock, here the parameter `clockSeed`.
     */
    static method Create(items: seq<Item>, format: VotingFormat, seed: nat, clockSeed: nat) returns (r: VotingRound?)
      ensures r == null <==> |items| < 2 || (exists i :: 0 <= i < |items| && items[i] == "") || format == Invalid
      ensures r != null ==> fresh(r) && fresh(r.items) && r.Valid() && r.Unshuffled() && !r.isSaved && r.votes == []
      ensures r != null ==> r.Text() == RoundText(items, if seed == 0 then clockSeed else seed, format, [])
      ensures r != null && r.rankBased != null ==> fresh(r.rankBased)
    {
      if |items| < 2 {
        return null;
      }
      for i := 0 to |items|
        invariant forall j :: 0 <= j < i ==> items[j] != ""
      {
        if items[i] == "" {
          return null;
        }
      }
      r := new VotingRound(items, if seed == 0 then clockSeed else seed, format);
      var ok := r.CreateFormat();
      if !ok {
        return null;
      }
    }

    /**
     * `shuffle`: the items, and for a score round the schedule, are
     * shuffled by the seed. Fails for a score round without a schedule.
     */
    method Shuffle() returns (ok: bool)
      modifies this, items
      ensures ok <==> (IsScoreFormat(format) && old(scoreBased).Some?) || format == Ranked
      ensures items[..] == Shuffled(seed, old(items[..]))
      ensures IsScoreFormat(format) && old(scoreBased).Some? ==>
        scoreBased == Some(ScoreBased(Shuffled(seed, old(scoreBased).value.indexPairs)))
      ensures !(IsScoreFormat(format) && old(scoreBased).Some?) ==> scoreBased == old(scoreBased)
      ensures items == old(items) && rankBased == old(rankBased) && originalItemOrder == old(originalItemOrder)
      ensures seed == old(seed) && format == old(format) && votes == old(votes) && isSaved == old(isSaved)
      ensures old(Valid()) ==> Valid()
      ensures old(Unshuffled()) ==>
        items[..] == Shuffled(seed, originalItemOrder) &&
        (IsScoreFormat(format) ==> scoreBased == Some(ScoreBased(Shuffled(seed, Schedule(|originalItemOrder|, format == Reduced)))))
      ensures old(Unshuffled()) && votes == [] ==> Reproducible()
    {
      var shuffled := Shuffled(seed, items[..]);
      for i := 0 to items.Length
        modifies items
        invariant forall j :: 0 <= j < i ==> items[j] == shuffled[j]
      {
        items[i] := shuffled[i];
      }
      assert items[..] == shuffled;
      if IsScoreFormat(format) {
        if scoreBased.None? {
          return false;
        }
        scoreBased := Some(ScoreBased(Shuffled(seed, scoreBased.value.indexPairs)));
        return true;
      }
      return format == Ranked;
    }

    /** `hasRemainingVotesImpl`. */
    function HasRemainingVotes(): bool
      reads this, rankBased
    {
      if IsScoreFormat(format) then scoreBased.Some? && |votes| < |scoreBased.value.indexPairs|
      else if format == Ranked then rankBased != null && rankBased.sortedCount < items.Length
      else false
    }

    /**
     * A score round has votes left while fewer votes than scheduled pairs
     * are recorded; a ranked round while its answers have not placed
     * every item.
     */
    lemma RemainingVotesMeaning()
      requires Valid()
      ensures IsScoreFormat(format) ==>
        (HasRemainingVotes() <==> |votes| < |Schedule(items.Length, format == Reduced)|)
      ensures format == Ranked ==>
        (HasRemainingVotes() <==> WindowAfter(Winners(votes)).sorted < items.Length)
    {
      if IsScoreFormat(format) {
        var pairs := scoreBased.value.indexPairs;
        assert |multiset(pairs)| == |pairs|;
        assert |multiset(Schedule(items.Length, format == Reduced))| == |Schedule(items.Length, format == Reduced)|;
      }
    }

    /**
     * `numberOfScheduledVotesImpl`: the schedule's length for a score
     * round, n(n-1)/2 less n times the pruning amount when reduced, and
     * 0 for a ranked round.
     */
    function NumberOfScheduledVotes(): (k: nat)
      reads this, items, rankBased
      requires Valid()
      ensures format == Ranked ==> k == 0
      ensures IsScoreFormat(format) ==> k == |Schedule(items.Length, format == Reduced)|
      ensures (format == Full || (format == Reduced && items.Length < MinimumItemsForPruning)) ==>
        2 * k == items.Length * (items.Length - 1)
      ensures format == Reduced && items.Length >= MinimumItemsForPruning ==>
        2 * k == items.Length * (items.Length - 1) - 2 * (items.Length * PruningAmount(items.Length))
    {
      if IsScoreFormat(format) then
        var pairs := scoreBased.value.indexPairs;
        var n := items.Length;
        assert |multiset(pairs)| == |pairs|;
        assert |multiset(Schedule(n, format == Reduced))| == |Schedule(n, format == Reduced)|;
        AllPairsCount(n);
        if format == Reduced && n >= MinimumItemsForPruning then
          ReducedScheduleCount(n);
          |pairs|
        else |pairs|
      else 0
    }

    /**
     * `currentIndexPairImpl`: the next scheduled pair, or the ranked
     * window's middle against the item being placed; either way two
     * different positions, the smaller first.
     */
    function CurrentIndexPair(): (p: IndexPair)
      reads this, items, rankBased
      requires Valid() && HasRemainingVotes()
      ensures IsMatchup(p, items.Length)
      ensures IsScoreFormat(format) ==> p in Schedule(items.Length, format == Reduced)
      ensures format == Ranked ==>
        p == Pair(Mid(WindowAfter(Winners(votes))), WindowAfter(Winners(votes)).sorted)
    {
      if IsScoreFormat(format) then
        var p := scoreBased.value.indexPairs[|votes|];
        assert p in multiset(scoreBased.value.indexPairs);
        ScheduleDistinct(items.Length, format == Reduced);
        p
      else
        rankBased.CurrentIndexPair()
    }

    /**
     * `currentMatchup`: the items at the current pair, exactly while
     * votes remain. (The program's extra check against the pair (0, 0)
     * never fires, as the current pair's first index is below its second.)
     */
    function CurrentMatchup(): (m: Option<Matchup>)
      reads this, items, rankBased
      requires Valid()
      ensures m.Some? <==> HasRemainingVotes()
      ensures m.Some? ==>
        var p := CurrentIndexPair();
        p.first < p.second < items.Length && m.value == Matchup(items[p.first], items[p.second])
    {
      if !HasRemainingVotes() then None
      else
        var p := CurrentIndexPair();
        Some(Matchup(items[p.first], items[p.second]))
    }

    /**
     * `counterStringImpl`: "(k/total)" for a score round; for a ranked
     * round the total is "~" and an estimate the program computes in
     * floating point, given here as `rankedEstimate`.
     */
    function CounterText(rankedEstimate: nat): string
      reads this, items, rankBased
      requires Valid()
    {
      if format == Ranked then CounterStringText(|votes| + 1, "~" + NatToString(rankedEstimate))
      else CounterString(|votes| + 1, NumberOfScheduledVotes())
    }

    /**
     * `currentVotingLine`: absent when no votes remain, otherwise the
     * counter and the current matchup padded to the longest item.
     */
    function CurrentVotingLine(rankedEstimate: nat): (line: Option<string>)
      reads this, items, rankBased
      requires Valid()
      ensures line.Some? <==> HasRemainingVotes()
      ensures line.Some? ==>
        var m := CurrentMatchup().value;
        |m.itemA| <= FindMaxLength(items[..]) && |m.itemB| <= FindMaxLength(items[..]) &&
        line.value == ChoiceLine(CounterText(rankedEstimate), m.itemA, m.itemB, FindMaxLength(items[..]))
    {
      match CurrentMatchup()
      case None => None
      case Some(m) =>
        var p := CurrentIndexPair();
        var width := FindMaxLength(items[..]);
        assert items[..][p.first] == m.itemA && items[..][p.second] == m.itemB;
        Some(ChoiceLine(CounterText(rankedEstimate), m.itemA, m.itemB, width))
    }

    /**
     * `vote`: with no votes remaining nothing changes. Otherwise the
     * current pair is recorded with the answer, the round is unsaved, and
     * a ranked round takes the insertion-sort step.
     */
    method Vote(option: VoteOption) returns (ok: bool)
      requires Valid()
      modifies this, items, rankBased
      ensures items == old(items) && rankBased == old(rankBased) && scoreBased == old(scoreBased)
      ensures originalItemOrder == old(originalItemOrder) && seed == old(seed) && format == old(format)
      ensures Valid()
      ensures ok == old(HasRemainingVotes())
      ensures !ok ==> votes == old(votes) && isSaved == old(isSaved) && items[..] == old(items[..])
      ensures ok ==>
        votes == old(votes) + [Types.Vote(old(CurrentIndexPair()).first, old(CurrentIndexPair()).second, option)] &&
        !isSaved
      ensures ok && format == Ranked ==>
        rankBased.CurrentWindow() == WindowStep(old(rankBased.CurrentWindow()), option) &&
        ValidWindow(old(rankBased.CurrentWindow())) && old(rankBased.sortedCount) < items.Length
      ensures ok && format == Ranked ==>
        items[..] == ItemsStep(old(items[..]), old(rankBased.CurrentWindow()), option)
      ensures IsScoreFormat(format) ==> items[..] == old(items[..])
      ensures old(Reproducible()) ==> Reproducible()
    {
      if !HasRemainingVotes() {
        return false;
      }
      var pair := CurrentIndexPair();
      ghost var ws := Winners(votes);
      ghost var before := items[..];
      var v := Types.Vote(pair.first, pair.second, option);
      votes := votes + [v];
      if format == Ranked {
        rankBased.Vote(items, option);
        ghost var w := WindowAfter(ws);
        WinnersAppend(votes[..|votes| - 1], v);
        assert votes[..|votes| - 1] == old(votes);
        HistoryAppend(ws, option);
        WindowAfterAppend(ws, option);
        StepKeepsPlacing(w, option, items.Length);
        UndoAfterStep(before, w, option);
        ItemsAfterAppend(Shuffled(seed, originalItemOrder), ws, option);
      }
      isSaved := false;
      return true;
    }

    /**
     * `undoVote`: with no votes nothing changes. Otherwise the last vote
     * is removed, the round is unsaved, and a ranked round is put back to
     * its window and item order before that vote.
     */
    method UndoVote() returns (ok: bool)
      requires Valid()
      modifies this, items, rankBased
      ensures items == old(items) && rankBased == old(rankBased) && scoreBased == old(scoreBased)
      ensures originalItemOrder == old(originalItemOrder) && seed == old(seed) && format == old(format)
      ensures Valid()
      ensures ok <==> |old(votes)| > 0
      ensures !ok ==> votes == old(votes) && isSaved == old(isSaved) && items[..] == old(items[..])
      ensures ok ==> votes == old(votes)[..|old(votes)| - 1] && !isSaved
      ensures ok && format == Ranked ==>
        ValidWindow(rankBased.CurrentWindow()) && rankBased.sortedCount < items.Length &&
        items[..] == ItemsUndo(old(items[..]), rankBased.CurrentWindow(), old(votes)[|old(votes)| - 1].winner)
      ensures IsScoreFormat(format) ==> items[..] == old(items[..])
      ensures old(Reproducible()) ==> Reproducible()
    {
      if |votes| == 0 {
        return false;
      }
      var m := |votes|;
      if format == Ranked {
        UndoRankedAnswer();
      }
      votes := votes[..m - 1];
      isSaved := false;
      return true;
    }

    /** The ranked part of `undoVote`: the ranking state and the items go back over the last answer. */
    method UndoRankedAnswer()
      requires Valid() && format == Ranked && |votes| > 0
      modifies items, rankBased
      ensures rankBased.Valid() && rankBased.sortedCount < items.Length
      ensures var shorter := votes[..|votes| - 1];
        rankBased.CurrentWindow() == WindowAfter(Winners(shorter)) && shorter == History(Winners(shorter))
      ensures items[..] == ItemsUndo(old(items[..]), rankBased.CurrentWindow(), votes[|votes| - 1].winner)
      ensures multiset(items[..]) == multiset(originalItemOrder)
      ensures old(Reproducible()) ==>
        items[..] == ItemsAfter(Shuffled(seed, originalItemOrder), Winners(votes[..|votes| - 1]))
    {
      var m := |votes|;
      ghost var ws := Winners(votes);
      ghost var before := items[..];
      var undone := rankBased.UndoVote(items, votes, ws);
      assert undone;
      UndoPermutes(before, rankBased.CurrentWindow(), ws[m - 1]);
      UndoLastAnswer(Shuffled(seed, originalItemOrder), votes);
    }

    /** `convertToText`: no lines without items, otherwise the voting file. */
    method ConvertToText() returns (lines: seq<string>)
      ensures |originalItemOrder| == 0 || items.Length == 0 ==> lines == []
      ensures |originalItemOrder| > 0 && items.Length > 0 ==> lines == RoundToLines(Text())
    {
      lines := [];
      if |originalItemOrder| == 0 || items.Length == 0 {
        return;
      }
      for i := 0 to |originalItemOrder|
        invariant lines == originalItemOrder[..i]
      {
        lines := lines + [originalItemOrder[i]];
      }
      lines := lines + [""];
      lines := lines + [NatToString(seed)];
      lines := lines + [VotingFormatToString(format)];
      ghost var header := lines;
      assert header == originalItemOrder + [""] + [NatToString(seed), VotingFormatToString(format)];
      for j := 0 to |votes|
        invariant lines == header + VoteLines(votes[..j])
      {
        assert VoteLines(votes[..j + 1]) == VoteLines(votes[..j]) + [VoteLine(votes[j])];
        lines := lines + [VoteLine(votes[j])];
      }
      assert votes[..|votes|] == votes;
    }

    /**
     * Re-applies the recorded ranked votes to a fresh ranking state. Each
     * vote must be the matchup the state presents; the program as written
     * does not check this (see RoundTexts.RankedReplayOverrun).
     */
    method ReplayRanked() returns (ok: bool)
      requires format == Ranked && rankBased != null && rankBased.CurrentWindow() == InitialWindow
      requires IndicesInRange(votes, items.Length) && items.Length >= 1
      modifies items, rankBased
      ensures ok <==> RankedConsistent(votes)
      ensures ok ==>
        rankBased.Valid() && rankBased.CurrentWindow() == WindowAfter(Winners(votes)) &&
        Placing(rankBased.CurrentWindow(), items.Length) &&
        items[..] == ItemsAfter(old(items[..]), Winners(votes))
    {
      ghost var ws := Winners(votes);
      ghost var start := items[..];
      var i := 0;
      while i < |votes|
        invariant 0 <= i <= |votes|
        invariant rankBased.CurrentWindow() == WindowAfter(ws[..i])
        invariant votes[..i] == History(ws[..i])
        invariant items[..] == ItemsAfter(start, ws[..i])
        invariant Placing(rankBased.CurrentWindow(), items.Length)
      {
        WindowAfterValid(ws[..i]);
        var p := rankBased.CurrentIndexPair();
        if votes[i].a != p.first || votes[i].b != p.second {
          if RankedConsistent(votes) {
            ConsistentVoteAt(votes, i);
          }
          return false;
        }
        assert votes[i] == VoteAt(WindowAfter(ws[..i]), ws[i]);
        assert WindowAfter(ws[..i]).sorted < items.Length;
        ReplayStep(start, votes, ws, i);
        rankBased.Vote(items, votes[i].winner);
        i := i + 1;
      }
      assert ws[..|votes|] == ws && votes[..|votes|] == votes;
      WindowAfterValid(ws);
      return true;
    }

    /**
     * `create(lines)`, with ranked votes also required to be the matchups
     * presented as they are replayed: a round exactly when the lines are
     * a voting file, holding what the file records, its items and
     * schedule shuffled by the seed and its ranked votes replayed.
     */
    static method CreateFromLines(lines: seq<string>) returns (r: VotingRound?)
      ensures r == null <==> ParseRoundText(lines).None?
      ensures r != null ==>
        fresh(r) && fresh(r.items) && r.Valid() && r.Reproducible() && r.isSaved &&
        r.Text() == ParseRoundText(lines).value
      ensures r != null && r.rankBased != null ==> fresh(r.rankBased)
    {
      var text := ReadRoundText(lines);
      if text.None? {
        return null;
      }
      CheckedText(lines);
      ParseRoundTextOf(lines);
      r := Load(text.value);
    }

    /**
     * The rest of `create(lines)` once the text passed its checks: the
     * round is built, shuffled by the seed and, if ranked, its votes are
     * replayed.
     */
    static method Load(t: RoundText) returns (r: VotingRound?)
      requires Checked(t)
      ensures r == null <==> t.format == Ranked && !RankedConsistent(t.votes)
      ensures r != null ==>
        fresh(r) && fresh(r.items) && r.Valid() && r.Reproducible() && r.isSaved && r.Text() == t
      ensures r != null && r.rankBased != null ==> fresh(r.rankBased)
    {
      r := new VotingRound(t.items, t.seed, t.format);
      r.votes := t.votes;
      var created := r.CreateFormat();
      var shuffled := r.Shuffle();
      r.isSaved := true;
      assert r.Text() == RoundText(t.items, t.seed, t.format, t.votes);
      assert r.items[..] == Shuffled(t.seed, t.items);
      if t.format == Ranked {
        var replayed := r.ReplayRanked();
        if !replayed {
          return null;
        }
      }
    }
  }

  /**
   * The checks of `create(lines)` in its order, each failing the whole
   * load: items, seed, format, then the vote lines and the votes.
   */
  method ReadRoundText(lines: seq<string>) returns (t: Option<RoundText>)
    ensures t == ParseRoundTextAsWritten(lines)
  {
    var items := ReadItems(lines);
    var k := |items|;
    if k < 2 || |Elements(items)| != k {
      return None;
    }
    if k + 1 >= |lines| {
      return None;
    }
    var seed := ParseNumber(lines[k + 1]);
    if seed.None? {
      return None;
    }
    if k + 2 >= |lines| {
      return None;
    }
    var format := StringToVotingFormat(lines[k + 2]);
    if format == Invalid {
      return None;
    }
    var votes := ReadVotes(lines[k + 3..]);
    if votes.None? {
      return None;
    }
    if !IndicesInRange(votes.value, k) || HasDuplicateMatchups(votes.value) {
      return None;
    }
    var schedule := CreateScoreBased(k, format);
    if schedule.Some? && |votes.value| > |schedule.value.indexPairs| {
      return None;
    }
    return Some(RoundText(items, seed.value, format, votes.value));
  }

  // ---------------------------------------------------------------------
  // Using a round
  // ---------------------------------------------------------------------

  /** A round that loads from its own voting file's text. */
  lemma FreshRoundAcceptable(items: seq<Item>, seed: nat, format: VotingFormat)
    requires |items| >= 2 && (forall i :: 0 <= i < |items| ==> items[i] != "") && Distinct(items)
    requires format != Invalid
    ensures Acceptable(RoundText(items, seed, format, []))
  {
    assert Elements(MatchupKeys([])) == {};
  }

  /** One answer by the key: the binary-search invariant holds and the search moves on. */
  method AnswerByKey(r: VotingRound, key: Item -> int)
    requires r.Valid() && r.format == Ranked && r.HasRemainingVotes()
    requires RankInvariant(r.items[..], r.rankBased.CurrentWindow(), key) && KeysDistinct(r.items[..], key)
    modifies r, r.items, r.rankBased
    ensures r.Valid() && r.format == Ranked && r.items == old(r.items) && r.rankBased == old(r.rankBased)
    ensures RankInvariant(r.items[..], r.rankBased.CurrentWindow(), key) && KeysDistinct(r.items[..], key)
    ensures multiset(r.items[..]) == multiset(old(r.items[..]))
    ensures old(r.rankBased.sortedCount) < r.rankBased.sortedCount ||
      (old(r.rankBased.sortedCount) == r.rankBased.sortedCount &&
       r.rankBased.endIndex - r.rankBased.startIndex < old(r.rankBased.endIndex - r.rankBased.startIndex))
  {
    var w := r.rankBased.CurrentWindow();
    ghost var before := r.items[..];
    assert ValidWindow(w) && w.sorted < |before|;
    var answer := ConsistentAnswer(r.items[..], w, key);
    ConsistentStepKeepsOrder(before, w, key);
    var ok := r.Vote(answer);
    assert r.rankBased.CurrentWindow() == WindowStep(w, answer);
    assert r.items[..] == ItemsStep(before, w, answer);
  }

  /**
   * Answering a ranked round consistently with a strict order on the
   * items, until it has no votes left, sorts the items by that order.
   */
  method RankByAnswers(r: VotingRound, key: Item -> int)
    requires r.Valid() && r.format == Ranked && r.votes == [] && KeysDistinct(r.items[..], key)
    modifies r, r.items, r.rankBased
    ensures r.Valid() && !r.HasRemainingVotes()
    ensures forall i, j :: 0 <= i < j < r.items.Length ==> key(r.items[i]) < key(r.items[j])
    ensures multiset(r.items[..]) == multiset(old(r.items[..]))
  {
    InitialRankInvariant(r.items[..], key);
    while r.HasRemainingVotes()
      invariant r.Valid() && r.format == Ranked
      invariant r.items == old(r.items) && r.rankBased == old(r.rankBased)
      invariant RankInvariant(r.items[..], r.rankBased.CurrentWindow(), key)
      invariant KeysDistinct(r.items[..], key)
      invariant multiset(r.items[..]) == multiset(old(r.items[..]))
      decreases r.items.Length - r.rankBased.sortedCount, r.rankBased.endIndex - r.rankBased.startIndex
    {
      AnswerByKey(r, key);
    }
    FinishedRankIsSorted(r.items[..], r.rankBased.CurrentWindow(), key);
  }

  /** Voting and then undoing puts the votes, the items and the window back. */
  method VoteThenUndo(r: VotingRound, option: VoteOption)
    requires r.Valid() && r.HasRemainingVotes()
    modifies r, r.items, r.rankBased
    ensures r.items == old(r.items) && r.rankBased == old(r.rankBased)
    ensures r.Valid() && !r.isSaved
    ensures r.votes == old(r.votes) && r.items[..] == old(r.items[..])
    ensures r.rankBased != null ==> r.rankBased.CurrentWindow() == old(r.rankBased.CurrentWindow())
  {
    ghost var before := r.items[..];
    ghost var w := if r.rankBased != null then r.rankBased.CurrentWindow() else InitialWindow;
    var voted := r.Vote(option);
    var undone := r.UndoVote();
    if r.format == Ranked {
      UndoAfterStep(before, w, option);
    }
  }

  /**
   * Voting keeps a round's file loadable: its contents stay acceptable to
   * the loader, and a score round's votes stay the schedule's first pairs.
   */
  method VoteKeepsLoadable(r: VotingRound, option: VoteOption) returns (ok: bool)
    requires r.Valid() && Acceptable(r.Text()) && r.FollowsSchedule()
    modifies r, r.items, r.rankBased
    ensures r.Valid() && Acceptable(r.Text()) && r.FollowsSchedule()
    ensures ok == old(r.HasRemainingVotes())
    ensures ok ==> |r.votes| == |old(r.votes)| + 1
  {
    ghost var t := r.Text();
    ghost var pairs := if r.scoreBased.Some? then r.scoreBased.value.indexPairs else [];
    ghost var w := WindowAfter(Winners(r.votes));
    ghost var p := if r.HasRemainingVotes() then r.CurrentIndexPair() else Pair(0, 0);
    assert IsScoreFormat(r.format) && r.HasRemainingVotes() ==> p == pairs[|r.votes|];
    ok := r.Vote(option);
    if ok {
      assert r.Text() == t.(votes := t.votes + [Vote(p.first, p.second, option)]);
      if IsScoreFormat(r.format) {
        ScoreVoteKeepsAcceptable(t, pairs, option);
      } else {
        RankedVoteKeepsAcceptable(t, option);
      }
    }
  }

  /** Undoing a vote keeps a round's file loadable. */
  method UndoKeepsLoadable(r: VotingRound) returns (ok: bool)
    requires r.Valid() && Acceptable(r.Text()) && r.FollowsSchedule()
    modifies r, r.items, r.rankBased
    ensures r.Valid() && Acceptable(r.Text()) && r.FollowsSchedule()
    ensures ok <==> |old(r.votes)| > 0
  {
    ghost var t := r.Text();
    ok := r.UndoVote();
    if ok {
      UndoKeepsAcceptable(t);
    }
  }

  /**
   * Writing a round's voting file and loading it back gives a round with
   * the same text, item order and current matchup.
   */
  method SaveAndReload(r: VotingRound) returns (loaded: VotingRound?)
    requires r.Valid() && r.Reproducible() && Acceptable(r.Text())
    ensures loaded != null && fresh(loaded) && loaded.Valid() && loaded.isSaved
    ensures loaded.Text() == r.Text() && loaded.items[..] == r.items[..]
    ensures loaded.CurrentMatchup() == r.CurrentMatchup()
  {
    var lines := r.ConvertToText();
    RoundTextRoundTrip(r.Text());
    loaded := VotingRound.CreateFromLines(lines);
    SameTextSameMatchup(loaded, r);
  }

  /** Two reproducible rounds with the same text are in the same state. */
  lemma SameTextSameMatchup(a: VotingRound, b: VotingRound)
    requires a.Valid() && a.Reproducible() && b.Valid() && b.Reproducible()
    requires a.Text() == b.Text()
    ensures a.items[..] == b.items[..]
    ensures a.CurrentMatchup() == b.CurrentMatchup()
  {
    assert a.HasRemainingVotes() == b.HasRemainingVotes();
    if a.HasRemainingVotes() {
      assert a.CurrentIndexPair() == b.CurrentIndexPair();
    }
  }
}
