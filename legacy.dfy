/**
 * The older free-function variant of a voting round (src/functions.cpp):
 * a struct with public fields that free functions generate, prune,
 * shuffle, vote in, write to and read from the voting-file text, and a
 * verifier that checks the struct's consistency. It only knows the two
 * score formats; the schedule, the vote lines and the load checks are
 * those of modules Scheduling and RoundTexts.
 */
module Legacy {
  import opened Types
  import opened Helpers
  import opened VotingFormats
  import opened Scheduling
  import opened RoundTexts
  import opened VotingRounds

  // ---------------------------------------------------------------------
  // Verification
  // ---------------------------------------------------------------------

  /** `hasDuplicateItems`: fewer distinct items than items. */
  predicate HasDuplicateItems(items: seq<Item>)
  {
    |Elements(items)| != |items|
  }

  /** `hasInvalidScheduledVotes`: some pair leaves the items or pairs an item with itself. */
  predicate HasInvalidScheduledVotes(indexPairs: seq<IndexPair>, n: nat)
  {
    exists i :: 0 <= i < |indexPairs| &&
      (indexPairs[i].first >= n || indexPairs[i].second >= n || indexPairs[i].first == indexPairs[i].second)
  }

  /** Each scheduled pair as (smaller, larger). */
  function SortedPairs(indexPairs: seq<IndexPair>): (keys: seq<IndexPair>)
    ensures |keys| == |indexPairs|
  {
    seq(|indexPairs|, i requires 0 <= i < |indexPairs| => SortIndexPair(indexPairs[i]))
  }

  /** `hasDuplicateScheduledVotes`: fewer distinct unordered pairs than pairs. */
  predicate HasDuplicateScheduledVotes(indexPairs: seq<IndexPair>)
  {
    |Elements(SortedPairs(indexPairs))| != |indexPairs|
  }

  /**
   * `expectedIndexPairs`: none below two items, otherwise n(n-1)/2 less
   * n·pruningAmount(n) for a reduced round of at least six items. It is
   * the length of the schedule such a round starts with.
   */
  function ExpectedIndexPairs(n: nat, reducedVoting: bool): (r: nat)
    ensures n < 2 ==> r == 0
    ensures r == |Schedule(n, reducedVoting)|
  {
    AllPairsCount(n);
    if n < 2 then
      assert n * (n - 1) == 0;
      0
    else
      var full := SumOfFirstIntegers(n - 1);
      if reducedVoting && n >= MinimumItemsForPruning then
        ReducedScheduleCount(n);
        full - n * PruningAmount(n)
      else full
  }

  /** `hasVotesWithInvalidIndices`: some vote is not a < b < n. */
  predicate HasVotesWithInvalidIndices(votes: seq<Vote>, n: nat)
  {
    exists i :: 0 <= i < |votes| && (votes[i].a >= votes[i].b || votes[i].b >= n)
  }

  /** Each vote's pair of indices, in the order written. */
  function VotePairs(votes: seq<Vote>): (pairs: seq<IndexPair>)
    ensures |pairs| == |votes|
  {
    seq(|votes|, i requires 0 <= i < |votes| => Pair(votes[i].a, votes[i].b))
  }

  /** `hasDuplicateVotes`: fewer distinct (ordered) vote pairs than votes. */
  predicate HasDuplicateVotes(votes: seq<Vote>)
  {
    |Elements(VotePairs(votes))| != |votes|
  }

  /** What a consistent round is, stated directly on its fields. */
  predicate WellFormed(items: seq<Item>, indexPairs: seq<IndexPair>, seed: nat, reducedVoting: bool, votes: seq<Vote>)
  {
    var n := |items|;
    n >= 2 && Distinct(items) &&
    (forall i :: 0 <= i < |indexPairs| ==>
      indexPairs[i].first < n && indexPairs[i].second < n && indexPairs[i].first != indexPairs[i].second) &&
    Distinct(SortedPairs(indexPairs)) &&
    seed != 0 &&
    |indexPairs| == |Schedule(n, reducedVoting)| &&
    (forall i :: 0 <= i < |votes| ==> votes[i].a < votes[i].b < n) &&
    Distinct(VotePairs(votes)) &&
    |votes| <= |indexPairs|
  }

  /**
   * `verifyVotingRound`: the checks in the program's order, the first that
   * fails deciding. A round passes exactly when it is well formed.
   */
  function VerifyVotingRound(items: seq<Item>, indexPairs: seq<IndexPair>, seed: nat, reducedVoting: bool, votes: seq<Vote>): (ok: bool)
    ensures ok <==> WellFormed(items, indexPairs, seed, reducedVoting, votes)
  {
    DistinctIffCardinality(items);
    DistinctIffCardinality(SortedPairs(indexPairs));
    DistinctIffCardinality(VotePairs(votes));
    if |items| < 2 then false
    else if HasDuplicateItems(items) then false
    else if HasInvalidScheduledVotes(indexPairs, |items|) then false
    else if HasDuplicateScheduledVotes(indexPairs) then false
    else if seed == 0 then false
    else if |indexPairs| != ExpectedIndexPairs(|items|, reducedVoting) then false
    else if HasVotesWithInvalidIndices(votes, |items|) then false
    else if HasDuplicateVotes(votes) then false
    else if |votes| > |indexPairs| then false
    else true
  }

  /** A permutation of a list without repeats has no repeats. */
  lemma DistinctPermutation<T>(s: seq<T>, t: seq<T>)
    requires multiset(s) == multiset(t) && Distinct(s)
    ensures Distinct(t)
  {
    assert |s| == |multiset(s)| == |multiset(t)| == |t|;
    forall x
      ensures x in Elements(s) <==> x in Elements(t)
    {
      assert x in s <==> x in multiset(s);
      assert x in t <==> x in multiset(t);
    }
    assert Elements(s) == Elements(t);
    DistinctIffCardinality(s);
    DistinctIffCardinality(t);
  }

  /** Sorted pairs are their own keys. */
  lemma SortedPairsOfMatchups(indexPairs: seq<IndexPair>, n: nat)
    requires forall q :: q in indexPairs ==> IsMatchup(q, n)
    ensures SortedPairs(indexPairs) == indexPairs
  {
    forall i | 0 <= i < |indexPairs|
      ensures SortedPairs(indexPairs)[i] == indexPairs[i]
    {
      assert IsMatchup(indexPairs[i], n);
    }
  }

  /**
   * A freshly generated round of distinct items passes verification
   * whenever its seed is not 0, full or reduced.
   */
  lemma FreshRoundVerifies(items: seq<Item>, seed: nat, reduceVoting: bool)
    requires |items| >= 2 && Distinct(items) && seed != 0
    ensures VerifyVotingRound(items, Schedule(|items|, reduceVoting), seed,
      reduceVoting && |items| >= MinimumItemsForPruning, [])
  {
    var n := |items|;
    var pairs := Schedule(n, reduceVoting);
    ScheduleDistinct(n, reduceVoting);
    SortedPairsOfMatchups(pairs, n);
    forall i | 0 <= i < |pairs|
      ensures pairs[i].first < n && pairs[i].second < n && pairs[i].first != pairs[i].second
    {
      assert IsMatchup(pairs[i], n);
    }
    assert Schedule(n, reduceVoting && n >= MinimumItemsForPruning) == pairs;
  }

  /**
   * Casting the scheduled vote keeps a verified round verified, as long as
   * the votes so far followed the schedule and its pairs are sorted.
   */
  lemma {:induction false} VoteKeepsVerified(items: seq<Item>, indexPairs: seq<IndexPair>, seed: nat,
                                             reducedVoting: bool, votes: seq<Vote>, option: VoteOption)
    requires VerifyVotingRound(items, indexPairs, seed, reducedVoting, votes)
    requires forall i :: 0 <= i < |indexPairs| ==> indexPairs[i].first < indexPairs[i].second
    requires |votes| < |indexPairs| && VotePairs(votes) == indexPairs[..|votes|]
    ensures var p := indexPairs[|votes|];
      var next := votes + [Vote(p.first, p.second, option)];
      VerifyVotingRound(items, indexPairs, seed, reducedVoting, next) &&
      VotePairs(next) == indexPairs[..|next|]
  {
    var p := indexPairs[|votes|];
    var next := votes + [Vote(p.first, p.second, option)];
    assert VotePairs(next) == VotePairs(votes) + [p];
    assert VotePairs(next) == indexPairs[..|next|];
    forall q | q in indexPairs
      ensures IsMatchup(q, |items|)
    {
      var i :| 0 <= i < |indexPairs| && indexPairs[i] == q;
    }
    SortedPairsOfMatchups(indexPairs, |items|);
  }

  /** Taking back the last vote keeps a verified round verified. */
  lemma UndoKeepsVerified(items: seq<Item>, indexPairs: seq<IndexPair>, seed: nat, reducedVoting: bool, votes: seq<Vote>)
    requires VerifyVotingRound(items, indexPairs, seed, reducedVoting, votes) && |votes| > 0
    ensures VerifyVotingRound(items, indexPairs, seed, reducedVoting, votes[..|votes| - 1])
  {
    assert VotePairs(votes[..|votes| - 1]) == VotePairs(votes)[..|votes| - 1];
  }

  // ---------------------------------------------------------------------
  // Loading
  // ---------------------------------------------------------------------

  /**
   * `parseVotingRoundFromText`: the same checks as `create(lines)`, but
   * only the words "full" and "reduced" are formats. It accepts exactly
   * the non-ranked files the current load accepts, with the same contents.
   */
  function ParseVotingRound(lines: seq<string>): (r: Option<RoundText>)
    ensures r.Some? <==> ParseRoundText(lines).Some? && ParseRoundText(lines).value.format != Ranked
    ensures r.Some? ==> r == ParseRoundText(lines) && r.value.format in {Full, Reduced}
  {
    var t := ParseRoundTextAsWritten(lines);
    if t.Some? && t.value.format == Ranked then None else t
  }

  /**
   * The contents a round loaded from `t` writes back: "reduced" only if
   * pruning shrank its schedule, which needs at least six items.
   */
  function Rewritten(t: RoundText): RoundText
  {
    t.(format := if t.format == Reduced && |t.items| >= MinimumItemsForPruning then Reduced else Full)
  }

  /**
   * A loaded round's voting file loads again, to the same contents; only
   * "reduced" below six items comes back as "full", which schedules the
   * same pairs.
   */
  lemma LoadedTextRoundTrip(lines: seq<string>)
    requires ParseVotingRound(lines).Some?
    ensures var t := ParseVotingRound(lines).value;
      ParseVotingRound(RoundToLines(Rewritten(t))) == Some(Rewritten(t)) &&
      Schedule(|t.items|, Rewritten(t).format == Reduced) == Schedule(|t.items|, t.format == Reduced)
  {
    var t := ParseVotingRound(lines).value;
    var u := Rewritten(t);
    CheckedText(lines);
    assert Schedule(|t.items|, u.format == Reduced) == Schedule(|t.items|, t.format == Reduced);
    assert Acceptable(u);
    RoundTextRoundTrip(u);
  }

  /**
   * A loaded round whose seed is not 0 and whose votes all name the
   * smaller index first passes verification.
   */
  lemma LoadedRoundVerifies(lines: seq<string>)
    requires ParseVotingRound(lines).Some?
    requires var t := ParseVotingRound(lines).value;
      t.seed != 0 && forall i :: 0 <= i < |t.votes| ==> t.votes[i].a < t.votes[i].b
    ensures var t := ParseVotingRound(lines).value;
      var n := |t.items|;
      VerifyVotingRound(Shuffled(t.seed, t.items), Shuffled(t.seed, Schedule(n, t.format == Reduced)), t.seed,
        t.format == Reduced && n >= MinimumItemsForPruning, t.votes)
  {
    var t := ParseVotingRound(lines).value;
    var n := |t.items|;
    var reduced := t.format == Reduced && n >= MinimumItemsForPruning;
    var items := Shuffled(t.seed, t.items);
    var schedule := Schedule(n, t.format == Reduced);
    var pairs := Shuffled(t.seed, schedule);
    assert Checked(t) by {
      CheckedText(lines);
    }
    assert Distinct(items) by {
      DistinctPermutation(t.items, items);
    }
    assert forall q :: q in pairs ==> IsMatchup(q, n) by {
      ScheduleDistinct(n, t.format == Reduced);
      forall q | q in pairs
        ensures IsMatchup(q, n)
      {
        assert q in multiset(pairs);
        assert q in multiset(schedule);
      }
    }
    assert forall i :: 0 <= i < |pairs| ==>
      pairs[i].first < n && pairs[i].second < n && pairs[i].first != pairs[i].second
    by {
      forall i | 0 <= i < |pairs|
        ensures pairs[i].first < n && pairs[i].second < n && pairs[i].first != pairs[i].second
      {
        assert IsMatchup(pairs[i], n);
      }
    }
    assert Distinct(SortedPairs(pairs)) by {
      ScheduleDistinct(n, t.format == Reduced);
      DistinctPermutation(schedule, pairs);
      SortedPairsOfMatchups(pairs, n);
    }
    assert |pairs| == |Schedule(n, reduced)| by {
      assert Schedule(n, reduced) == schedule;
    }
    assert Distinct(VotePairs(t.votes)) by {
      assert MatchupKeys(t.votes) == VotePairs(t.votes);
      DistinctIffCardinality(MatchupKeys(t.votes));
    }
    assert WellFormed(items, pairs, t.seed, reduced, t.votes);
  }

  /**
   * `sumOfFirstIntegers(number_of_items - 1)` as `pruneVotes` computes it:
   * the subtraction is on a 32-bit unsigned count, so no items wraps round
   * to 2^32 - 1 (the 64-bit product that follows does not overflow).
   */
  function FullPairCount(n: nat): nat
  {
    SumOfFirstIntegers(if n == 0 then 0xFFFF_FFFF else n - 1)
  }

  /** Pruning the full schedule of at least one item shrinks it exactly from six items on. */
  lemma PruningShrinks(n: nat)
    requires n >= 1
    ensures |Schedule(n, true)| < FullPairCount(n) <==> n >= MinimumItemsForPruning
  {
    var full := FullPairCount(n);
    assert full == SumOfFirstIntegers(n - 1);
    AllPairsCount(n);
    assert |AllPairs(n)| == full;
    if n >= MinimumItemsForPruning {
      ReducedScheduleCount(n);
      var p := PruningAmount(n);
      assert p >= 1;
      assert n * p >= 1;
      assert |Schedule(n, true)| == full - n * p;
    } else {
      assert Schedule(n, true) == AllPairs(n);
    }
  }

  // ---------------------------------------------------------------------
  // The round
  // ---------------------------------------------------------------------

  /** The legacy `VotingRound` struct. */
  class LegacyRound {
    var items: seq<Item>
    var originalItemsOrder: seq<Item>
    var indexPairs: seq<IndexPair>
    var votes: seq<Vote>
    var seed: nat
    var reducedVoting: bool
    var isSaved: bool

    /** `VotingRound{}`: value-initialised, so empty, zero and false. */
    constructor ()
      ensures items == [] && originalItemsOrder == [] && indexPairs == [] && votes == []
      ensures seed == 0 && !reducedVoting && !isSaved
    {
      items := [];
      originalItemsOrder := [];
      indexPairs := [];
      votes := [];
      seed := 0;
      reducedVoting := false;
      isSaved := false;
    }

    /** What the round's voting file records. */
    function Text(): RoundText
      reads this
    {
      RoundText(originalItemsOrder, seed, if reducedVoting then Reduced else Full, votes)
    }

    /** The state `parseVotingRoundFromText` builds from the contents `t`. */
    predicate Loaded(t: RoundText)
      reads this
    {
      var n := |t.items|;
      originalItemsOrder == t.items && items == Shuffled(t.seed, t.items) &&
      seed == t.seed && votes == t.votes &&
      reducedVoting == (t.format == Reduced && n >= MinimumItemsForPruning) &&
      indexPairs == Shuffled(t.seed, Schedule(n, t.format == Reduced)) &&
      isSaved
    }

    /**
     * `pruneVotes(VotingRound&)`: nothing once reduced or voted in;
     * otherwise the schedule is reduced and the round is marked reduced
     * exactly when that removed pairs.
     */
    method PruneVotes()
      modifies this
      ensures items == old(items) && originalItemsOrder == old(originalItemsOrder)
      ensures votes == old(votes) && seed == old(seed) && isSaved == old(isSaved)
      ensures old(reducedVoting) || old(votes) != [] ==>
        indexPairs == old(indexPairs) && reducedVoting == old(reducedVoting)
      ensures !old(reducedVoting) && old(votes) == [] ==>
        indexPairs == (if |items| < MinimumItemsForPruning then old(indexPairs)
                       else WithoutSet(old(indexPairs), NearPairs(|items|, PruningAmount(|items|)))) &&
        reducedVoting == (|indexPairs| < FullPairCount(|items|))
      ensures !old(reducedVoting) && old(votes) == [] && old(indexPairs) == AllPairs(|items|) && |items| >= 1 ==>
        indexPairs == Schedule(|items|, true) && (reducedVoting <==> |items| >= MinimumItemsForPruning)
    {
      if reducedVoting {
        return;
      }
      if votes != [] {
        return;
      }
      var n := |items|;
      indexPairs := ReduceVotes(indexPairs, n);
      reducedVoting := |indexPairs| < FullPairCount(n);
      if old(indexPairs) == AllPairs(n) && n >= 1 {
        PruningShrinks(n);
      }
    }

    /** `shuffleVotingOrder`: the schedule, then the items, by the seed. */
    method ShuffleVotingOrder()
      modifies this
      ensures indexPairs == Shuffled(seed, old(indexPairs)) && items == Shuffled(seed, old(items))
      ensures originalItemsOrder == old(originalItemsOrder) && votes == old(votes) && seed == old(seed)
      ensures reducedVoting == old(reducedVoting) && isSaved == old(isSaved)
    {
      indexPairs := Shuffled(seed, indexPairs);
      items := Shuffled(seed, items);
    }

    /**
     * `generateNewVotingRound`: at least two non-empty items; the clock
     * seed, every pair in order, pruned when asked for. The items are not
     * shuffled and not checked for repeats.
     */
    static method GenerateNewVotingRound(items: seq<Item>, reduceVoting: bool, clockSeed: nat) returns (r: LegacyRound?)
      ensures r == null <==> |items| < 2 || exists i :: 0 <= i < |items| && items[i] == ""
      ensures r != null ==>
        fresh(r) && r.items == items && r.originalItemsOrder == items &&
        r.votes == [] && r.seed == clockSeed && !r.isSaved &&
        r.indexPairs == Schedule(|items|, reduceVoting) &&
        r.reducedVoting == (reduceVoting && |items| >= MinimumItemsForPruning)
    {
      if |items| < 2 {
        return null;
      }
      for i := 0 to |items|
        invariant forall j :: 0 <= j < i ==> items[j] != ""
      {
        if items[i] == "" {
          return null;
        }
      }
      r := new LegacyRound();
      r.items := items;
      r.seed := clockSeed;
      r.reducedVoting := false;
      var pairs := GenerateIndexPairs(|items|);
      r.indexPairs := pairs;
      r.originalItemsOrder := items;
      if reduceVoting {
        r.PruneVotes();
      }
    }

    /**
     * `parseVotingRoundFromText`: the checks of `create(lines)` (method
     * ReadRoundText makes them in the same order), with "ranked" refused
     * as a format word, then the round built from the contents.
     */
    static method ParseVotingRoundFromText(lines: seq<string>) returns (r: LegacyRound?)
      ensures r == null <==> ParseVotingRound(lines).None?
      ensures r != null ==> fresh(r) && r.Loaded(ParseVotingRound(lines).value)
      ensures r != null ==> r.Text() == Rewritten(ParseVotingRound(lines).value)
    {
      var t := ReadRoundText(lines);
      if t.None? || t.value.format == Ranked {
        return null;
      }
      CheckedText(lines);
      r := Build(t.value);
    }

    /**
     * The round `parseVotingRoundFromText` fills in from checked contents:
     * every pair, pruned for "reduced", then pairs and items shuffled.
     */
    static method Build(t: RoundText) returns (r: LegacyRound)
      requires Checked(t) && t.format in {Full, Reduced}
      ensures fresh(r) && r.Loaded(t)
    {
      var n := |t.items|;
      r := new LegacyRound();
      r.items := t.items;
      r.originalItemsOrder := t.items;
      r.seed := t.seed;
      var pairs := GenerateIndexPairs(n);
      r.indexPairs := pairs;
      if t.format == Reduced {
        r.PruneVotes();
      }
      assert r.indexPairs == Schedule(n, t.format == Reduced);
      assert r.reducedVoting == (t.format == Reduced && n >= MinimumItemsForPruning);
      r.ShuffleVotingOrder();
      r.votes := t.votes;
      r.isSaved := true;
    }

    /**
     * `convertVotingRoundToText`: no lines when either item list is
     * empty, otherwise the voting file of the round.
     */
    method ConvertVotingRoundToText() returns (lines: seq<string>)
      ensures |originalItemsOrder| == 0 || |items| == 0 ==> lines == []
      ensures |originalItemsOrder| > 0 && |items| > 0 ==> lines == RoundToLines(Text())
    {
      lines := [];
      if |originalItemsOrder| == 0 || |items| == 0 {
        return;
      }
      ghost var t := Text();
      for i := 0 to |originalItemsOrder|
        invariant lines == originalItemsOrder[..i]
      {
        lines := lines + [originalItemsOrder[i]];
      }
      assert lines == t.items by {
        assert originalItemsOrder[..|originalItemsOrder|] == originalItemsOrder;
      }
      lines := lines + [""];
      lines := lines + [NatToString(seed)];
      if reducedVoting {
        lines := lines + ["reduced"];
      } else {
        lines := lines + ["full"];
      }
      ghost var header := lines;
      assert header == t.items + [""] + [NatToString(t.seed), VotingFormatToString(t.format)];
      for j := 0 to |votes|
        invariant lines == header + VoteLines(votes[..j])
      {
        assert VoteLines(votes[..j + 1]) == VoteLines(votes[..j]) + [VoteLine(votes[j])];
        lines := lines + [VoteLine(votes[j])];
      }
      assert lines == RoundToLines(t) by {
        assert votes[..|votes|] == votes;
      }
    }

    /** `hasRemainingVotes`: fewer votes than scheduled pairs. */
    function HasRemainingVotes(): bool
      reads this
    {
      |votes| < |indexPairs|
    }

    /**
     * The menu's `vote`: with no round, or none of its pairs left, a
     * fixed message and no change; otherwise the next scheduled pair is
     * voted on and the round is no longer saved.
     */
    static method Vote(round: LegacyRound?, option: VoteOption) returns (message: string)
      modifies round
      ensures round == null ==> message == "No poll to vote in"
      ensures round != null ==>
        round.items == old(round.items) &&
        round.originalItemsOrder == old(round.originalItemsOrder) && round.indexPairs == old(round.indexPairs) &&
        round.seed == old(round.seed) && round.reducedVoting == old(round.reducedVoting)
      ensures round != null && !old(round.HasRemainingVotes()) ==>
        message == "No ongoing poll with pending votes" &&
        round.votes == old(round.votes) && round.isSaved == old(round.isSaved)
      ensures round != null && old(round.HasRemainingVotes()) ==>
        var p := old(round.indexPairs[|round.votes|]);
        message == "" && round.votes == old(round.votes) + [Types.Vote(p.first, p.second, option)] && !round.isSaved
    {
      if round == null {
        return "No poll to vote in";
      }
      if !round.HasRemainingVotes() {
        return "No ongoing poll with pending votes";
      }
      var p := round.indexPairs[|round.votes|];
      round.votes := round.votes + [Types.Vote(p.first, p.second, option)];
      round.isSaved := false;
      return "";
    }

    /**
     * The menu's `undo`: with no round a fixed message; otherwise the last
     * vote, if any, is removed and the round is no longer saved.
     */
    static method Undo(round: LegacyRound?) returns (message: string)
      modifies round
      ensures round == null ==> message == "No poll to undo from"
      ensures round != null ==>
        message == "" && round.items == old(round.items) &&
        round.originalItemsOrder == old(round.originalItemsOrder) && round.indexPairs == old(round.indexPairs) &&
        round.seed == old(round.seed) && round.reducedVoting == old(round.reducedVoting)
      ensures round != null && old(round.votes) == [] ==> round.votes == [] && round.isSaved == old(round.isSaved)
      ensures round != null && old(round.votes) != [] ==>
        round.votes == old(round.votes[..|round.votes| - 1]) && !round.isSaved
    {
      if round == null {
        return "No poll to undo from";
      }
      if round.votes != [] {
        round.votes := round.votes[..|round.votes| - 1];
        round.isSaved := false;
      }
      return "";
    }

    /** Every scheduled pair names two of the round's items. */
    predicate PairsInRange()
      reads this
    {
      forall i :: 0 <= i < |indexPairs| ==> indexPairs[i].first < |items| && indexPairs[i].second < |items|
    }

    /**
     * `currentVotingLine`: none when voting is over; otherwise the line
     * for the next scheduled pair (see CurrentVotingLineShows).
     */
    function CurrentVotingLine(): (line: Option<string>)
      reads this
      requires PairsInRange()
      ensures line.None? <==> !HasRemainingVotes()
    {
      if !HasRemainingVotes() then None
      else
        var counter := |votes|;
        var indices := indexPairs[counter];
        NumberOfDigitsMonotone(counter + 1, |indexPairs|);
        Some(ChoiceLine(LegacyCounterString(counter + 1, |indexPairs|),
          items[indices.first], items[indices.second], FindMaxLength(items)))
    }

    /**
     * The line shown while votes remain: the counter of the next vote over
     * the scheduled total, then both items of the next pair padded to the
     * longest item.
     */
    lemma CurrentVotingLineShows()
      requires PairsInRange() && HasRemainingVotes()
      ensures var p := indexPairs[|votes|];
        CurrentVotingLine() ==
          Some(ChoiceLine(CounterString(|votes| + 1, |indexPairs|), items[p.first], items[p.second], FindMaxLength(items)))
    {
    }
  }

  /**
   * The legacy `counterString`: only the counter is padded, to the width
   * of the total. A counter wider than the total would make the padding
   * length wrap round, which `std::string` rejects; the only caller never
   * passes one.
   */
  function LegacyCounterString(counter: nat, total: nat): (s: string)
    requires NumberOfDigits(counter) <= NumberOfDigits(total)
    ensures s == CounterString(counter, total)
  {
    var dt, dc := NumberOfDigits(total), NumberOfDigits(counter);
    var t := NatToString(total);
    assert Repeat(' ', 0) + t == t;
    "(" + (Repeat(' ', dt - dc) + NatToString(counter)) + "/" + t + ")"
  }
}
