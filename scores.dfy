/**
 * Scores (src/calculate_scores.cpp, src/score_helpers.cpp): tallying the
 * wins and losses of a round's votes per item, and merging score lists
 * by item name.
 */
module Scores {
  import opened Types

  /** `Score`: an item with its number of won and lost votes. */
  datatype Score = Score(item: Item, wins: nat, losses: nat)

  /** `Score{}`, the value a failed parse gives. */
  const EmptyScore := Score("", 0, 0)

  /** The item names of a score list, in order. */
  function Names(scores: seq<Score>): (names: seq<Item>)
    ensures |names| == |scores|
  {
    seq(|scores|, i requires 0 <= i < |scores| => scores[i].item)
  }

  // ---------------------------------------------------------------------
  // What a score list records
  // ---------------------------------------------------------------------

  /** The wins recorded for `x`, over all its entries. */
  function WinsOf(scores: seq<Score>, x: Item): nat
  {
    if |scores| == 0 then 0
    else WinsOf(scores[..|scores| - 1], x) + (if scores[|scores| - 1].item == x then scores[|scores| - 1].wins else 0)
  }

  /** The losses recorded for `x`, over all its entries. */
  function LossesOf(scores: seq<Score>, x: Item): nat
  {
    if |scores| == 0 then 0
    else LossesOf(scores[..|scores| - 1], x) + (if scores[|scores| - 1].item == x then scores[|scores| - 1].losses else 0)
  }

  function TotalWins(scores: seq<Score>): nat
  {
    if |scores| == 0 then 0 else TotalWins(scores[..|scores| - 1]) + scores[|scores| - 1].wins
  }

  function TotalLosses(scores: seq<Score>): nat
  {
    if |scores| == 0 then 0 else TotalLosses(scores[..|scores| - 1]) + scores[|scores| - 1].losses
  }

  /** The sums after replacing one entry by another for the same item. */
  lemma {:induction false} SumsOfUpdate(scores: seq<Score>, k: nat, e: Score, x: Item)
    requires k < |scores| && e.item == scores[k].item
    ensures var u := scores[k := e];
      var here := scores[k].item == x;
      WinsOf(u, x) == WinsOf(scores, x) - (if here then scores[k].wins else 0) + (if here then e.wins else 0) &&
      LossesOf(u, x) == LossesOf(scores, x) - (if here then scores[k].losses else 0) + (if here then e.losses else 0) &&
      TotalWins(u) == TotalWins(scores) - scores[k].wins + e.wins &&
      TotalLosses(u) == TotalLosses(scores) - scores[k].losses + e.losses
  {
    var u := scores[k := e];
    var m := |scores| - 1;
    if k == m {
      assert u[..m] == scores[..m];
    } else {
      SumsOfUpdate(scores[..m], k, e, x);
      assert u[..m] == scores[..m][k := e];
    }
  }

  /** With distinct names, an entry holds everything recorded for its item. */
  lemma {:induction false} EntryHoldsTotals(scores: seq<Score>, k: nat)
    requires Distinct(Names(scores)) && k < |scores|
    ensures WinsOf(scores, scores[k].item) == scores[k].wins
    ensures LossesOf(scores, scores[k].item) == scores[k].losses
  {
    var m := |scores| - 1;
    var prefix := scores[..m];
    assert Names(prefix) == Names(scores)[..m];
    if k < m {
      EntryHoldsTotals(prefix, k);
      assert Names(scores)[k] != Names(scores)[m];
    } else {
      assert scores[k].item !in Names(prefix) by {
        forall j | 0 <= j < m
          ensures Names(prefix)[j] != scores[k].item
        {
          assert Names(scores)[j] != Names(scores)[m];
        }
      }
      AbsentHasNoTotals(prefix, scores[k].item);
    }
  }

  /** An item without an entry has nothing recorded. */
  lemma {:induction false} AbsentHasNoTotals(scores: seq<Score>, x: Item)
    requires x !in Names(scores)
    ensures WinsOf(scores, x) == 0 && LossesOf(scores, x) == 0
  {
    if |scores| > 0 {
      var m := |scores| - 1;
      assert Names(scores[..m]) == Names(scores)[..m];
      assert Names(scores)[m] == scores[m].item;
      AbsentHasNoTotals(scores[..m], x);
    }
  }

  // ---------------------------------------------------------------------
  // addScore
  // ---------------------------------------------------------------------

  /** `std::find_if` on the item name: the first entry for `item`, or the end. */
  function FindItem(scores: seq<Score>, item: Item): (k: nat)
    ensures k <= |scores|
    ensures k < |scores| ==> scores[k].item == item
    ensures k == |scores| <==> item !in Names(scores)
  {
    if |scores| == 0 then 0
    else if scores[0].item == item then
      assert Names(scores)[0] == item;
      0
    else
      assert Names(scores[1..]) == Names(scores)[1..];
      1 + FindItem(scores[1..], item)
  }

  /** Appends `x` unless it is already listed. */
  function AppendNew(names: seq<Item>, x: Item): seq<Item>
  {
    if x in names then names else names + [x]
  }

  /**
   * `addScore`: the new score's wins and losses go to the first entry for
   * its item; without one, the score is appended.
   */
  function AddScore(scores: seq<Score>, s: Score): seq<Score>
  {
    var k := FindItem(scores, s.item);
    if k == |scores| then scores + [s]
    else scores[k := Score(scores[k].item, scores[k].wins + s.wins, scores[k].losses + s.losses)]
  }

  /**
   * Adding a score adds its wins and losses to its item's record and to
   * the totals, changes no other item's record, and lists the item after
   * the others if it was new. Other entries are left as they were.
   */
  lemma AddScoreAdds(scores: seq<Score>, s: Score, x: Item)
    ensures var r := AddScore(scores, s);
      WinsOf(r, x) == WinsOf(scores, x) + (if s.item == x then s.wins else 0) &&
      LossesOf(r, x) == LossesOf(scores, x) + (if s.item == x then s.losses else 0) &&
      TotalWins(r) == TotalWins(scores) + s.wins &&
      TotalLosses(r) == TotalLosses(scores) + s.losses &&
      Names(r) == AppendNew(Names(scores), s.item) &&
      forall j :: 0 <= j < |scores| && scores[j].item != s.item ==> r[j] == scores[j]
  {
    var r := AddScore(scores, s);
    var k := FindItem(scores, s.item);
    if k == |scores| {
      assert r[..|scores|] == scores;
      assert Names(r) == Names(scores) + [s.item];
    } else {
      SumsOfUpdate(scores, k, r[k], x);
      assert Names(scores)[k] == s.item;
      assert Names(r) == Names(scores);
    }
  }

  /** Adding a score keeps item names distinct. */
  lemma AddScoreKeepsNamesDistinct(scores: seq<Score>, s: Score)
    requires Distinct(Names(scores))
    ensures Distinct(Names(AddScore(scores, s)))
  {
    AddScoreAdds(scores, s, s.item);
  }

  /** `incrementWinner`: one more win for `item`, as addScore of one win. */
  function IncrementWinner(scores: seq<Score>, item: Item): seq<Score>
  {
    AddScore(scores, Score(item, 1, 0))
  }

  /** `incrementLoser`: one more loss for `item`, as addScore of one loss. */
  function IncrementLoser(scores: seq<Score>, item: Item): seq<Score>
  {
    AddScore(scores, Score(item, 0, 1))
  }

  // ---------------------------------------------------------------------
  // calculateScores
  // ---------------------------------------------------------------------

  /** Every vote names two of the items. */
  predicate VotesInRange(items: seq<Item>, votes: seq<Vote>)
  {
    forall i :: 0 <= i < |votes| ==> votes[i].a < |items| && votes[i].b < |items|
  }

  function WinnerOf(items: seq<Item>, v: Vote): Item
    requires v.a < |items| && v.b < |items|
  {
    if v.winner == A then items[v.a] else items[v.b]
  }

  function LoserOf(items: seq<Item>, v: Vote): Item
    requires v.a < |items| && v.b < |items|
  {
    if v.winner == A then items[v.b] else items[v.a]
  }

  /** The scores after tallying the votes in order: winner first, then loser. */
  function Tally(items: seq<Item>, votes: seq<Vote>): seq<Score>
    requires VotesInRange(items, votes)
  {
    if |votes| == 0 then []
    else
      var v := votes[|votes| - 1];
      IncrementLoser(IncrementWinner(Tally(items, votes[..|votes| - 1]), WinnerOf(items, v)), LoserOf(items, v))
  }

  /** `calculateScores`: one win for each vote's winner, one loss for the other item. */
  method CalculateScores(items: seq<Item>, votes: seq<Vote>) returns (scores: seq<Score>)
    requires VotesInRange(items, votes)
    ensures scores == Tally(items, votes)
  {
    scores := [];
    for i := 0 to |votes|
      invariant scores == Tally(items, votes[..i])
    {
      assert votes[..i + 1][..i] == votes[..i];
      var v := votes[i];
      if v.winner == A {
        scores := IncrementWinner(scores, items[v.a]);
        scores := IncrementLoser(scores, items[v.b]);
      } else {
        scores := IncrementWinner(scores, items[v.b]);
        scores := IncrementLoser(scores, items[v.a]);
      }
    }
    assert votes[..|votes|] == votes;
  }

  /** How many votes `x` won. */
  function CountWins(items: seq<Item>, votes: seq<Vote>, x: Item): nat
    requires VotesInRange(items, votes)
  {
    if |votes| == 0 then 0
    else CountWins(items, votes[..|votes| - 1], x) + (if WinnerOf(items, votes[|votes| - 1]) == x then 1 else 0)
  }

  /** How many votes `x` lost. */
  function CountLosses(items: seq<Item>, votes: seq<Vote>, x: Item): nat
    requires VotesInRange(items, votes)
  {
    if |votes| == 0 then 0
    else CountLosses(items, votes[..|votes| - 1], x) + (if LoserOf(items, votes[|votes| - 1]) == x then 1 else 0)
  }

  /** The items in the order they take part: each vote's winner, then its loser. */
  function Participants(items: seq<Item>, votes: seq<Vote>): (ps: seq<Item>)
    requires VotesInRange(items, votes)
    ensures |ps| == 2 * |votes|
  {
    if |votes| == 0 then []
    else
      var v := votes[|votes| - 1];
      Participants(items, votes[..|votes| - 1]) + [WinnerOf(items, v), LoserOf(items, v)]
  }

  /** `names` extended by each new name of `s`, in order. */
  function DedupOnto(names: seq<Item>, s: seq<Item>): seq<Item>
  {
    if |s| == 0 then names else AppendNew(DedupOnto(names, s[..|s| - 1]), s[|s| - 1])
  }

  /** The distinct elements of `s`, in order of first appearance. */
  function Dedup(s: seq<Item>): seq<Item>
  {
    DedupOnto([], s)
  }

  lemma {:induction false} DedupOntoDistinct(names: seq<Item>, s: seq<Item>)
    requires Distinct(names)
    ensures Distinct(DedupOnto(names, s))
    ensures forall x :: x in DedupOnto(names, s) <==> x in names || x in s
  {
    if |s| > 0 {
      DedupOntoDistinct(names, s[..|s| - 1]);
      assert s == s[..|s| - 1] + [s[|s| - 1]];
    }
  }

  lemma {:induction false} DedupOntoAppend(names: seq<Item>, s: seq<Item>, t: seq<Item>)
    ensures DedupOnto(names, s + t) == DedupOnto(DedupOnto(names, s), t)
  {
    if |t| == 0 {
      assert s + t == s;
    } else {
      DedupOntoAppend(names, s, t[..|t| - 1]);
      assert (s + t)[..|s + t| - 1] == s + t[..|t| - 1];
    }
  }

  /**
   * The tally records exactly the wins and the losses of each item, both
   * totals equal the number of votes, and its entries are the distinct
   * participants in order of first appearance, a vote's winner before its
   * loser.
   */
  lemma {:induction false} TallyMeaning(items: seq<Item>, votes: seq<Vote>, x: Item)
    requires VotesInRange(items, votes)
    ensures var t := Tally(items, votes);
      WinsOf(t, x) == CountWins(items, votes, x) &&
      LossesOf(t, x) == CountLosses(items, votes, x) &&
      TotalWins(t) == |votes| && TotalLosses(t) == |votes| &&
      Names(t) == Dedup(Participants(items, votes))
  {
    if |votes| > 0 {
      var prev := votes[..|votes| - 1];
      var v := votes[|votes| - 1];
      TallyMeaning(items, prev, x);
      var t0 := Tally(items, prev);
      var t1 := IncrementWinner(t0, WinnerOf(items, v));
      AddScoreAdds(t0, Score(WinnerOf(items, v), 1, 0), x);
      AddScoreAdds(t1, Score(LoserOf(items, v), 0, 1), x);
      var ps := Participants(items, prev);
      assert Participants(items, votes) == ps + [WinnerOf(items, v)] + [LoserOf(items, v)];
      DedupOntoAppend([], ps + [WinnerOf(items, v)], [LoserOf(items, v)]);
      DedupOntoAppend([], ps, [WinnerOf(items, v)]);
    }
  }

  /**
   * Each item appears at most once, and an item has an entry exactly when
   * it took part in a vote; no votes give no scores.
   */
  lemma TallyNames(items: seq<Item>, votes: seq<Vote>, x: Item)
    requires VotesInRange(items, votes)
    ensures Distinct(Names(Tally(items, votes)))
    ensures x in Names(Tally(items, votes)) <==> x in Participants(items, votes)
    ensures |votes| == 0 ==> Tally(items, votes) == []
  {
    TallyMeaning(items, votes, x);
    DedupOntoDistinct([], Participants(items, votes));
  }

  /** How many votes are about the item at index `i`. */
  function CountInvolving(votes: seq<Vote>, i: nat): nat
  {
    if |votes| == 0 then 0
    else CountInvolving(votes[..|votes| - 1], i) + (if votes[|votes| - 1].a == i || votes[|votes| - 1].b == i then 1 else 0)
  }

  /**
   * With distinct item names and votes between two different items, an
   * item's wins and losses add up to the number of votes about it.
   */
  lemma {:induction false} WinsAndLossesCountVotes(items: seq<Item>, votes: seq<Vote>, i: nat)
    requires VotesInRange(items, votes) && Distinct(items) && i < |items|
    requires forall k :: 0 <= k < |votes| ==> votes[k].a != votes[k].b
    ensures CountWins(items, votes, items[i]) + CountLosses(items, votes, items[i]) == CountInvolving(votes, i)
  {
    if |votes| > 0 {
      WinsAndLossesCountVotes(items, votes[..|votes| - 1], i);
      var v := votes[|votes| - 1];
      assert v.a != v.b;
      assert items[v.a] == items[i] <==> v.a == i;
      assert items[v.b] == items[i] <==> v.b == i;
    }
  }

  // ---------------------------------------------------------------------
  // addScores and combineScores
  // ---------------------------------------------------------------------

  /** `b`'s scores added to `a` one by one. */
  function AddAll(a: seq<Score>, b: seq<Score>): seq<Score>
  {
    if |b| == 0 then a else AddScore(AddAll(a, b[..|b| - 1]), b[|b| - 1])
  }

  /** `addScores`: a copy of the first list with each score of the second added. */
  method AddScores(a: seq<Score>, b: seq<Score>) returns (combined: seq<Score>)
    ensures combined == AddAll(a, b)
  {
    combined := a;
    for i := 0 to |b|
      invariant combined == AddAll(a, b[..i])
    {
      assert b[..i + 1][..i] == b[..i];
      combined := AddScore(combined, b[i]);
    }
    assert b[..|b|] == b;
  }

  /**
   * Adding lists sums the records of every item, and lists the new names
   * of the second list after those of the first, in order.
   */
  lemma {:induction false} AddAllMeaning(a: seq<Score>, b: seq<Score>, x: Item)
    ensures var r := AddAll(a, b);
      WinsOf(r, x) == WinsOf(a, x) + WinsOf(b, x) &&
      LossesOf(r, x) == LossesOf(a, x) + LossesOf(b, x) &&
      Names(r) == DedupOnto(Names(a), Names(b))
  {
    if |b| > 0 {
      var m := |b| - 1;
      AddAllMeaning(a, b[..m], x);
      AddScoreAdds(AddAll(a, b[..m]), b[m], x);
      assert Names(b)[..m] == Names(b[..m]);
    }
  }

  /** The score lists merged in order, starting from none. */
  function CombineAll(sets: seq<seq<Score>>): seq<Score>
  {
    if |sets| == 0 then [] else AddAll(CombineAll(sets[..|sets| - 1]), sets[|sets| - 1])
  }

  /** `combineScores`: every set added in turn to an empty list. */
  method CombineScores(sets: seq<seq<Score>>) returns (combined: seq<Score>)
    ensures combined == CombineAll(sets)
  {
    combined := [];
    for i := 0 to |sets|
      invariant combined == CombineAll(sets[..i])
    {
      assert sets[..i + 1][..i] == sets[..i];
      combined := AddScores(combined, sets[i]);
    }
    assert sets[..|sets|] == sets;
  }

  /** Every item name of every set, set after set. */
  function AllNames(sets: seq<seq<Score>>): seq<Item>
  {
    if |sets| == 0 then [] else AllNames(sets[..|sets| - 1]) + Names(sets[|sets| - 1])
  }

  /** The wins of `x` in all sets together. */
  function SumWins(sets: seq<seq<Score>>, x: Item): nat
  {
    if |sets| == 0 then 0 else SumWins(sets[..|sets| - 1], x) + WinsOf(sets[|sets| - 1], x)
  }

  /** The losses of `x` in all sets together. */
  function SumLosses(sets: seq<seq<Score>>, x: Item): nat
  {
    if |sets| == 0 then 0 else SumLosses(sets[..|sets| - 1], x) + LossesOf(sets[|sets| - 1], x)
  }

  /**
   * Combining gives distinct item names in order of first appearance,
   * each with its wins and losses summed over all sets.
   */
  lemma {:induction false} CombineMeaning(sets: seq<seq<Score>>, x: Item)
    ensures var r := CombineAll(sets);
      Names(r) == Dedup(AllNames(sets)) && Distinct(Names(r)) &&
      WinsOf(r, x) == SumWins(sets, x) && LossesOf(r, x) == SumLosses(sets, x)
  {
    if |sets| > 0 {
      var m := |sets| - 1;
      CombineMeaning(sets[..m], x);
      AddAllMeaning(CombineAll(sets[..m]), sets[m], x);
      DedupOntoAppend([], AllNames(sets[..m]), Names(sets[m]));
    }
    DedupOntoDistinct([], AllNames(sets));
  }

  /** With distinct names, each entry of the combination holds its item's sums. */
  lemma CombinedEntry(sets: seq<seq<Score>>, k: nat)
    requires k < |CombineAll(sets)|
    ensures var e := CombineAll(sets)[k];
      e.wins == SumWins(sets, e.item) && e.losses == SumLosses(sets, e.item)
  {
    var r := CombineAll(sets);
    CombineMeaning(sets, r[k].item);
    EntryHoldsTotals(r, k);
  }
}
