/**
 * Matchup scheduling for score-based rounds (src/voting_round.cpp:15-138,
 * shared with the same code in src/functions.cpp:77-91 and 328-364).
 *
 * A full round asks about every unordered pair of item indices. A reduced
 * round with at least six items drops the pairs whose indices are close on
 * the circle 0, 1, ..., n-1, 0.
 */
module Scheduling {
  import opened Types
  import opened Helpers

  // ---------------------------------------------------------------------
  // Index pairs
  // ---------------------------------------------------------------------

  /** `sortIndexPair`: the pair as (smaller, larger). */
  function SortIndexPair(p: IndexPair): (r: IndexPair)
    ensures r.first == Min(p.first, p.second) && r.second == Max(p.first, p.second)
  {
    if p.first < p.second then p else Pair(p.second, p.first)
  }

  /** An unordered pair of two different items among the first `n`. */
  predicate IsMatchup(p: IndexPair, n: nat)
  {
    p.first < p.second < n
  }

  /** Strict lexicographic order on pairs. */
  predicate LexLess(p: IndexPair, q: IndexPair)
  {
    p.first < q.first || (p.first == q.first && p.second < q.second)
  }

  // ---------------------------------------------------------------------
  // Full schedule
  // ---------------------------------------------------------------------

  /** Row `a` of the full schedule: (a, a+1), ..., (a, n-1). */
  function Row(a: nat, n: nat): seq<IndexPair>
  {
    seq(if a + 1 < n then n - a - 1 else 0, k requires 0 <= k => Pair(a, a + 1 + k))
  }

  /** Rows 0 .. a-1 of the full schedule. */
  function RowsBelow(a: nat, n: nat): seq<IndexPair>
  {
    if a == 0 then [] else RowsBelow(a - 1, n) + Row(a - 1, n)
  }

  /** The full schedule: every pair (i, j) with i < j < n, row by row. */
  function AllPairs(n: nat): seq<IndexPair>
  {
    RowsBelow(n, n)
  }

  /**
   * `generateIndexPairs`: two nested loops append (a, b) for a < b < n;
   * fewer than two items give no pairs.
   */
  method GenerateIndexPairs(n: nat) returns (pairs: seq<IndexPair>)
    ensures pairs == AllPairs(n)
  {
    if n < 2 {
      assert RowsBelow(0, n) == [];
      assert Row(0, n) == [];
      return [];
    }
    pairs := [];
    var a := 0;
    while a < n
      invariant a <= n
      invariant pairs == RowsBelow(a, n)
    {
      var b := a + 1;
      while b < n
        invariant a + 1 <= b <= n
        invariant pairs == RowsBelow(a, n) + Row(a, n)[..b - a - 1]
      {
        assert Row(a, n)[..b - a] == Row(a, n)[..b - a - 1] + [Pair(a, b)];
        pairs := pairs + [Pair(a, b)];
        b := b + 1;
      }
      assert Row(a, n)[..b - a - 1] == Row(a, n);
      a := a + 1;
    }
  }

  lemma RowMembership(a: nat, n: nat, p: IndexPair)
    ensures p in Row(a, n) <==> p.first == a && a < p.second < n
  {
    if p.first == a && a < p.second < n {
      assert Row(a, n)[p.second - a - 1] == p;
    }
  }

  lemma {:induction false} RowsBelowMembership(a: nat, n: nat, p: IndexPair)
    ensures p in RowsBelow(a, n) <==> p.first < a && IsMatchup(p, n)
  {
    if a > 0 {
      RowsBelowMembership(a - 1, n, p);
      RowMembership(a - 1, n, p);
    }
  }

  /** The full schedule holds exactly the matchups among `n` items. */
  lemma AllPairsMembership(n: nat, p: IndexPair)
    ensures p in AllPairs(n) <==> IsMatchup(p, n)
  {
    RowsBelowMembership(n, n, p);
  }

  predicate LexSorted(s: seq<IndexPair>)
  {
    forall i, j :: 0 <= i < j < |s| ==> LexLess(s[i], s[j])
  }

  lemma {:induction false} RowsBelowSorted(a: nat, n: nat)
    ensures LexSorted(RowsBelow(a, n))
  {
    if a > 0 {
      RowsBelowSorted(a - 1, n);
      var left, right := RowsBelow(a - 1, n), Row(a - 1, n);
      forall i, j | 0 <= i < j < |left + right|
        ensures LexLess((left + right)[i], (left + right)[j])
      {
        if j >= |left| && i < |left| {
          RowsBelowMembership(a - 1, n, left[i]);
        }
      }
    }
  }

  /** The full schedule is in strictly increasing lexicographic order. */
  lemma AllPairsSorted(n: nat)
    ensures LexSorted(AllPairs(n))
    ensures Distinct(AllPairs(n))
  {
    RowsBelowSorted(n, n);
  }

  lemma {:induction false} RowsBelowLength(a: nat, n: nat)
    requires a <= n
    ensures 2 * |RowsBelow(a, n)| == a * (2 * n - a - 1)
  {
    if a > 0 {
      RowsBelowLength(a - 1, n);
      assert |Row(a - 1, n)| == n - a;
      assert (a - 1) * (2 * n - a) + 2 * (n - a) == a * (2 * n - a - 1);
    }
  }

  /**
   * The full schedule has n(n-1)/2 pairs: `sumOfFirstIntegers(n - 1)`,
   * the count the legacy verifier expects.
   */
  lemma AllPairsCount(n: nat)
    ensures 2 * |AllPairs(n)| == n * (n - 1)
    ensures n >= 1 ==> |AllPairs(n)| == SumOfFirstIntegers(n - 1)
  {
    RowsBelowLength(n, n);
    assert n * (2 * n - n - 1) == n * (n - 1);
  }

  // ---------------------------------------------------------------------
  // Removing pairs
  // ---------------------------------------------------------------------

  /** `std::remove` followed by `erase`: drop every copy of `x`. */
  function Without(s: seq<IndexPair>, x: IndexPair): (r: seq<IndexPair>)
    ensures forall y :: y in r <==> y in s && y != x
  {
    if |s| == 0 then []
    else (if s[0] == x then [] else [s[0]]) + Without(s[1..], x)
  }

  /** The pairs of `s` not in `drop`, in their order. */
  function WithoutSet(s: seq<IndexPair>, drop: set<IndexPair>): (r: seq<IndexPair>)
    ensures forall y :: y in r <==> y in s && y !in drop
  {
    if |s| == 0 then []
    else (if s[0] in drop then [] else [s[0]]) + WithoutSet(s[1..], drop)
  }

  lemma {:induction false} WithoutSetEmpty(s: seq<IndexPair>)
    ensures WithoutSet(s, {}) == s
  {
    if |s| > 0 {
      WithoutSetEmpty(s[1..]);
      assert [s[0]] + s[1..] == s;
    }
  }

  lemma {:induction false} WithoutAfterWithoutSet(s: seq<IndexPair>, drop: set<IndexPair>, x: IndexPair)
    ensures Without(WithoutSet(s, drop), x) == WithoutSet(s, drop + {x})
  {
    if |s| > 0 {
      WithoutAfterWithoutSet(s[1..], drop, x);
      var head := if s[0] in drop then [] else [s[0]];
      assert WithoutSet(s, drop) == head + WithoutSet(s[1..], drop);
      WithoutOfAppend(head, WithoutSet(s[1..], drop), x);
    }
  }

  lemma {:induction false} WithoutOfAppend(s: seq<IndexPair>, t: seq<IndexPair>, x: IndexPair)
    requires |s| <= 1
    ensures Without(s + t, x) == Without(s, x) + Without(t, x)
  {
    if |s| == 1 {
      assert (s + t)[1..] == t;
      assert s[1..] == [];
    } else {
      assert s + t == t;
    }
  }

  lemma {:induction false} WithoutSetTwice(s: seq<IndexPair>, a: set<IndexPair>, b: set<IndexPair>)
    ensures WithoutSet(WithoutSet(s, a), b) == WithoutSet(s, a + b)
  {
    if |s| > 0 {
      WithoutSetTwice(s[1..], a, b);
      if s[0] in a {
        assert WithoutSet(s, a) == WithoutSet(s[1..], a);
      } else {
        var rest := WithoutSet(s[1..], a);
        assert WithoutSet(s, a) == [s[0]] + rest;
        assert ([s[0]] + rest)[1..] == rest;
      }
    }
  }

  // ---------------------------------------------------------------------
  // Pruning
  // ---------------------------------------------------------------------

  /** `generateIndexPairWithOffset`: item `i` and the item `offset` further round the circle. */
  function PairWithOffset(i: nat, offset: nat, n: nat): IndexPair
    requires n > 0
  {
    Pair(i, (i + offset) % n)
  }

  /** The sorted pairs at circular offset `offset` from items 0 .. k-1. */
  function OffsetPairs(offset: nat, n: nat, k: nat): set<IndexPair>
    requires k <= n
  {
    set i | 0 <= i < k :: SortIndexPair(PairWithOffset(i, offset, n))
  }

  /** The pairs at circular offsets 1 .. p. */
  function NearPairs(n: nat, p: nat): set<IndexPair>
  {
    if p == 0 then {} else NearPairs(n, p - 1) + OffsetPairs(p, n, n)
  }

  /**
   * `removeNSpacedPairs`: for each item `i` in turn, erase the sorted pair
   * of `i` and the item `offset` places after it (circularly).
   */
  method RemoveNSpacedPairs(pairs: seq<IndexPair>, offset: nat, n: nat) returns (r: seq<IndexPair>)
    ensures r == WithoutSet(pairs, OffsetPairs(offset, n, n))
  {
    r := pairs;
    WithoutSetEmpty(pairs);
    assert OffsetPairs(offset, n, 0) == {};
    var i := 0;
    while i < n
      invariant i <= n
      invariant r == WithoutSet(pairs, OffsetPairs(offset, n, i))
    {
      var pair := SortIndexPair(PairWithOffset(i, offset, n));
      WithoutAfterWithoutSet(pairs, OffsetPairs(offset, n, i), pair);
      r := Without(r, pair);
      OffsetPairsStep(offset, n, i);
      i := i + 1;
    }
  }

  /** One more item contributes its one pair at that offset. */
  lemma OffsetPairsStep(offset: nat, n: nat, i: nat)
    requires i < n
    ensures OffsetPairs(offset, n, i + 1) == OffsetPairs(offset, n, i) + {SortIndexPair(PairWithOffset(i, offset, n))}
  {
  }

  /** `pruneVotes`: remove the pairs at offsets 1, 2, ..., iterations. */
  method PruneVotes(pairs: seq<IndexPair>, n: nat, iterations: nat) returns (r: seq<IndexPair>)
    ensures r == WithoutSet(pairs, NearPairs(n, iterations))
  {
    r := pairs;
    WithoutSetEmpty(pairs);
    var offset := 0;
    while offset < iterations
      invariant offset <= iterations
      invariant r == WithoutSet(pairs, NearPairs(n, offset))
    {
      WithoutSetTwice(pairs, NearPairs(n, offset), OffsetPairs(offset + 1, n, n));
      r := RemoveNSpacedPairs(r, offset + 1, n);
      offset := offset + 1;
    }
  }

  /**
   * `reduceVotes`: below the minimum item count the schedule is returned
   * unchanged; otherwise the pairs at offsets up to `pruningAmount(n)` go.
   */
  method ReduceVotes(pairs: seq<IndexPair>, n: nat) returns (r: seq<IndexPair>)
    ensures n < MinimumItemsForPruning ==> r == pairs
    ensures n >= MinimumItemsForPruning ==> r == WithoutSet(pairs, NearPairs(n, PruningAmount(n)))
  {
    if n < MinimumItemsForPruning {
      return pairs;
    }
    r := PruneVotes(pairs, n, PruningAmount(n));
  }

  /** The schedule a round starts with: full, or reduced when asked for and n >= 6. */
  function Schedule(n: nat, reduced: bool): seq<IndexPair>
  {
    if reduced && n >= MinimumItemsForPruning then WithoutSet(AllPairs(n), NearPairs(n, PruningAmount(n)))
    else AllPairs(n)
  }

  // ---------------------------------------------------------------------
  // What pruning removes
  // ---------------------------------------------------------------------

  /** Distance of the two ends of a matchup going the shorter way round. */
  function CircularDistance(p: IndexPair, n: nat): nat
    requires IsMatchup(p, n)
  {
    Min(p.second - p.first, n - (p.second - p.first))
  }

  lemma ModWrap(x: nat, n: nat)
    requires 0 < n && x < 2 * n
    ensures x % n == if x < n then x else x - n
  {
    if x >= n {
      assert x == n * 1 + (x - n);
    }
  }

  /** The sorted pair at offset `d` from item `i`, written without `%`. */
  lemma OffsetPairShape(i: nat, d: nat, n: nat)
    requires i < n && 1 <= d && 2 * d < n
    ensures i + d < n ==> SortIndexPair(PairWithOffset(i, d, n)) == Pair(i, i + d)
    ensures i + d >= n ==> SortIndexPair(PairWithOffset(i, d, n)) == Pair(i + d - n, i)
  {
    ModWrap(i + d, n);
  }

  /** The pairs at offset `d` are exactly the matchups at circular distance `d`. */
  lemma OffsetPairsAreDistance(d: nat, n: nat, q: IndexPair)
    requires 1 <= d && 2 * d < n
    ensures q in OffsetPairs(d, n, n) <==> IsMatchup(q, n) && CircularDistance(q, n) == d
  {
    if q in OffsetPairs(d, n, n) {
      var i :| 0 <= i < n && q == SortIndexPair(PairWithOffset(i, d, n));
      OffsetPairShape(i, d, n);
    }
    if IsMatchup(q, n) && CircularDistance(q, n) == d {
      var i := if q.second - q.first == d then q.first else q.second;
      OffsetPairShape(i, d, n);
      assert q == SortIndexPair(PairWithOffset(i, d, n));
    }
  }

  /**
   * The pairs pruned with `p` iterations are exactly the matchups whose
   * circular distance lies in 1 .. p.
   */
  lemma {:induction false} NearPairsAreClose(n: nat, p: nat, q: IndexPair)
    requires 2 * p < n
    ensures q in NearPairs(n, p) <==> IsMatchup(q, n) && CircularDistance(q, n) <= p
  {
    if p > 0 {
      NearPairsAreClose(n, p - 1, q);
      OffsetPairsAreDistance(p, n, q);
    }
    if IsMatchup(q, n) {
      assert CircularDistance(q, n) >= 1;
    }
  }

  /**
   * A reduced schedule (n >= 6) holds exactly the matchups whose circular
   * distance exceeds `pruningAmount(n)`; a full one every matchup.
   */
  lemma ScheduleMembership(n: nat, reduced: bool, q: IndexPair)
    ensures reduced && n >= MinimumItemsForPruning ==>
      (q in Schedule(n, reduced) <==> IsMatchup(q, n) && CircularDistance(q, n) > PruningAmount(n))
    ensures !(reduced && n >= MinimumItemsForPruning) ==>
      (q in Schedule(n, reduced) <==> IsMatchup(q, n))
  {
    AllPairsMembership(n, q);
    if reduced && n >= MinimumItemsForPruning {
      NearPairsAreClose(n, PruningAmount(n), q);
    }
  }

  /** No pair of neighbours (on the circle) is left in a reduced schedule. */
  lemma ReducedScheduleHasNoAdjacentPair(n: nat, q: IndexPair)
    requires n >= MinimumItemsForPruning
    requires q in Schedule(n, true)
    ensures IsMatchup(q, n)
    ensures q.second != q.first + 1
    ensures q != Pair(0, n - 1)
  {
    ScheduleMembership(n, true, q);
  }

  // ---------------------------------------------------------------------
  // How many pairs pruning removes
  // ---------------------------------------------------------------------

  lemma OffsetPairInjective(i: nat, j: nat, d: nat, n: nat)
    requires i < n && j < n && 1 <= d && 2 * d < n
    requires SortIndexPair(PairWithOffset(i, d, n)) == SortIndexPair(PairWithOffset(j, d, n))
    ensures i == j
  {
    OffsetPairShape(i, d, n);
    OffsetPairShape(j, d, n);
  }

  lemma {:induction false} OffsetPairsCount(d: nat, n: nat, k: nat)
    requires k <= n && 1 <= d && 2 * d < n
    ensures |OffsetPairs(d, n, k)| == k
  {
    if k == 0 {
      assert OffsetPairs(d, n, k) == {};
    } else {
      OffsetPairsCount(d, n, k - 1);
      var x := SortIndexPair(PairWithOffset(k - 1, d, n));
      assert OffsetPairs(d, n, k) == OffsetPairs(d, n, k - 1) + {x};
      if x in OffsetPairs(d, n, k - 1) {
        var i :| 0 <= i < k - 1 && x == SortIndexPair(PairWithOffset(i, d, n));
        OffsetPairInjective(i, k - 1, d, n);
      }
    }
  }

  /** Pruning `p` offsets names n·p different pairs. */
  lemma {:induction false} NearPairsCount(n: nat, p: nat)
    requires 2 * p < n
    ensures |NearPairs(n, p)| == n * p
  {
    if p > 0 {
      NearPairsCount(n, p - 1);
      OffsetPairsCount(p, n, n);
      NewOffsetIsDisjoint(n, p);
      DisjointUnionCount(NearPairs(n, p - 1), OffsetPairs(p, n, n));
      assert n * p == n * (p - 1) + n;
    }
  }

  lemma NewOffsetIsDisjoint(n: nat, p: nat)
    requires 1 <= p && 2 * p < n
    ensures NearPairs(n, p - 1) * OffsetPairs(p, n, n) == {}
  {
    forall q | q in NearPairs(n, p - 1)
      ensures q !in OffsetPairs(p, n, n)
    {
      NearPairsAreClose(n, p - 1, q);
      OffsetPairsAreDistance(p, n, q);
    }
  }

  lemma DisjointUnionCount<T>(a: set<T>, b: set<T>)
    requires a * b == {}
    ensures |a + b| == |a| + |b|
  {
  }

  /** Dropping a set from a list without repeats removes one entry per member present. */
  lemma {:induction false} WithoutSetCount(s: seq<IndexPair>, drop: set<IndexPair>)
    requires Distinct(s)
    ensures |WithoutSet(s, drop)| + |drop * Elements(s)| == |s|
  {
    if |s| == 0 {
      assert drop * Elements(s) == {};
    } else {
      var x, t := s[0], s[1..];
      assert s == [x] + t;
      assert x !in Elements(t) by {
        assert forall i :: 0 <= i < |t| ==> t[i] == s[i + 1];
      }
      assert Distinct(t) by {
        assert forall i :: 0 <= i < |t| ==> t[i] == s[i + 1];
      }
      WithoutSetCount(t, drop);
      WithoutSetCons(x, t, drop);
      DroppedElementsCons(x, t, drop);
    }
  }

  /** One more entry in front: kept unless dropped. */
  lemma WithoutSetCons(x: IndexPair, t: seq<IndexPair>, drop: set<IndexPair>)
    ensures |WithoutSet([x] + t, drop)| == (if x in drop then 0 else 1) + |WithoutSet(t, drop)|
  {
    assert ([x] + t)[1..] == t;
  }

  /** One more entry in front, new to the list: one more dropped member if it is dropped. */
  lemma DroppedElementsCons(x: IndexPair, t: seq<IndexPair>, drop: set<IndexPair>)
    requires x !in Elements(t)
    ensures |drop * Elements([x] + t)| == (if x in drop then 1 else 0) + |drop * Elements(t)|
  {
    assert Elements([x] + t) == {x} + Elements(t);
    if x in drop {
      assert drop * Elements([x] + t) == {x} + drop * Elements(t);
    } else {
      assert drop * Elements([x] + t) == drop * Elements(t);
    }
  }

  /**
   * A reduced schedule of n >= 6 items holds n(n-1)/2 - n·pruningAmount(n)
   * pairs.
   */
  lemma ReducedScheduleCount(n: nat)
    requires n >= MinimumItemsForPruning
    ensures |Schedule(n, true)| == |AllPairs(n)| - n * PruningAmount(n)
    ensures 2 * |Schedule(n, true)| == n * (n - 1) - 2 * (n * PruningAmount(n))
  {
    var p := PruningAmount(n);
    var all := AllPairs(n);
    AllPairsSorted(n);
    WithoutSetCount(all, NearPairs(n, p));
    NearPairsCount(n, p);
    NearPairsInAllPairs(n, p);
    AllPairsCount(n);
    assert |WithoutSet(all, NearPairs(n, p))| == |all| - n * p;
  }

  lemma NearPairsInAllPairs(n: nat, p: nat)
    requires 2 * p < n
    ensures NearPairs(n, p) * Elements(AllPairs(n)) == NearPairs(n, p)
  {
    forall q | q in NearPairs(n, p)
      ensures q in Elements(AllPairs(n))
    {
      NearPairsAreClose(n, p, q);
      AllPairsMembership(n, q);
    }
  }

  /** Every schedule lists distinct matchups. */
  lemma ScheduleDistinct(n: nat, reduced: bool)
    ensures Distinct(Schedule(n, reduced))
    ensures forall q :: q in Schedule(n, reduced) ==> IsMatchup(q, n)
  {
    AllPairsSorted(n);
    WithoutSetSorted(AllPairs(n), NearPairs(n, PruningAmount(n)));
    forall q | q in Schedule(n, reduced)
      ensures IsMatchup(q, n)
    {
      ScheduleMembership(n, reduced, q);
    }
  }

  lemma {:induction false} WithoutSetSorted(s: seq<IndexPair>, drop: set<IndexPair>)
    requires LexSorted(s)
    ensures LexSorted(WithoutSet(s, drop))
  {
    if |s| > 0 {
      WithoutSetSorted(s[1..], drop);
      var rest := WithoutSet(s[1..], drop);
      if s[0] !in drop {
        forall j | 0 <= j < |rest|
          ensures LexLess(s[0], rest[j])
        {
          assert rest[j] in s[1..];
          var k :| 0 <= k < |s[1..]| && s[1..][k] == rest[j];
          assert s[k + 1] == rest[j];
        }
      }
    }
  }
}
