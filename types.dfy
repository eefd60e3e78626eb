/**
 * Value types shared by the whole model: the optional wrapper used for
 * every "may fail" result, items, votes and index pairs.
 */
module Types {

  /** A value that may be absent (`std::optional` in the program). */
  datatype Option<T> = None | Some(value: T)

  /** An item to be ranked: a line of text. */
  type Item = string

  /**
   * The option chosen in a matchup. The program calls this enum `Option`
   * with `A = 0` and `B = 1`; it is renamed here so that it does not clash
   * with the optional wrapper above.
   */
  datatype VoteOption = A | B

  /** The number written to a voting file for an option. */
  function OptionIndex(o: VoteOption): (k: nat)
    ensures k <= 1
    ensures (k == 0) == (o == A)
  {
    if o == A then 0 else 1
  }

  /** A recorded vote: the two item indices shown and the option chosen. */
  datatype Vote = Vote(a: nat, b: nat, winner: VoteOption)

  /** A scheduled matchup: two item indices. */
  datatype IndexPair = Pair(first: nat, second: nat)

  /** True when no element occurs twice. */
  predicate Distinct<T(==)>(s: seq<T>)
  {
    forall i, j :: 0 <= i < j < |s| ==> s[i] != s[j]
  }

  /** The set of elements of a sequence. */
  function Elements<T>(s: seq<T>): set<T>
  {
    set x | x in s
  }

  /**
   * A sequence has as many distinct elements as entries exactly when no
   * element occurs twice: the program's "set size differs" duplicate test.
   */
  lemma {:induction false} DistinctIffCardinality<T>(s: seq<T>)
    ensures |Elements(s)| <= |s|
    ensures |Elements(s)| == |s| <==> Distinct(s)
  {
    if |s| > 0 {
      var p, x := s[..|s| - 1], s[|s| - 1];
      DistinctIffCardinality(p);
      assert s == p + [x];
      assert Elements(s) == Elements(p) + {x};
      if x in Elements(p) {
        var i :| 0 <= i < |p| && p[i] == x;
        assert s[i] == s[|s| - 1];
      } else {
        assert Distinct(p) ==> Distinct(s) by {
          if Distinct(p) {
            forall i, j | 0 <= i < j < |s|
              ensures s[i] != s[j]
            {
              if j < |s| - 1 {
                assert s[i] == p[i] && s[j] == p[j];
              } else {
                assert s[i] == p[i];
              }
            }
          }
        }
        assert Distinct(s) ==> Distinct(p) by {
          if Distinct(s) {
            forall i, j | 0 <= i < j < |p|
              ensures p[i] != p[j]
            {
              assert s[i] == p[i] && s[j] == p[j];
            }
          }
        }
      }
    }
  }

  lemma PrefixStep<T>(s: seq<T>, i: nat)
    requires i < |s|
    ensures s[..i + 1] == s[..i] + [s[i]]
  {
  }

  lemma SplitLast<T>(s: seq<T>)
    requires |s| > 0
    ensures s == s[..|s| - 1] + [s[|s| - 1]]
  {
  }

  /** `k` copies of the character `c`, as `std::string(k, c)` builds. */
  function Repeat(c: char, k: nat): (s: string)
    ensures |s| == k
    ensures forall i :: 0 <= i < k ==> s[i] == c
  {
    seq(k, _ => c)
  }

  function Min(x: int, y: int): int { if x <= y then x else y }

  function Max(x: int, y: int): int { if x >= y then x else y }
}
