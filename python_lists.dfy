/**
 * The Python list operations the test-registration scripts use on a
 * file's lines: `del xs[i:j]` and the insertion `xs[i:i] = block`, with
 * Python's slice bounds (a negative bound counts from the end, a bound
 * out of range is clamped).
 */
module PythonLists {
  /** Python's reading of the slice bound `i` on a list of length `n`. */
  function SliceBound(i: int, n: nat): (k: nat)
    ensures k <= n
    ensures 0 <= i <= n ==> k == i
  {
    if i < 0 then (if n + i < 0 then 0 else n + i)
    else if i > n then n
    else i
  }

  /** `del xs[i:j]`. */
  function DeleteSlice<T>(xs: seq<T>, i: int, j: int): seq<T>
  {
    var a, b := SliceBound(i, |xs|), SliceBound(j, |xs|);
    if a < b then xs[..a] + xs[b..] else xs
  }

  /** `xs[i:i] = block`. */
  function InsertSlice<T>(xs: seq<T>, i: int, block: seq<T>): seq<T>
  {
    var a := SliceBound(i, |xs|);
    xs[..a] + block + xs[a..]
  }

  /**
   * The elements before `start`, then `block`, then the elements from
   * `stop` on; when `stop` comes before `start` nothing is dropped.
   */
  function Replace<T>(xs: seq<T>, start: nat, stop: nat, block: seq<T>): seq<T>
    requires start <= |xs| && stop <= |xs|
  {
    xs[..start] + block + xs[if start < stop then stop else start..]
  }

  /** A block spliced into a list can be cut back out at the same place. */
  lemma SpliceParts<T>(xs: seq<T>, a: nat, c: nat, e: seq<T>, r: seq<T>)
    requires a <= c <= |xs| && r == xs[..a] + e + xs[c..]
    ensures r[..a] == xs[..a] && r[a + |e|..] == xs[c..]
    ensures r[..a] + e + r[a + |e|..] == r
  {
  }

  /**
   * Deleting `xs[i:j]` and then inserting `block` at `i` replaces that
   * slice by `block`, when `i` counts from the front or nothing is
   * deleted (a bound counting from the end moves once the list shrinks).
   */
  lemma DeleteThenInsert<T>(xs: seq<T>, i: int, j: int, block: seq<T>)
    requires i >= 0 || SliceBound(j, |xs|) <= SliceBound(i, |xs|)
    ensures InsertSlice(DeleteSlice(xs, i, j), i, block)
         == Replace(xs, SliceBound(i, |xs|), SliceBound(j, |xs|), block)
  {
    var a, b := SliceBound(i, |xs|), SliceBound(j, |xs|);
    if a < b {
      var d := xs[..a] + xs[b..];
      assert SliceBound(i, |d|) == a;
      assert d[..a] == xs[..a] && d[a..] == xs[b..];
    }
  }
}
