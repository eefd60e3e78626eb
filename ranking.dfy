/**
 * Rank-based voting (src/voting_round.cpp:221-345): a binary insertion
 * sort driven by the user's answers.
 *
 * The first `sorted` items are in order. The next item, `items[sorted]`,
 * is compared with the middle of the window [start, end) of places it may
 * still go to; each answer halves the window, and when it is empty the item
 * is shifted into place and the window is reset over the grown prefix.
 */
module Ranking {
  import opened Types

  // ---------------------------------------------------------------------
  // The search window as a value
  // ---------------------------------------------------------------------

  /** `start_index_`, `end_index_` and `number_of_sorted_items_`. */
  datatype Window = Window(start: nat, end: nat, sorted: nat)

  /** `RankBased::create`: one sorted item, window [0, 1). */
  const InitialWindow := Window(0, 1, 1)

  /** The window is non-empty and lies within the sorted prefix. */
  predicate ValidWindow(w: Window)
  {
    w.start < w.end <= w.sorted
  }

  /** The place in the sorted prefix the next item is compared with. */
  function Mid(w: Window): nat
  {
    (w.start + w.end) / 2
  }

  /** The window after an answer, before checking whether it closed. */
  function Narrow(w: Window, o: VoteOption): Window
  {
    if o == A then w.(start := Mid(w) + 1) else w.(end := Mid(w))
  }

  /** True when the answer leaves no choice: the item's place is known. */
  predicate Closes(w: Window, o: VoteOption)
  {
    Narrow(w, o).start >= Narrow(w, o).end
  }

  /** Where the item goes when the window closes. */
  function InsertionIndex(w: Window, o: VoteOption): nat
  {
    Narrow(w, o).start
  }

  /** The window after one vote, insertion included. */
  function WindowStep(w: Window, o: VoteOption): Window
  {
    if Closes(w, o) then Window(0, w.sorted + 1, w.sorted + 1) else Narrow(w, o)
  }

  /** The window after a whole sequence of answers. */
  function WindowAfter(ws: seq<VoteOption>): Window
  {
    if |ws| == 0 then InitialWindow
    else WindowStep(WindowAfter(ws[..|ws| - 1]), ws[|ws| - 1])
  }

  lemma WindowAfterAppend(ws: seq<VoteOption>, o: VoteOption)
    ensures WindowAfter(ws + [o]) == WindowStep(WindowAfter(ws), o)
  {
    assert (ws + [o])[..|ws|] == ws;
  }

  lemma WindowAfterPrefix(ws: seq<VoteOption>, i: nat)
    requires i < |ws|
    ensures WindowAfter(ws[..i + 1]) == WindowStep(WindowAfter(ws[..i]), ws[i])
  {
    assert ws[..i + 1][..i] == ws[..i];
  }

  /** A vote keeps the window non-empty and within the sorted prefix. */
  lemma StepKeepsWindowValid(w: Window, o: VoteOption)
    requires ValidWindow(w)
    ensures ValidWindow(WindowStep(w, o))
    ensures WindowStep(w, o).sorted == w.sorted + (if Closes(w, o) then 1 else 0)
    ensures InsertionIndex(w, o) <= w.sorted
    ensures Closes(w, o) ==> InsertionIndex(w, o) == Mid(w) + (if o == A then 1 else 0)
  {
  }

  /**
   * The window's sorted prefix fits the items, and unless every item is
   * placed there is an item being placed.
   */
  predicate Placing(w: Window, n: nat)
  {
    w.sorted < n || (w.start == 0 && w.end == w.sorted == n)
  }

  /** A vote on a window still placing an item leaves a placing window. */
  lemma StepKeepsPlacing(w: Window, o: VoteOption, n: nat)
    requires ValidWindow(w) && w.sorted < n
    ensures Placing(WindowStep(w, o), n)
  {
    StepKeepsWindowValid(w, o);
  }

  /** Every reachable window is valid. */
  lemma {:induction false} WindowAfterValid(ws: seq<VoteOption>)
    ensures ValidWindow(WindowAfter(ws))
    ensures |ws| > 0 ==> WindowAfter(ws).sorted >= 2
  {
    if |ws| > 0 {
      var prev := ws[..|ws| - 1];
      WindowAfterValid(prev);
      StepKeepsWindowValid(WindowAfter(prev), ws[|ws| - 1]);
      if |prev| == 0 {
        assert WindowAfter(prev) == InitialWindow;
      }
    }
  }

  /**
   * After a vote the window is [0, sorted) exactly when that vote inserted
   * an item: this is the test `undoVote` uses.
   */
  lemma ResetWindowMeansInserted(w: Window, o: VoteOption)
    requires ValidWindow(w)
    ensures (WindowStep(w, o).start == 0 && WindowStep(w, o).end == WindowStep(w, o).sorted)
        <==> Closes(w, o)
  {
  }

  // ---------------------------------------------------------------------
  // The recorded votes
  // ---------------------------------------------------------------------

  /** The vote recorded for an answer: the pair (mid, sorted) shown, and the answer. */
  function VoteAt(w: Window, o: VoteOption): Vote
  {
    Vote(Mid(w), w.sorted, o)
  }

  /** The votes a ranked round records for a sequence of answers. */
  function History(ws: seq<VoteOption>): (h: seq<Vote>)
    ensures |h| == |ws|
  {
    if |ws| == 0 then []
    else History(ws[..|ws| - 1]) + [VoteAt(WindowAfter(ws[..|ws| - 1]), ws[|ws| - 1])]
  }

  /** Each recorded vote names the matchup shown when it was cast. */
  lemma {:induction false} HistoryAt(ws: seq<VoteOption>, i: nat)
    requires i < |ws|
    ensures History(ws)[i] == VoteAt(WindowAfter(ws[..i]), ws[i])
  {
    if i < |ws| - 1 {
      var prev := ws[..|ws| - 1];
      HistoryAt(prev, i);
      assert prev[..i] == ws[..i];
    }
  }

  /** The answers of a list of votes. */
  function Winners(votes: seq<Vote>): (ws: seq<VoteOption>)
    ensures |ws| == |votes|
    ensures forall i :: 0 <= i < |votes| ==> ws[i] == votes[i].winner
  {
    seq(|votes|, i requires 0 <= i < |votes| => votes[i].winner)
  }

  lemma HistoryAppend(ws: seq<VoteOption>, o: VoteOption)
    ensures History(ws + [o]) == History(ws) + [VoteAt(WindowAfter(ws), o)]
  {
    assert (ws + [o])[..|ws|] == ws;
  }

  lemma WinnersAppend(votes: seq<Vote>, v: Vote)
    ensures Winners(votes + [v]) == Winners(votes) + [v.winner]
  {
  }

  /** The answers can be read back from the recorded votes. */
  lemma {:induction false} WinnersOfHistory(ws: seq<VoteOption>)
    ensures Winners(History(ws)) == ws
  {
    if |ws| > 0 {
      WinnersOfHistory(ws[..|ws| - 1]);
    }
  }

  /**
   * A later window either has a longer sorted prefix or, when no item was
   * inserted in between, lies inside the window an earlier answer left.
   */
  lemma {:induction false} LaterWindowNested(ws: seq<VoteOption>, i: nat)
    requires i < |ws|
    ensures WindowAfter(ws).sorted >= WindowAfter(ws[..i]).sorted
    ensures WindowAfter(ws).sorted == WindowAfter(ws[..i]).sorted ==>
      var n := Narrow(WindowAfter(ws[..i]), ws[i]);
      n.start <= WindowAfter(ws).start && WindowAfter(ws).end <= n.end
    decreases |ws|
  {
    var m := |ws| - 1;
    var prev := ws[..m];
    WindowAfterValid(prev);
    if i < m {
      assert prev[..i] == ws[..i] && prev[i] == ws[i];
      LaterWindowNested(prev, i);
    }
  }

  /** The insertion sort never shows the same matchup twice. */
  lemma LaterMatchupDiffers(ws: seq<VoteOption>, i: nat)
    requires i < |ws|
    ensures var w, earlier := WindowAfter(ws), WindowAfter(ws[..i]);
      Pair(Mid(w), w.sorted) != Pair(Mid(earlier), earlier.sorted)
  {
    LaterWindowNested(ws, i);
    WindowAfterValid(ws);
  }

  /** Two consecutive votes about the same item: the first did not insert it. */
  lemma SameItemMeansNoInsertion(ws: seq<VoteOption>, j: nat)
    requires j + 1 < |ws| && History(ws)[j + 1].b == History(ws)[j].b
    ensures !Closes(WindowAfter(ws[..j]), ws[j])
  {
    HistoryAt(ws, j);
    HistoryAt(ws, j + 1);
    WindowAfterValid(ws[..j]);
    WindowAfterPrefix(ws, j);
    StepKeepsWindowValid(WindowAfter(ws[..j]), ws[j]);
  }

  /**
   * The block of votes about the item being placed when the last vote was
   * cast. Its votes all name the same sorted count; the vote just before
   * the block (if any) names a smaller one. The block starts from the
   * window [0, S), and no vote inside it (except possibly the last of all)
   * inserted an item.
   */
  lemma RunStartWindow(ws: seq<VoteOption>, k: nat)
    requires 0 < |ws| && k < |ws|
    requires forall j :: k <= j < |ws| ==> History(ws)[j].b == History(ws)[|ws| - 1].b
    requires k > 0 ==> History(ws)[k - 1].b != History(ws)[|ws| - 1].b
    ensures var S := WindowAfter(ws[..|ws| - 1]).sorted;
      WindowAfter(ws[..k]) == Window(0, S, S)
    ensures forall j {:trigger Closes(WindowAfter(ws[..j]), ws[j])} :: k <= j < |ws| - 1 ==> !Closes(WindowAfter(ws[..j]), ws[j])
  {
    var m := |ws|;
    forall j | k <= j < m - 1
      ensures !Closes(WindowAfter(ws[..j]), ws[j])
    {
      SameItemMeansNoInsertion(ws, j);
    }
    assert History(ws)[k].b == History(ws)[m - 1].b;
    HistoryAt(ws, k);
    HistoryAt(ws, m - 1);
    if k == 0 {
      assert ws[..0] == [];
    } else {
      HistoryAt(ws, k - 1);
      WindowAfterValid(ws[..k - 1]);
      WindowAfterPrefix(ws, k - 1);
      StepKeepsWindowValid(WindowAfter(ws[..k - 1]), ws[k - 1]);
    }
  }

  // ---------------------------------------------------------------------
  // Moving items
  // ---------------------------------------------------------------------

  /** The item at `s` moved to `ins`, the items in between shifted up one place. */
  function Insert(items: seq<Item>, ins: nat, s: nat): (r: seq<Item>)
    requires ins <= s < |items|
    ensures |r| == |items|
  {
    items[..ins] + [items[s]] + items[ins..s] + items[s + 1..]
  }

  /** The item at `ins` moved to `s`, the items in between shifted down one place. */
  function Uninsert(items: seq<Item>, ins: nat, s: nat): (r: seq<Item>)
    requires ins <= s < |items|
    ensures |r| == |items|
  {
    items[..ins] + items[ins + 1..s + 1] + [items[ins]] + items[s + 1..]
  }

  lemma InsertAt(items: seq<Item>, ins: nat, s: nat, k: nat)
    requires ins <= s < |items| && k < |items|
    ensures Insert(items, ins, s)[k] ==
      if k < ins then items[k] else if k == ins then items[s] else if k <= s then items[k - 1] else items[k]
  {
  }

  lemma UninsertAt(items: seq<Item>, ins: nat, s: nat, k: nat)
    requires ins <= s < |items| && k < |items|
    ensures Uninsert(items, ins, s)[k] ==
      if k < ins then items[k] else if k < s then items[k + 1] else if k == s then items[ins] else items[k]
  {
  }

  /** Un-inserting undoes inserting. */
  lemma UninsertInsert(items: seq<Item>, ins: nat, s: nat)
    requires ins <= s < |items|
    ensures Uninsert(Insert(items, ins, s), ins, s) == items
  {
    var r := Uninsert(Insert(items, ins, s), ins, s);
    forall k | 0 <= k < |items|
      ensures r[k] == items[k]
    {
      UninsertAt(Insert(items, ins, s), ins, s, k);
      if k < ins {
        InsertAt(items, ins, s, k);
      } else if k < s {
        InsertAt(items, ins, s, k + 1);
      } else if k == s {
        InsertAt(items, ins, s, ins);
      } else {
        InsertAt(items, ins, s, k);
      }
    }
  }

  /** Inserting only reorders the items. */
  lemma InsertPermutes(items: seq<Item>, ins: nat, s: nat)
    requires ins <= s < |items|
    ensures multiset(Insert(items, ins, s)) == multiset(items)
  {
    assert items == items[..ins] + items[ins..s] + [items[s]] + items[s + 1..];
  }

  /** The items after one vote: moved only when the window closes. */
  function ItemsStep(items: seq<Item>, w: Window, o: VoteOption): seq<Item>
    requires ValidWindow(w) && w.sorted < |items|
  {
    StepKeepsWindowValid(w, o);
    if Closes(w, o) then Insert(items, InsertionIndex(w, o), w.sorted) else items
  }

  /** The items after undoing that vote. */
  function ItemsUndo(items: seq<Item>, w: Window, o: VoteOption): seq<Item>
    requires ValidWindow(w) && w.sorted < |items|
  {
    StepKeepsWindowValid(w, o);
    if Closes(w, o) then Uninsert(items, InsertionIndex(w, o), w.sorted) else items
  }

  /** Undoing a vote restores the items it moved. */
  lemma UndoAfterStep(items: seq<Item>, w: Window, o: VoteOption)
    requires ValidWindow(w) && w.sorted < |items|
    ensures ItemsUndo(ItemsStep(items, w, o), w, o) == items
    ensures multiset(ItemsStep(items, w, o)) == multiset(items)
  {
    StepKeepsWindowValid(w, o);
    if Closes(w, o) {
      UninsertInsert(items, InsertionIndex(w, o), w.sorted);
      InsertPermutes(items, InsertionIndex(w, o), w.sorted);
    }
  }

  lemma UninsertPermutes(items: seq<Item>, ins: nat, s: nat)
    requires ins <= s < |items|
    ensures multiset(Uninsert(items, ins, s)) == multiset(items)
  {
    assert items == items[..ins] + [items[ins]] + items[ins + 1..s + 1] + items[s + 1..];
  }

  /** Undoing a vote only reorders the items. */
  lemma UndoPermutes(items: seq<Item>, w: Window, o: VoteOption)
    requires ValidWindow(w) && w.sorted < |items|
    ensures multiset(ItemsUndo(items, w, o)) == multiset(items)
  {
    StepKeepsWindowValid(w, o);
    if Closes(w, o) {
      UninsertPermutes(items, InsertionIndex(w, o), w.sorted);
    }
  }

  /**
   * The items after replaying the answers `ws` on `items`; an answer given
   * once every item is placed moves nothing.
   */
  function ItemsAfter(items: seq<Item>, ws: seq<VoteOption>): (r: seq<Item>)
    ensures |r| == |items|
    ensures multiset(r) == multiset(items)
  {
    if |ws| == 0 then items
    else
      var prev := ItemsAfter(items, ws[..|ws| - 1]);
      var w := WindowAfter(ws[..|ws| - 1]);
      WindowAfterValid(ws[..|ws| - 1]);
      if w.sorted < |items| then
        UndoAfterStep(prev, w, ws[|ws| - 1]);
        ItemsStep(prev, w, ws[|ws| - 1])
      else prev
  }

  lemma ItemsAfterAppend(items: seq<Item>, ws: seq<VoteOption>, o: VoteOption)
    requires WindowAfter(ws).sorted < |items|
    ensures ValidWindow(WindowAfter(ws))
    ensures ItemsAfter(items, ws + [o]) == ItemsStep(ItemsAfter(items, ws), WindowAfter(ws), o)
  {
    WindowAfterValid(ws);
    assert (ws + [o])[..|ws|] == ws;
  }

  /**
   * Replaying one more recorded vote that is the matchup presented: the
   * votes so far stay the history of the answers so far, and window and
   * items take one step.
   */
  lemma ReplayStep(start: seq<Item>, votes: seq<Vote>, ws: seq<VoteOption>, i: nat)
    requires ws == Winners(votes) && i < |votes|
    requires votes[..i] == History(ws[..i])
    requires WindowAfter(ws[..i]).sorted < |start|
    requires votes[i] == VoteAt(WindowAfter(ws[..i]), ws[i])
    ensures ValidWindow(WindowAfter(ws[..i]))
    ensures votes[..i + 1] == History(ws[..i + 1])
    ensures WindowAfter(ws[..i + 1]) == WindowStep(WindowAfter(ws[..i]), ws[i])
    ensures Placing(WindowAfter(ws[..i + 1]), |start|)
    ensures ItemsAfter(start, ws[..i + 1]) == ItemsStep(ItemsAfter(start, ws[..i]), WindowAfter(ws[..i]), ws[i])
  {
    var w := WindowAfter(ws[..i]);
    WindowAfterValid(ws[..i]);
    PrefixStep(ws, i);
    PrefixStep(votes, i);
    HistoryAppend(ws[..i], ws[i]);
    WindowAfterAppend(ws[..i], ws[i]);
    StepKeepsPlacing(w, ws[i], |start|);
    ItemsAfterAppend(start, ws[..i], ws[i]);
  }

  /**
   * Dropping the last recorded vote: the remaining votes are the history
   * of the remaining answers, and undoing the last answer on the items
   * gives the items those answers produce.
   */
  lemma UndoLastAnswer(start: seq<Item>, votes: seq<Vote>)
    requires |votes| > 0 && votes == History(Winners(votes))
    requires WindowAfter(Winners(votes)[..|votes| - 1]).sorted < |start|
    ensures var ws, shorter := Winners(votes), votes[..|votes| - 1];
      Winners(shorter) == ws[..|ws| - 1] && shorter == History(Winners(shorter)) &&
      ValidWindow(WindowAfter(Winners(shorter))) &&
      ItemsUndo(ItemsAfter(start, ws), WindowAfter(Winners(shorter)), ws[|ws| - 1]) ==
        ItemsAfter(start, Winners(shorter))
  {
    var ws := Winners(votes);
    var m := |votes|;
    var shorter, o := ws[..m - 1], ws[m - 1];
    assert shorter + [o] == ws;
    assert Winners(votes[..m - 1]) == shorter;
    assert History(ws) == History(shorter) + [VoteAt(WindowAfter(shorter), o)];
    ItemsAfterAppend(start, shorter, o);
    UndoAfterStep(ItemsAfter(start, shorter), WindowAfter(shorter), o);
  }

  // ---------------------------------------------------------------------
  // Sorting under consistent answers
  // ---------------------------------------------------------------------

  /** No two items share a key. */
  predicate KeysDistinct(items: seq<Item>, key: Item -> int)
  {
    forall i, j :: 0 <= i < |items| && 0 <= j < |items| && i != j ==> key(items[i]) != key(items[j])
  }

  /** The answer a user gives who prefers smaller keys first. */
  function ConsistentAnswer(items: seq<Item>, w: Window, key: Item -> int): VoteOption
    requires Mid(w) < |items| && w.sorted < |items|
  {
    if key(items[Mid(w)]) < key(items[w.sorted]) then A else B
  }

  /**
   * The binary-search invariant: the sorted prefix is increasing, and the
   * item being placed belongs after everything before the window and
   * before everything from its end.
   */
  predicate RankInvariant(items: seq<Item>, w: Window, key: Item -> int)
  {
    w.start <= w.sorted <= |items| &&
    (forall i, j :: 0 <= i < j < w.sorted ==> key(items[i]) < key(items[j])) &&
    (w.sorted < |items| ==>
      (forall i :: 0 <= i < w.start ==> key(items[i]) < key(items[w.sorted])) &&
      (forall i :: w.end <= i < w.sorted ==> key(items[w.sorted]) < key(items[i])))
  }

  lemma InitialRankInvariant(items: seq<Item>, key: Item -> int)
    requires |items| >= 1
    ensures RankInvariant(items, InitialWindow, key)
  {
  }

  lemma InsertKeepsKeysDistinct(items: seq<Item>, ins: nat, s: nat, key: Item -> int)
    requires ins <= s < |items| && KeysDistinct(items, key)
    ensures KeysDistinct(Insert(items, ins, s), key)
  {
    var r := Insert(items, ins, s);
    forall i, j | 0 <= i < |r| && 0 <= j < |r| && i != j
      ensures key(r[i]) != key(r[j])
    {
      InsertAt(items, ins, s, i);
      InsertAt(items, ins, s, j);
    }
  }

  /**
   * A consistent answer keeps the binary-search invariant, and the keys
   * stay distinct.
   */
  lemma ConsistentStepKeepsOrder(items: seq<Item>, w: Window, key: Item -> int)
    requires ValidWindow(w) && w.sorted < |items|
    requires KeysDistinct(items, key) && RankInvariant(items, w, key)
    ensures var o := ConsistentAnswer(items, w, key);
      RankInvariant(ItemsStep(items, w, o), WindowStep(w, o), key) &&
      KeysDistinct(ItemsStep(items, w, o), key)
  {
    var o := ConsistentAnswer(items, w, key);
    var s := w.sorted;
    StepKeepsWindowValid(w, o);
    ConsistentAnswerBounds(items, w, key);
    if Closes(w, o) {
      InsertKeepsOrder(items, InsertionIndex(w, o), s, key);
    }
  }

  /** After a consistent answer, the item still belongs within the narrowed window. */
  lemma ConsistentAnswerBounds(items: seq<Item>, w: Window, key: Item -> int)
    requires ValidWindow(w) && w.sorted < |items|
    requires KeysDistinct(items, key) && RankInvariant(items, w, key)
    ensures var n := Narrow(w, ConsistentAnswer(items, w, key));
      (forall i :: 0 <= i < n.start ==> key(items[i]) < key(items[w.sorted])) &&
      (forall i :: n.end <= i < w.sorted ==> key(items[w.sorted]) < key(items[i]))
  {
    var m, s := Mid(w), w.sorted;
    if ConsistentAnswer(items, w, key) == A {
      forall i | 0 <= i <= m
        ensures key(items[i]) < key(items[s])
      {
        if i < m {
          assert key(items[i]) < key(items[m]);
        }
      }
    } else {
      assert key(items[m]) != key(items[s]);
      forall i | m <= i < s
        ensures key(items[s]) < key(items[i])
      {
        if i > m {
          assert key(items[m]) < key(items[i]);
        }
      }
    }
  }

  /**
   * Inserting the item at `s` at a place where it is above everything
   * before and below everything after extends the increasing prefix.
   */
  lemma InsertKeepsOrder(items: seq<Item>, ins: nat, s: nat, key: Item -> int)
    requires ins <= s < |items| && KeysDistinct(items, key)
    requires forall i, j :: 0 <= i < j < s ==> key(items[i]) < key(items[j])
    requires forall i :: 0 <= i < ins ==> key(items[i]) < key(items[s])
    requires forall i :: ins <= i < s ==> key(items[s]) < key(items[i])
    ensures var r := Insert(items, ins, s);
      KeysDistinct(r, key) &&
      (forall i, j :: 0 <= i < j < s + 1 ==> key(r[i]) < key(r[j])) &&
      (forall k :: s + 1 <= k < |items| ==> r[k] == items[k])
  {
    var r := Insert(items, ins, s);
    InsertKeepsKeysDistinct(items, ins, s, key);
    forall i, j | 0 <= i < j < s + 1
      ensures key(r[i]) < key(r[j])
    {
      InsertAt(items, ins, s, i);
      InsertAt(items, ins, s, j);
    }
    forall k | s + 1 <= k < |items|
      ensures r[k] == items[k]
    {
      InsertAt(items, ins, s, k);
    }
  }

  /** Once every item is placed, the items are in increasing key order. */
  lemma FinishedRankIsSorted(items: seq<Item>, w: Window, key: Item -> int)
    requires RankInvariant(items, w, key) && w.sorted == |items|
    ensures forall i, j :: 0 <= i < j < |items| ==> key(items[i]) < key(items[j])
  {
  }

  /** Moves `items[s]` to place `ins`, shifting the items between up one place. */
  method ShiftIn(items: array<Item>, ins: nat, s: nat)
    requires ins <= s < items.Length
    modifies items
    ensures items[..] == Insert(old(items[..]), ins, s)
  {
    var item := items[s];
    var i := s;
    while i > ins
      invariant ins <= i <= s
      invariant forall k :: 0 <= k < items.Length ==>
        items[k] == if i < k <= s then old(items[k - 1]) else old(items[k])
    {
      items[i] := items[i - 1];
      i := i - 1;
    }
    items[ins] := item;
    forall k | 0 <= k < items.Length
      ensures items[k] == Insert(old(items[..]), ins, s)[k]
    {
      InsertAt(old(items[..]), ins, s, k);
    }
  }

  /** Moves `items[ins]` to place `s`, shifting the items between down one place. */
  method ShiftOut(items: array<Item>, ins: nat, s: nat)
    requires ins <= s < items.Length
    modifies items
    ensures items[..] == Uninsert(old(items[..]), ins, s)
  {
    var item := items[ins];
    var k := ins;
    while k < s
      invariant ins <= k <= s
      invariant forall j :: 0 <= j < items.Length ==>
        items[j] == if ins <= j < k then old(items[j + 1]) else old(items[j])
    {
      items[k] := items[k + 1];
      k := k + 1;
    }
    items[s] := item;
    forall j | 0 <= j < items.Length
      ensures items[j] == Uninsert(old(items[..]), ins, s)[j]
    {
      UninsertAt(old(items[..]), ins, s, j);
    }
  }

  // ---------------------------------------------------------------------
  // The ranked state as an object
  // ---------------------------------------------------------------------

  /** `VotingRound::RankBased`: the window fields, updated in place. */
  class RankBased {
    var startIndex: nat
    var endIndex: nat
    var sortedCount: nat

    function CurrentWindow(): Window
      reads this
    {
      Window(startIndex, endIndex, sortedCount)
    }

    predicate Valid()
      reads this
    {
      ValidWindow(CurrentWindow())
    }

    /** `RankBased::create`. */
    constructor ()
      ensures CurrentWindow() == InitialWindow
    {
      startIndex := 0;
      sortedCount := 1;
      endIndex := 1;
    }

    /** `currentIndexPair`: the middle of the window and the item being placed. */
    function CurrentIndexPair(): (p: IndexPair)
      reads this
      requires Valid()
      ensures p.first < p.second == sortedCount
      ensures startIndex <= p.first < endIndex
    {
      Pair(Mid(CurrentWindow()), sortedCount)
    }

    /**
     * `RankBased::vote`: narrow the window; when it closes, shift
     * `items[sorted]` into place and reset the window over the longer
     * sorted prefix.
     */
    method Vote(items: array<Item>, option: VoteOption)
      requires Valid() && sortedCount < items.Length
      modifies this, items
      ensures Valid()
      ensures CurrentWindow() == WindowStep(old(CurrentWindow()), option)
      ensures items[..] == ItemsStep(old(items[..]), old(CurrentWindow()), option)
    {
      ghost var w := CurrentWindow();
      StepKeepsWindowValid(w, option);
      var mid := (startIndex + endIndex) / 2;
      if option == A {
        startIndex := mid + 1;
      } else {
        endIndex := mid;
      }
      if startIndex < endIndex {
        return;
      }
      var ins := startIndex;
      assert ins == InsertionIndex(w, option) && sortedCount == w.sorted;
      ShiftIn(items, ins, sortedCount);
      sortedCount := sortedCount + 1;
      startIndex := 0;
      endIndex := sortedCount;
    }

    /**
     * `RankBased::undoVote`. Fails with no votes (equivalently, with a
     * single sorted item). Otherwise it rebuilds the window from the votes
     * about the item being placed and, if the last vote inserted an item,
     * moves that item back out of the sorted prefix.
     */
    method UndoVote(items: array<Item>, votes: seq<Vote>, ghost ws: seq<VoteOption>) returns (undone: bool)
      requires votes == History(ws) && CurrentWindow() == WindowAfter(ws)
      requires Placing(CurrentWindow(), items.Length)
      modifies this, items
      ensures undone <==> |ws| > 0
      ensures !undone ==> CurrentWindow() == old(CurrentWindow()) && items[..] == old(items[..])
      ensures undone ==> CurrentWindow() == WindowAfter(ws[..|ws| - 1])
      ensures undone ==> ValidWindow(CurrentWindow()) && sortedCount < items.Length
      ensures undone ==> items[..] == ItemsUndo(old(items[..]), CurrentWindow(), ws[|ws| - 1])
    {
      WindowAfterValid(ws);
      if sortedCount == 1 || |votes| == 0 {
        return false;
      }
      var m := |votes|;
      ghost var w := WindowAfter(ws[..m - 1]);
      ghost var o := ws[m - 1];
      WindowAfterValid(ws[..m - 1]);
      WindowAfterPrefix(ws, m - 1);
      assert ws[..m] == ws;
      StepKeepsWindowValid(w, o);
      ResetWindowMeansInserted(w, o);
      var inserted := startIndex == 0 && endIndex == sortedCount;

      // The votes about the item being placed form a block at the end.
      var target := votes[m - 1].b;
      var first := m - 1;
      while first > 0 && votes[first - 1].b == target
        invariant 0 <= first <= m - 1
        invariant forall j :: first <= j < m ==> votes[j].b == target
      {
        first := first - 1;
      }
      RunStartWindow(ws, first);
      WinnersOfHistory(ws);

      if inserted {
        sortedCount := sortedCount - 1;
      }
      startIndex := 0;
      endIndex := sortedCount;
      Replay(votes, ws, first);
      assert CurrentWindow() == w;
      if inserted {
        assert votes[m - 1].winner == o;
        var ins := (startIndex + endIndex) / 2 + (if votes[m - 1].winner == A then 1 else 0);
        assert Closes(w, o) && ins == InsertionIndex(w, o) && sortedCount == w.sorted;
        ShiftOut(items, ins, sortedCount);
        assert items[..] == ItemsUndo(old(items[..]), w, o);
      } else {
        assert items[..] == ItemsUndo(old(items[..]), w, o);
      }
      return true;
    }

    /** Re-applies the votes `votes[first..|votes| - 1]`, none of which inserted an item. */
    method Replay(votes: seq<Vote>, ghost ws: seq<VoteOption>, first: nat)
      requires Winners(votes) == ws && first < |ws|
      requires CurrentWindow() == WindowAfter(ws[..first])
      requires forall j {:trigger Closes(WindowAfter(ws[..j]), ws[j])} :: first <= j < |ws| - 1 ==> !Closes(WindowAfter(ws[..j]), ws[j])
      modifies this
      ensures CurrentWindow() == WindowAfter(ws[..|ws| - 1])
    {
      var i := first;
      while i < |votes| - 1
        invariant first <= i <= |votes| - 1
        invariant CurrentWindow() == WindowAfter(ws[..i])
      {
        assert WindowAfter(ws[..i + 1]) == Narrow(CurrentWindow(), votes[i].winner) by {
          WindowAfterPrefix(ws, i);
          assert !Closes(WindowAfter(ws[..i]), ws[i]);
        }
        var mid := (startIndex + endIndex) / 2;
        if votes[i].winner == A {
          startIndex := mid + 1;
        } else {
          endIndex := mid;
        }
        i := i + 1;
      }
    }
  }
}
