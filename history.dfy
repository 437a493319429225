/**
 * The game's move history: a list of board states and the index of the one
 * shown. Recording a state whose step does not go past the last recorded
 * one rewinds: the later entries are dropped before it is appended.
 */
module GameHistory {
  import opened TurnResolver

  function MinNat(a: nat, b: nat): nat
  {
    if a <= b then a else b
  }

  /** Whether recording `item` rewinds: the last entry's step is at least the item's. */
  predicate Rewinds(h: seq<BoardState>, item: BoardState)
  {
    h != [] && h[|h| - 1].step >= item.step
  }

  /**
   * The history after recording `item`: on a rewind, the first `item.step`
   * entries (all of them if there are fewer) followed by the item;
   * otherwise the whole history followed by the item.
   */
  function Added(h: seq<BoardState>, item: BoardState): (r: seq<BoardState>)
    ensures |r| == (if Rewinds(h, item) then MinNat(item.step, |h|) else |h|) + 1
    ensures r[|r| - 1] == item
    ensures r[..|r| - 1] == h[..|r| - 1]
  {
    if Rewinds(h, item) then h[..MinNat(item.step, |h|)] + [item] else h + [item]
  }

  /** The history after a reset: only its first entry, if any. */
  function Reset(h: seq<BoardState>): (r: seq<BoardState>)
    ensures |r| == MinNat(1, |h|)
    ensures r == h[..|r|]
  {
    h[..MinNat(1, |h|)]
  }

  /** The turn indicator shows the white piece on even indices. */
  predicate IsWhiteTurn(historyIndex: int)
  {
    historyIndex % 2 == 0
  }

  /** Entry `j` holds the state reached after `j` moves. */
  ghost predicate Indexed(h: seq<BoardState>)
  {
    forall j :: 0 <= j < |h| ==> h[j].step == j
  }

  // ---------------------------------------------------------------------
  // Properties

  /**
   * Recording the state that follows an entry of an indexed history keeps
   * it indexed, and the index set by the recording points at its last entry.
   */
  lemma AddedKeepsIndexed(h: seq<BoardState>, item: BoardState)
    requires Indexed(h) && item.step <= |h|
    ensures Indexed(Added(h, item))
    ensures item.step == |Added(h, item)| - 1
  {
    var r := Added(h, item);
    if Rewinds(h, item) {
      assert |r| == item.step + 1;
    } else {
      assert h != [] ==> item.step > |h| - 1;
    }
    forall j | 0 <= j < |r| ensures r[j].step == j {
      if j < |r| - 1 {
        assert r[j] == r[..|r| - 1][j];
      }
    }
  }

  /**
   * Going back to entry `i` and playing a move from it drops every entry
   * after `i`: the new history is the first `i + 1` entries and the new state.
   */
  lemma MoveAfterRewindDropsFuture(h: seq<BoardState>, i: nat, item: BoardState)
    requires Indexed(h) && i < |h| - 1 && item.step == i + 1
    ensures Added(h, item) == h[..i + 1] + [item]
  {
    assert h[|h| - 1].step == |h| - 1;
  }

  /** Playing on from the last entry appends and keeps every earlier entry. */
  lemma MoveAtEndAppends(h: seq<BoardState>, item: BoardState)
    requires Indexed(h) && item.step == |h|
    ensures Added(h, item) == h + [item]
  {
    if h != [] {
      assert h[|h| - 1].step == |h| - 1;
    }
  }

  /** A reset keeps an indexed history indexed and its index 0 in range when it was non-empty. */
  lemma ResetKeepsIndexed(h: seq<BoardState>)
    requires Indexed(h)
    ensures Indexed(Reset(h))
    ensures h != [] ==> |Reset(h)| == 1 && Reset(h)[0] == h[0]
  {
  }

  /** Stepping the index by one flips the colour shown, for any index. */
  lemma TurnColourAlternates(historyIndex: int)
    ensures IsWhiteTurn(historyIndex + 1) <==> !IsWhiteTurn(historyIndex)
    ensures IsWhiteTurn(0)
  {
  }

  // ---------------------------------------------------------------------
  // The hook

  /** The history hook's two state cells. */
  class History {
    var history: seq<BoardState>
    var historyIndex: int

    constructor ()
      ensures history == [] && historyIndex == 0
    {
      history := [];
      historyIndex := 0;
    }

    /** Records a board state and shows it. */
    method AddHistoryItem(nextHistoryItem: BoardState)
      modifies this
      ensures history == Added(old(history), nextHistoryItem)
      ensures historyIndex == nextHistoryItem.step
    {
      historyIndex := nextHistoryItem.step;
      if history != [] && history[|history| - 1].step >= nextHistoryItem.step {
        var keep := if nextHistoryItem.step <= |history| then nextHistoryItem.step else |history|;
        history := history[..keep] + [nextHistoryItem];
      } else {
        history := history + [nextHistoryItem];
      }
    }

    /** The "Next" button, disabled on the last entry. */
    method NextHistoryStep()
      requires historyIndex != |history| - 1
      modifies this
      ensures historyIndex == old(historyIndex) + 1 && history == old(history)
    {
      historyIndex := historyIndex + 1;
    }

    /** The "Prev" button, disabled on the first entry. */
    method PrevHistoryStep()
      requires historyIndex != 0
      modifies this
      ensures historyIndex == old(historyIndex) - 1 && history == old(history)
    {
      historyIndex := historyIndex - 1;
    }

    /** The "Reset" button: back to the first entry. */
    method ResetHistory()
      modifies this
      ensures history == Reset(old(history)) && historyIndex == 0
    {
      history := history[..if |history| < 1 then |history| else 1];
      historyIndex := 0;
    }

    /** A "Go to" button of an entry shows that entry. */
    method SetHistoryIndex(index: int)
      requires 0 <= index < |history|
      modifies this
      ensures historyIndex == index && history == old(history)
    {
      historyIndex := index;
    }
  }
}
