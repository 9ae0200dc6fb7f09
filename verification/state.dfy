/** One undoable snapshot of a combatant's game, the fresh snapshot a deck seeds,
    and the clamped lookup into an escalating price table. */
module State {
  import opened Types

  /** A snapshot. The two counters only ever grow from zero, hence `nat`. */
  datatype GameState = GameState(
    cards: seq<Card>,
    removedCards: seq<Card>,
    duplicationCount: nat,
    conversionCount: nat,
    nextId: int,
    actionLog: seq<ActionLogEntry>,
    nextLogId: int)

  /** Every id carried by a card of `cards`. */
  function Ids(cards: seq<Card>): set<int>
  {
    set c | c in cards :: c.id
  }

  /** `Math.max` over the ids of a non-empty deck: an upper bound that some card attains. */
  function MaxId(cards: seq<Card>): (m: int)
    requires |cards| > 0
    ensures forall i :: 0 <= i < |cards| ==> cards[i].id <= m
    ensures exists i :: 0 <= i < |cards| && cards[i].id == m
  {
    if |cards| == 1 then cards[0].id
    else
      var rest := MaxId(cards[1..]);
      assert forall i :: 1 <= i < |cards| ==> cards[i] == cards[1..][i - 1];
      if cards[0].id >= rest then cards[0].id else rest
  }

  /** The fresh snapshot seeded by a deck: the deck itself (value semantics make the
      source's deep copy a plain copy), nothing removed, zero counters, an empty log,
      log ids starting at 1, and card ids continuing past the largest one in the deck.
      The deck must be non-empty: the source's maximum of no ids is not an integer. */
  function InitialGameState(deck: seq<Card>): (s: GameState)
    requires |deck| > 0
    ensures s.cards == deck
    ensures s.removedCards == [] && s.actionLog == []
    ensures s.duplicationCount == 0 && s.conversionCount == 0
    ensures s.nextLogId == 1
    ensures forall c :: c in deck ==> c.id < s.nextId
    ensures exists c :: c in deck && c.id == s.nextId - 1
  {
    GameState(deck, [], 0, 0, MaxId(deck) + 1, [], 1)
  }

  /** The index `min(count, |ladder| - 1)` the source looks up. */
  function ClampedIndex(ladder: seq<int>, count: nat): nat
    requires |ladder| > 0
  {
    if count < |ladder| - 1 then count else |ladder| - 1
  }

  /** The price of the occurrence numbered `count` (0-based): the ladder's entry at that
      position, or its last entry once the count runs past the end. */
  function LadderCost(ladder: seq<int>, count: nat): (r: int)
    requires |ladder| > 0
    ensures count < |ladder| ==> r == ladder[count]
    ensures count >= |ladder| - 1 ==> r == ladder[|ladder| - 1]
  {
    ladder[ClampedIndex(ladder, count)]
  }

  /** An escalating table: each entry is at least the one before it. */
  predicate NonDecreasing(ladder: seq<int>)
  {
    forall i :: 0 <= i < |ladder| - 1 ==> ladder[i] <= ladder[i + 1]
  }

  /** On an escalating table, each entry is at most every later one. */
  lemma {:induction false} NonDecreasingOrdered(ladder: seq<int>, i: nat, j: nat)
    requires NonDecreasing(ladder)
    requires i <= j < |ladder|
    ensures ladder[i] <= ladder[j]
    decreases j - i
  {
    if i < j {
      NonDecreasingOrdered(ladder, i + 1, j);
    }
  }

  /** On an escalating table, later occurrences never cost less. */
  lemma LadderCostMonotone(ladder: seq<int>, m: nat, n: nat)
    requires |ladder| > 0 && NonDecreasing(ladder)
    requires m <= n
    ensures LadderCost(ladder, m) <= LadderCost(ladder, n)
  {
    NonDecreasingOrdered(ladder, ClampedIndex(ladder, m), ClampedIndex(ladder, n));
  }

  /** Past the end of the table the price stays at its last entry. */
  lemma LadderCostClamps(ladder: seq<int>, m: nat, n: nat)
    requires |ladder| > 0
    requires |ladder| - 1 <= m && |ladder| - 1 <= n
    ensures LadderCost(ladder, m) == LadderCost(ladder, n) == ladder[|ladder| - 1]
  {
  }
}
