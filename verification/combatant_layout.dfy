/** A combatant's undo history and the actions that extend, shorten or replace it.
    Every logged action computes the old score, applies its partial update, computes
    the new score, logs the difference (or a forced value) and appends exactly one
    snapshot; undo drops the last snapshot, reset starts over from a fresh one. */
module CombatantLayout {
  import opened Types
  import opened State
  import opened Score
  import opened Actions
  import Database

  // ---------------------------------------------------------------------------
  // Invariants of a history
  // ---------------------------------------------------------------------------

  /** The snapshot the calculator shows. */
  function Last(h: seq<GameState>): GameState
    requires |h| > 0
  {
    h[|h| - 1]
  }

  /** The ids of the first snapshot's cards: the cards that were dealt, not added. */
  function InitialCardIds(h: seq<GameState>): set<int>
    requires |h| > 0
  {
    Ids(h[0].cards)
  }

  /** The snapshot at position `k` has logged `k` actions, numbered 1 to `k`, and will
      number the next one `k + 1`. */
  predicate LogAt(s: GameState, k: nat)
  {
    && |s.actionLog| == k
    && s.nextLogId == k + 1
    && forall j :: 0 <= j < k ==> s.actionLog[j].id == j + 1
  }

  /** Every card id, active or removed, lies below the next id to hand out. */
  predicate IdsBelowNext(s: GameState)
  {
    && (forall c :: c in s.cards ==> c.id < s.nextId)
    && (forall c :: c in s.removedCards ==> c.id < s.nextId)
  }

  /** A later snapshot keeps the earlier one's log and removed cards as prefixes and
      never hands out a smaller id. */
  predicate Grows(s: GameState, t: GameState)
  {
    s.actionLog <= t.actionLog && s.removedCards <= t.removedCards && s.nextId <= t.nextId
  }

  /** What every history of the calculator satisfies. */
  predicate HistoryValid(h: seq<GameState>)
  {
    && |h| > 0
    && (forall k :: 0 <= k < |h| ==> LogAt(h[k], k))
    && (forall k :: 0 <= k < |h| ==> IdsBelowNext(h[k]))
    && (forall i, j :: 0 <= i <= j < |h| ==> Grows(h[i], h[j]))
    && (DistinctIds(h[0].cards) ==> forall k :: 0 <= k < |h| ==> DistinctIds(h[k].cards))
  }

  /** What an updater must keep for the history to stay valid: removed cards are only
      appended to, the id counter never goes back, every id stays below it, and the
      active cards keep distinct ids when they had them. */
  predicate IdsAdvance(s: GameState, t: GameState)
  {
    && s.removedCards <= t.removedCards
    && s.nextId <= t.nextId
    && IdsBelowNext(t)
    && (DistinctIds(s.cards) ==> DistinctIds(t.cards))
  }

  /** Undo: drop the last snapshot, unless it is the only one. */
  function Undo(h: seq<GameState>): (r: seq<GameState>)
    requires |h| > 0
    ensures |r| > 0
    ensures |h| > 1 ==> r == h[..|h| - 1]
    ensures |h| == 1 ==> r == h
  {
    if |h| > 1 then h[..|h| - 1] else h
  }

  /** The combatant with the selected id, the first one if several share it. */
  function FindCombatant(combatants: seq<Combatant>, id: string): (r: Option<Combatant>)
    ensures r.None? <==> forall i :: 0 <= i < |combatants| ==> combatants[i].id != id
    ensures r.Some? ==> r.value.id == id && r.value in combatants
    ensures r.Some? ==> exists i :: 0 <= i < |combatants| && combatants[i] == r.value
                                    && forall j :: 0 <= j < i ==> combatants[j].id != id
  {
    if combatants == [] then None
    else if combatants[0].id == id then Some(combatants[0])
    else
      var r := FindCombatant(combatants[1..], id);
      assert forall i :: 1 <= i < |combatants| ==> combatants[i] == combatants[1..][i - 1];
      if r.Some? then
        assert exists i :: 0 <= i < |combatants| && combatants[i] == r.value
                           && forall j :: 0 <= j < i ==> combatants[j].id != id by {
          var k :| 0 <= k < |combatants| - 1 && combatants[1..][k] == r.value
                   && forall j :: 0 <= j < k ==> combatants[1..][j].id != id;
          assert combatants[k + 1] == r.value;
          assert forall j :: 0 <= j < k + 1 ==> combatants[j].id != id;
        }
        r
      else r
  }

  /** The deck a reset starts from: the selected combatant's, or the default deck when
      no combatant has the selected id. */
  function SeedDeck(combatants: seq<Combatant>, selectedId: string,
                    generate: (string, string) -> string): (deck: seq<Card>)
    ensures FindCombatant(combatants, selectedId).Some? ==> deck == FindCombatant(combatants, selectedId).value.deck
    ensures FindCombatant(combatants, selectedId).None? ==> deck == Database.DefaultDeck(generate)
  {
    match FindCombatant(combatants, selectedId)
    case Some(c) => c.deck
    case None => Database.DefaultDeck(generate)
  }

  // ---------------------------------------------------------------------------
  // Lemmas about histories
  // ---------------------------------------------------------------------------

  /** A fresh one-snapshot history is valid. */
  lemma InitialHistoryValid(deck: seq<Card>)
    requires |deck| > 0
    ensures HistoryValid([InitialGameState(deck)])
  {
    var s := InitialGameState(deck);
    assert LogAt(s, 0);
    assert IdsBelowNext(s);
  }

  /** The number of log entries is always one less than the number of snapshots. */
  lemma LogLengthMatchesHistory(h: seq<GameState>)
    requires HistoryValid(h)
    ensures |Last(h).actionLog| == |h| - 1
    ensures Last(h).nextLogId == |h|
  {
    assert LogAt(h[|h| - 1], |h| - 1);
  }

  /** The next id exceeds every id that ever appeared in the history, active or removed,
      in any snapshot; in particular it is none of the dealt cards' ids. */
  lemma NextIdIsFresh(h: seq<GameState>)
    requires HistoryValid(h)
    ensures forall k, c :: 0 <= k < |h| && c in h[k].cards ==> c.id < Last(h).nextId
    ensures forall k, c :: 0 <= k < |h| && c in h[k].removedCards ==> c.id < Last(h).nextId
    ensures Last(h).nextId !in InitialCardIds(h)
  {
    forall k | 0 <= k < |h|
      ensures IdsBelowNext(h[k]) && h[k].nextId <= Last(h).nextId
    {
      assert Grows(h[k], h[|h| - 1]);
    }
  }

  /** When the dealt cards have distinct ids, so do the cards in play at every later
      point, which is what the per-action point lemmas of the updaters ask for. */
  lemma CurrentIdsDistinct(h: seq<GameState>)
    requires HistoryValid(h) && DistinctIds(h[0].cards)
    ensures DistinctIds(Last(h).cards)
  {
    assert 0 <= |h| - 1 < |h|;
  }

  /** Appending a logged snapshot whose updater kept the ids in order keeps the history
      valid. */
  lemma StepKeepsValid(h: seq<GameState>, t: GameState, e: ActionLogEntry)
    requires HistoryValid(h)
    requires IdsAdvance(Last(h), t)
    requires t.actionLog == Last(h).actionLog + [e] && e.id == Last(h).nextLogId
    requires t.nextLogId == Last(h).nextLogId + 1
    ensures HistoryValid(h + [t])
  {
    var s := Last(h);
    var h' := h + [t];
    assert LogAt(s, |h| - 1);
    assert LogAt(t, |h|) by {
      forall j | 0 <= j < |h|
        ensures t.actionLog[j].id == j + 1
      {
        if j < |h| - 1 {
          assert t.actionLog[j] == s.actionLog[j];
        }
      }
    }
    assert s.actionLog <= t.actionLog;
    forall k | 0 <= k < |h'|
      ensures LogAt(h'[k], k) && IdsBelowNext(h'[k])
    {
      if k < |h| { assert h'[k] == h[k]; }
    }
    forall i, j | 0 <= i <= j < |h'|
      ensures Grows(h'[i], h'[j])
    {
      if j < |h| {
        assert h'[i] == h[i] && h'[j] == h[j];
      } else if i < |h| {
        assert Grows(h[i], s);
        PrefixTransitive(h[i].actionLog, s.actionLog, t.actionLog);
        PrefixTransitive(h[i].removedCards, s.removedCards, t.removedCards);
      }
    }
    if DistinctIds(h'[0].cards) {
      assert h'[0] == h[0];
      forall k | 0 <= k < |h'|
        ensures DistinctIds(h'[k].cards)
      {
        if k < |h| { assert h'[k] == h[k]; }
      }
    }
  }

  lemma PrefixTransitive<T>(a: seq<T>, b: seq<T>, c: seq<T>)
    requires a <= b && b <= c
    ensures a <= c
  {
    assert a == b[..|a|] && b == c[..|b|];
    assert c[..|b|][..|a|] == c[..|a|];
  }

  /** Undo keeps the history valid, and undoing right after appending a snapshot gives
      back exactly the history before it. */
  lemma UndoKeepsValid(h: seq<GameState>, t: GameState)
    requires HistoryValid(h)
    ensures HistoryValid(Undo(h))
    ensures Undo(h + [t]) == h
  {
    assert (h + [t])[..|h|] == h;
    var r := Undo(h);
    forall i, j | 0 <= i <= j < |r| ensures Grows(r[i], r[j]) {
      assert r[i] == h[i] && r[j] == h[j];
    }
    forall k | 0 <= k < |r| ensures LogAt(r[k], k) && IdsBelowNext(r[k]) {
      assert r[k] == h[k];
    }
    if DistinctIds(r[0].cards) {
      forall k | 0 <= k < |r| ensures DistinctIds(r[k].cards) {
        assert r[k] == h[k];
      }
    }
  }

  // ---------------------------------------------------------------------------
  // Each updater keeps the ids in order
  // ---------------------------------------------------------------------------

  /** Appending a card that carries the next id, and advancing the counter. */
  lemma AppendWithNextIdAdvances(s: GameState, c: Card, ch: Changes)
    requires IdsBelowNext(s)
    requires c.id == s.nextId
    requires ch == Changes(Some(s.cards + [c]), None, ch.duplicationCount, None, Some(s.nextId + 1))
    ensures IdsAdvance(s, Merge(s, ch))
  {
    var t := Merge(s, ch);
    forall c' | c' in t.cards ensures c'.id < t.nextId {
      if c' != c { assert c' in s.cards; }
    }
    if DistinctIds(s.cards) {
      forall i, j | 0 <= i < j < |t.cards| ensures t.cards[i].id != t.cards[j].id {
        assert t.cards[i] == s.cards[i];
        assert s.cards[i] in s.cards;
        if j < |s.cards| {
          assert t.cards[j] == s.cards[j];
        }
      }
    }
  }

  /** Replacing cards by cards with the same id. */
  lemma ReplaceKeepsIds(s: GameState, id: int, e: Edit, ch: Changes)
    requires IdsBelowNext(s)
    requires e.SetTo? ==> e.card.id == id
    requires ch == Changes(Some(ReplaceWhere(s.cards, id, e)), None, None, ch.conversionCount, None)
    ensures IdsAdvance(s, Merge(s, ch))
  {
    var t := Merge(s, ch);
    forall c | c in t.cards ensures c.id < t.nextId {
      var i :| 0 <= i < |t.cards| && t.cards[i] == c;
      assert s.cards[i] in s.cards;
    }
  }

  /** A filter keeps ids distinct. */
  lemma {:induction false} FilterOutFacts(cards: seq<Card>, id: int)
    ensures DistinctIds(cards) ==> DistinctIds(FilterOut(cards, id))
    decreases |cards|
  {
    if cards != [] {
      var init := cards[..|cards| - 1];
      var last := cards[|cards| - 1];
      FilterOutFacts(init, id);
      var r0 := FilterOut(init, id);
      assert forall c :: c in init ==> c in cards;
      if last.id == id {
        assert FilterOut(cards, id) == r0 + [] == r0;
        assert DistinctIds(cards) ==> DistinctIds(init);
      } else {
        var r := r0 + [last];
        assert FilterOut(cards, id) == r;
        if DistinctIds(cards) {
          assert DistinctIds(init);
          forall i, j | 0 <= i < j < |r| ensures r[i].id != r[j].id {
            if j == |r| - 1 {
              assert r[i] in init;
              var m :| 0 <= m < |init| && init[m] == r[i];
              assert cards[m] == r[i];
            } else {
              assert r[i] == r0[i] && r[j] == r0[j];
            }
          }
        }
      }
    }
  }

  /** Dropping cards from play, and possibly appending an active card to the removed ones. */
  lemma FilterKeepsIds(s: GameState, id: int, removed: Option<Card>, ch: Changes)
    requires IdsBelowNext(s)
    requires removed.Some? ==> removed.value in s.cards
    requires ch == Changes(Some(FilterOut(s.cards, id)),
                           if removed.Some? then Some(s.removedCards + [removed.value]) else None,
                           None, None, None)
    ensures IdsAdvance(s, Merge(s, ch))
  {
    FilterOutFacts(s.cards, id);
    var t := Merge(s, ch);
    if removed.Some? {
      assert s.removedCards <= t.removedCards;
      forall c' | c' in t.removedCards ensures c'.id < t.nextId {
        if c' != removed.value { assert c' in s.removedCards; }
      }
    }
  }

  /** The card `Find` returns is one of the searched cards. */
  lemma FoundIsIn(cards: seq<Card>, id: int)
    requires Find(cards, id).Some?
    ensures Find(cards, id).value in cards
  {
    var i :| 0 <= i < |cards| && cards[i] == Find(cards, id).value && Find(cards, id).value.id == id
             && forall j :: 0 <= j < i ==> cards[j].id != id;
  }

  // ---------------------------------------------------------------------------
  // A combatant's history
  // ---------------------------------------------------------------------------

  class CombatantHistory {
    /** The snapshots, oldest first; the last one is shown. */
    var history: seq<GameState>
    /** The point values and ladders the score is computed with. */
    const rules: Rules

    ghost predicate Valid()
      reads this
    {
      rules.Valid() && HistoryValid(history)
    }

    function Current(): GameState
      reads this
      requires |history| > 0
    {
      Last(history)
    }

    function InitialIds(): set<int>
      reads this
      requires |history| > 0
    {
      InitialCardIds(history)
    }

    /** A slot seeded with a fresh snapshot of the deck. */
    constructor (rules: Rules, deck: seq<Card>)
      requires rules.Valid() && |deck| > 0
      ensures Valid()
      ensures this.rules == rules && history == [InitialGameState(deck)]
    {
      this.rules := rules;
      history := [InitialGameState(deck)];
      new;
      InitialHistoryValid(deck);
    }

    /** The shared logging step: score before, apply the partial update, score after,
        log the difference (or the forced points) and append the one new snapshot. */
    method UpdateGameStateAndLog(updater: GameState -> Changes, description: Description, overridePoints: Option<int>)
      requires Valid()
      requires IdsAdvance(Current(), Merge(Current(), updater(Current())))
      modifies this
      ensures Valid()
      ensures history == old(history) + [LogStep(rules, old(InitialIds()), old(Current()),
                                                 updater(old(Current())), description, overridePoints)]
    {
      var oldState := history[|history| - 1];
      var initialCardIds := Ids(history[0].cards);
      var oldScore := CalculateTotalScore(rules, oldState, initialCardIds);
      var changes := updater(oldState);
      var tempNewState := Merge(oldState, changes);
      var newScore := CalculateTotalScore(rules, tempNewState, initialCardIds);
      var pointChange := if overridePoints.Some? then overridePoints.value else newScore - oldScore;
      var newLogEntry := ActionLogEntry(oldState.nextLogId, description, pointChange);
      var finalState := tempNewState.(actionLog := oldState.actionLog + [newLogEntry],
                                      nextLogId := oldState.nextLogId + 1);
      assert finalState == LogStep(rules, initialCardIds, oldState, changes, description, overridePoints);
      StepKeepsValid(history, finalState, newLogEntry);
      history := history + [finalState];
    }

    /** Add a fresh card of a kind. It takes the next id, which no dealt card has, so the
        log records the kind's addition points. */
    method HandleAddCard(t: CardType)
      requires Valid()
      modifies this
      ensures Valid()
      ensures history == old(history) + [LogStep(rules, old(InitialIds()), old(Current()),
                                                 AddCardChanges(old(Current()), t), AddCardText(t), None)]
      ensures Current().cards == old(Current().cards) + [NewCard(old(Current().nextId), t)]
      ensures Current().nextId == old(Current().nextId) + 1
      ensures LastPoints(Current()) == AdditionPoints(rules.points, t)
    {
      NextIdIsFresh(history);
      AppendWithNextIdAdvances(Current(), NewCard(Current().nextId, t), AddCardChanges(Current(), t));
      AddCardPoints(rules, InitialIds(), Current(), t);
      UpdateGameStateAndLog(current => AddCardChanges(current, t), AddCardText(t), None);
    }

    /** Replace the card with the updated card's id; nothing happens when no such card
        is in play. The log text follows the state transition of the first such card. */
    method HandleUpdateCard(updatedCard: Card)
      requires Valid()
      modifies this
      ensures Valid()
      ensures var found := Find(old(Current()).cards, updatedCard.id);
        && (found.None? ==> history == old(history))
        && (found.Some? ==> history == old(history) + [LogStep(rules, old(InitialIds()), old(Current()),
                                UpdateCardChanges(old(Current()), updatedCard),
                                UpdateDescription(found.value, updatedCard), None)])
    {
      var oldState := history[|history| - 1];
      var oldCard := Find(oldState.cards, updatedCard.id);
      if oldCard.None? {
        return;
      }
      ReplaceKeepsIds(oldState, updatedCard.id, SetTo(updatedCard), UpdateCardChanges(oldState, updatedCard));
      UpdateGameStateAndLog(current => UpdateCardChanges(current, updatedCard), UpdateDescription(oldCard.value, updatedCard), None);
    }

    /** Convert the card to Neutral; nothing happens when it is not in play. */
    method HandleConvertCard(cardId: int)
      requires Valid()
      modifies this
      ensures Valid()
      ensures var found := Find(old(Current()).cards, cardId);
        && (found.None? ==> history == old(history))
        && (found.Some? ==> history == old(history) + [LogStep(rules, old(InitialIds()), old(Current()),
                                ConvertCardChanges(old(Current()), cardId), ConvertText(found.value), None)])
        && (found.Some? ==> Current().conversionCount == old(Current().conversionCount) + 1)
    {
      var oldState := history[|history| - 1];
      var cardToConvert := Find(oldState.cards, cardId);
      if cardToConvert.None? {
        return;
      }
      ReplaceKeepsIds(oldState, cardId, ToNeutral, ConvertCardChanges(oldState, cardId));
      UpdateGameStateAndLog(current => ConvertCardChanges(current, cardId), ConvertText(cardToConvert.value), None);
    }

    /** Take the card out of play and append it to the removed cards; nothing happens
        when it is not in play. */
    method HandleRemoveCard(cardId: int)
      requires Valid()
      modifies this
      ensures Valid()
      ensures var found := Find(old(Current()).cards, cardId);
        && (found.None? ==> history == old(history))
        && (found.Some? ==> history == old(history) + [LogStep(rules, old(InitialIds()), old(Current()),
                                RemoveCardChanges(old(Current()), cardId, found.value), RemoveText(found.value), None)])
        && (found.Some? ==> Current().removedCards == old(Current().removedCards) + [found.value])
    {
      var oldState := history[|history| - 1];
      var cardToRemove := Find(oldState.cards, cardId);
      if cardToRemove.None? {
        return;
      }
      var removed := cardToRemove.value;
      FoundIsIn(oldState.cards, cardId);
      FilterKeepsIds(oldState, cardId, Some(removed), RemoveCardChanges(oldState, cardId, removed));
      UpdateGameStateAndLog(current => RemoveCardChanges(current, cardId, removed), RemoveText(removed), None);
    }

    /** Drop a Neutral card from play by its effect, logging 0 points; nothing happens
        when the card is not in play or is not Neutral. */
    method HandleDiscardCard(cardId: int)
      requires Valid()
      modifies this
      ensures Valid()
      ensures var found := Find(old(Current()).cards, cardId);
        && (found.None? || found.value.cardType != Neutral ==> history == old(history))
        && (found.Some? && found.value.cardType == Neutral ==>
              && history == old(history) + [LogStep(rules, old(InitialIds()), old(Current()),
                                              DiscardCardChanges(old(Current()), cardId), DiscardText, Some(0))]
              && Current().removedCards == old(Current().removedCards)
              && LastPoints(Current()) == 0)
    {
      var oldState := history[|history| - 1];
      var cardToDiscard := Find(oldState.cards, cardId);
      if cardToDiscard.None? || cardToDiscard.value.cardType != Neutral {
        return;
      }
      FilterKeepsIds(oldState, cardId, None, DiscardCardChanges(oldState, cardId));
      UpdateGameStateAndLog(current => DiscardCardChanges(current, cardId), DiscardText, Some(0));
    }

    /** Append a copy of the given card with the next id. The card is not looked up: the
        copy is made whatever the active cards are. */
    method HandleDuplicateCard(cardToDuplicate: Card)
      requires Valid()
      modifies this
      ensures Valid()
      ensures history == old(history) + [LogStep(rules, old(InitialIds()), old(Current()),
                                                 DuplicateCardChanges(old(Current()), cardToDuplicate),
                                                 DuplicateText(cardToDuplicate), None)]
      ensures Current().cards == old(Current().cards) + [DuplicateOf(cardToDuplicate, old(Current().nextId))]
      ensures Current().duplicationCount == old(Current().duplicationCount) + 1
      ensures Current().nextId == old(Current().nextId) + 1
      ensures LastPoints(Current()) == LadderCost(rules.duplicationLadder, old(Current().duplicationCount))
                                       + (if IsConvertedToNeutral(cardToDuplicate) then rules.points.neutralCard else 0)
    {
      AppendWithNextIdAdvances(Current(), DuplicateOf(cardToDuplicate, Current().nextId),
                               DuplicateCardChanges(Current(), cardToDuplicate));
      DuplicateCardPoints(rules, InitialIds(), Current(), cardToDuplicate);
      UpdateGameStateAndLog(current => DuplicateCardChanges(current, cardToDuplicate),
                            DuplicateText(cardToDuplicate), None);
    }

    /** Drop the last snapshot when there is more than one. */
    method HandleUndo()
      requires Valid()
      modifies this
      ensures Valid()
      ensures history == Undo(old(history))
    {
      UndoKeepsValid(history, Current());
      if |history| > 1 {
        history := history[..|history| - 1];
      }
    }

    /** Start over from a fresh snapshot of the selected combatant's deck, or of the
        default deck when no combatant has the selected id. */
    method HandleReset(combatants: seq<Combatant>, selectedCombatantId: string,
                       generate: (string, string) -> string)
      requires Valid()
      requires |SeedDeck(combatants, selectedCombatantId, generate)| > 0
      modifies this
      ensures Valid()
      ensures history == [InitialGameState(SeedDeck(combatants, selectedCombatantId, generate))]
    {
      var deck := SeedDeck(combatants, selectedCombatantId, generate);
      InitialHistoryValid(deck);
      history := [InitialGameState(deck)];
    }
  }
}
