/** What each user action does to a snapshot, before it is logged: the partial
    update an action returns, how it is merged into the old snapshot, the logging
    step that turns it into the next snapshot, and the point delta each action logs. */
module Actions {
  import opened Types
  import opened State
  import opened Score

  // ---------------------------------------------------------------------------
  // Card-sequence operations (the source's find, map and filter by id)
  // ---------------------------------------------------------------------------

  /** The first card with the given id, if any. */
  function Find(cards: seq<Card>, id: int): (r: Option<Card>)
    ensures r.None? <==> forall i :: 0 <= i < |cards| ==> cards[i].id != id
    ensures r.Some? ==> exists i :: 0 <= i < |cards| && cards[i] == r.value && r.value.id == id
                                    && forall j :: 0 <= j < i ==> cards[j].id != id
  {
    if cards == [] then None
    else if cards[0].id == id then Some(cards[0])
    else
      var r := Find(cards[1..], id);
      assert forall i :: 1 <= i < |cards| ==> cards[i] == cards[1..][i - 1];
      if r.Some? then
        assert exists i :: 0 <= i < |cards| && cards[i] == r.value && r.value.id == id
                          && forall j :: 0 <= j < i ==> cards[j].id != id by {
          var k :| 0 <= k < |cards| - 1 && cards[1..][k] == r.value && r.value.id == id
                   && forall j :: 0 <= j < k ==> cards[1..][j].id != id;
          assert cards[k + 1] == r.value;
          assert forall j :: 0 <= j < k + 1 ==> cards[j].id != id;
        }
        r
      else r
  }

  /** The two ways the source rewrites a card in place: replace it by a given card
      (Update) or convert it to Neutral (Convert). */
  datatype Edit = SetTo(card: Card) | ToNeutral

  /** A card after conversion: Neutral, stateless and renamed; everything else, its
      original kind included, stays, so it counts as converted exactly when it was not
      created Neutral. */
  function Converted(c: Card): (d: Card)
    ensures d.cardType == Neutral && d.state == NoState && d.name == Some("Neutral Card")
    ensures d.(cardType := c.cardType, state := c.state, name := c.name) == c
    ensures IsConvertedToNeutral(d) <==> c.originalType != Neutral
  {
    c.(cardType := Neutral, state := NoState, name := Some("Neutral Card"))
  }

  /** The card an edit turns `c` into. */
  function Apply(e: Edit, c: Card): Card
  {
    match e
    case SetTo(u) => u
    case ToNeutral => Converted(c)
  }

  /** Every card with the given id replaced by its edited version, in place. */
  function ReplaceWhere(cards: seq<Card>, id: int, e: Edit): (r: seq<Card>)
    ensures |r| == |cards|
    ensures forall i :: 0 <= i < |cards| ==> r[i] == if cards[i].id == id then Apply(e, cards[i]) else cards[i]
  {
    if cards == [] then []
    else
      var last := cards[|cards| - 1];
      ReplaceWhere(cards[..|cards| - 1], id, e) + [if last.id == id then Apply(e, last) else last]
  }

  /** The cards whose id differs from `id`, in their order. */
  function FilterOut(cards: seq<Card>, id: int): (r: seq<Card>)
    ensures |r| <= |cards|
    ensures |r| + |Matching(cards, id)| == |cards|
    ensures forall c :: c in r <==> c in cards && c.id != id
    ensures |cards| == 1 ==> r == if cards[0].id == id then [] else cards
  {
    if cards == [] then []
    else
      var last := cards[|cards| - 1];
      FilterOut(cards[..|cards| - 1], id) + (if last.id == id then [] else [last])
  }

  /** Filtering distributes over concatenation: with the one-card case of its contract,
      this pins the result down as the kept cards in their original order. */
  lemma {:induction false} FilterOutAppend(x: seq<Card>, y: seq<Card>, id: int)
    ensures FilterOut(x + y, id) == FilterOut(x, id) + FilterOut(y, id)
    decreases |y|
  {
    if y == [] {
      assert x + y == x;
    } else {
      var y', c := y[..|y| - 1], y[|y| - 1];
      var kept := if c.id == id then [] else [c];
      assert x + y == (x + y') + [c];
      assert y == y' + [c];
      FilterOutAppend(x, y', id);
      FilterOutSnoc(x + y', c, id);
      FilterOutSnoc(y', c, id);
      ConcatAssoc(FilterOut(x, id), FilterOut(y', id), kept);
    }
  }

  /** Concatenation of card sequences is associative. */
  lemma ConcatAssoc(a: seq<Card>, b: seq<Card>, c: seq<Card>)
    ensures (a + b) + c == a + (b + c)
  {
  }

  /** Filtering a sequence with one more card at its end. */
  lemma FilterOutSnoc(cards: seq<Card>, c: Card, id: int)
    ensures FilterOut(cards + [c], id) == FilterOut(cards, id) + (if c.id == id then [] else [c])
  {
    assert (cards + [c])[..|cards|] == cards;
  }

  /** The cards whose id is `id`, in their order. */
  function Matching(cards: seq<Card>, id: int): seq<Card>
  {
    if cards == [] then []
    else
      var last := cards[|cards| - 1];
      Matching(cards[..|cards| - 1], id) + (if last.id == id then [last] else [])
  }

  /** No two active cards share an id. */
  predicate DistinctIds(cards: seq<Card>)
  {
    forall i, j :: 0 <= i < j < |cards| ==> cards[i].id != cards[j].id
  }

  // ---------------------------------------------------------------------------
  // Partial updates
  // ---------------------------------------------------------------------------

  /** The fields an action's updater may return; an absent field is left as it was. */
  datatype Changes = Changes(
    cards: Option<seq<Card>>,
    removedCards: Option<seq<Card>>,
    duplicationCount: Option<nat>,
    conversionCount: Option<nat>,
    nextId: Option<int>)

  /** The old snapshot overlaid with the fields the updater returned. The log is
      never among them. */
  function Merge(s: GameState, ch: Changes): (t: GameState)
    ensures ch.cards.None? ==> t.cards == s.cards
    ensures ch.cards.Some? ==> t.cards == ch.cards.value
    ensures ch.removedCards.None? ==> t.removedCards == s.removedCards
    ensures ch.removedCards.Some? ==> t.removedCards == ch.removedCards.value
    ensures ch.duplicationCount.None? ==> t.duplicationCount == s.duplicationCount
    ensures ch.duplicationCount.Some? ==> t.duplicationCount == ch.duplicationCount.value
    ensures ch.conversionCount.None? ==> t.conversionCount == s.conversionCount
    ensures ch.conversionCount.Some? ==> t.conversionCount == ch.conversionCount.value
    ensures ch.nextId.None? ==> t.nextId == s.nextId
    ensures ch.nextId.Some? ==> t.nextId == ch.nextId.value
    ensures t.actionLog == s.actionLog && t.nextLogId == s.nextLogId
  {
    GameState(
      if ch.cards.Some? then ch.cards.value else s.cards,
      if ch.removedCards.Some? then ch.removedCards.value else s.removedCards,
      if ch.duplicationCount.Some? then ch.duplicationCount.value else s.duplicationCount,
      if ch.conversionCount.Some? then ch.conversionCount.value else s.conversionCount,
      if ch.nextId.Some? then ch.nextId.value else s.nextId,
      s.actionLog,
      s.nextLogId)
  }

  // ---------------------------------------------------------------------------
  // The updaters of the six logged actions
  // ---------------------------------------------------------------------------

  /** The card an Add action creates: the given id and kind, created as that kind,
      stateless, named after its kind, and neither ultimate nor a duplicate. */
  function NewCard(id: int, t: CardType): (c: Card)
    ensures c.id == id && c.cardType == t && c.originalType == t && c.state == NoState
    ensures c.name == Some(TypeLabel(t) + " Card")
    ensures !c.isUltimate && !c.isDuplicate && c.effects.None? && c.imageUrl.None?
  {
    Card(id, t, t, NoState, Some(TypeLabel(t) + " Card"), None, false, false, None)
  }

  /** Add: a fresh card of the kind, with the next id, appended; the id counter
      advances and nothing else changes. */
  function AddCardChanges(current: GameState, t: CardType): (ch: Changes)
    ensures Merge(current, ch).cards == current.cards + [NewCard(current.nextId, t)]
    ensures Merge(current, ch).nextId == current.nextId + 1
    ensures Merge(current, ch).(cards := current.cards, nextId := current.nextId) == current
  {
    Changes(Some(current.cards + [NewCard(current.nextId, t)]), None, None, None, Some(current.nextId + 1))
  }

  /** Update: every card carrying the updated card's id becomes the updated card, in
      place; nothing else changes. */
  function UpdateCardChanges(current: GameState, updated: Card): (ch: Changes)
    ensures |Merge(current, ch).cards| == |current.cards|
    ensures forall i :: 0 <= i < |current.cards| ==>
      Merge(current, ch).cards[i] == if current.cards[i].id == updated.id then updated else current.cards[i]
    ensures Merge(current, ch).(cards := current.cards) == current
  {
    Changes(Some(ReplaceWhere(current.cards, updated.id, SetTo(updated))), None, None, None, None)
  }

  /** Convert: the card is converted in place and the conversion counter advances;
      nothing else changes. */
  function ConvertCardChanges(current: GameState, id: int): (ch: Changes)
    ensures |Merge(current, ch).cards| == |current.cards|
    ensures forall i :: 0 <= i < |current.cards| ==>
      Merge(current, ch).cards[i] == if current.cards[i].id == id then Converted(current.cards[i]) else current.cards[i]
    ensures Merge(current, ch).conversionCount == current.conversionCount + 1
    ensures Merge(current, ch).(cards := current.cards, conversionCount := current.conversionCount) == current
  {
    Changes(Some(ReplaceWhere(current.cards, id, ToNeutral)), None, None, Some(current.conversionCount + 1), None)
  }

  /** Remove: the card leaves play and the card found beforehand goes to the end of
      the removed cards. */
  function RemoveCardChanges(current: GameState, id: int, removed: Card): (ch: Changes)
    ensures Merge(current, ch).cards == FilterOut(current.cards, id)
    ensures forall c :: c in Merge(current, ch).cards <==> c in current.cards && c.id != id
    ensures Merge(current, ch).removedCards == current.removedCards + [removed]
    ensures Merge(current, ch).(cards := current.cards, removedCards := current.removedCards) == current
  {
    Changes(Some(FilterOut(current.cards, id)), Some(current.removedCards + [removed]), None, None, None)
  }

  /** Discard: the card leaves play without being recorded as removed; nothing else
      changes. */
  function DiscardCardChanges(current: GameState, id: int): (ch: Changes)
    ensures Merge(current, ch).cards == FilterOut(current.cards, id)
    ensures forall c :: c in Merge(current, ch).cards <==> c in current.cards && c.id != id
    ensures Merge(current, ch).(cards := current.cards) == current
  {
    Changes(Some(FilterOut(current.cards, id)), None, None, None, None)
  }

  /** The copy a Duplicate action creates: the source with a new id, no state, never
      the ultimate card, and marked as a duplicate. */
  function DuplicateOf(source: Card, id: int): (d: Card)
    ensures d.id == id && d.state == NoState && !d.isUltimate && d.isDuplicate
    ensures d.(id := source.id, state := source.state, isUltimate := source.isUltimate,
               isDuplicate := source.isDuplicate) == source
  {
    source.(id := id, state := NoState, isUltimate := false, isDuplicate := true)
  }

  /** Duplicate: the copy appended with the next id; both counters advance and nothing
      else changes. */
  function DuplicateCardChanges(current: GameState, source: Card): (ch: Changes)
    ensures Merge(current, ch).cards == current.cards + [DuplicateOf(source, current.nextId)]
    ensures Merge(current, ch).duplicationCount == current.duplicationCount + 1
    ensures Merge(current, ch).nextId == current.nextId + 1
    ensures Merge(current, ch).(cards := current.cards, duplicationCount := current.duplicationCount,
                                nextId := current.nextId) == current
  {
    Changes(Some(current.cards + [DuplicateOf(source, current.nextId)]), None,
            Some(current.duplicationCount + 1), None, Some(current.nextId + 1))
  }

  // ---------------------------------------------------------------------------
  // Logging
  // ---------------------------------------------------------------------------

  /** The snapshot an action produces: the merged snapshot with one more log entry,
      numbered with the old next log id, carrying the forced points when given and
      otherwise the difference between the new and old scores. */
  function LogStep(rules: Rules, initialIds: set<int>, s: GameState, ch: Changes,
                   description: Description, overridePoints: Option<int>): (t: GameState)
    requires rules.Valid()
    ensures t.(actionLog := s.actionLog, nextLogId := s.nextLogId) == Merge(s, ch)
    ensures |t.actionLog| == |s.actionLog| + 1 && t.actionLog[..|s.actionLog|] == s.actionLog
    ensures t.nextLogId == s.nextLogId + 1
    ensures t.actionLog[|s.actionLog|].id == s.nextLogId
    ensures t.actionLog[|s.actionLog|].description == description
    ensures overridePoints.Some? ==> t.actionLog[|s.actionLog|].points == overridePoints.value
    ensures overridePoints.None? ==>
      t.actionLog[|s.actionLog|].points == TotalScore(rules, t, initialIds) - TotalScore(rules, s, initialIds)
  {
    var temp := Merge(s, ch);
    var points := if overridePoints.Some? then overridePoints.value
                  else TotalScore(rules, temp, initialIds) - TotalScore(rules, s, initialIds);
    var t := temp.(actionLog := s.actionLog + [ActionLogEntry(s.nextLogId, description, points)],
                   nextLogId := s.nextLogId + 1);
    assert t.actionLog[..|s.actionLog|] == s.actionLog;
    t
  }

  /** The points the last log entry of a snapshot carries. */
  function LastPoints(s: GameState): int
    requires |s.actionLog| > 0
  {
    s.actionLog[|s.actionLog| - 1].points
  }

  // ---------------------------------------------------------------------------
  // Descriptions
  // ---------------------------------------------------------------------------

  /** The log text of an Update, chosen by the state transition: taking a state away,
      granting one to a stateless card, switching between two states, or, when the
      state is unchanged, a plain update. */
  function UpdateDescription(oldCard: Card, updated: Card): (d: Description)
    ensures d.RemoveStateText? <==> oldCard.state != updated.state && updated.state == NoState
    ensures d.AddStateText? <==> oldCard.state != updated.state && oldCard.state == NoState
    ensures d.ChangeStateText? <==> oldCard.state != updated.state && oldCard.state != NoState && updated.state != NoState
    ensures d.UpdateText? <==> oldCard.state == updated.state
    ensures d.RemoveStateText? ==> d == RemoveStateText(oldCard.state, oldCard)
    ensures d.AddStateText? ==> d == AddStateText(updated.state, oldCard)
    ensures d.ChangeStateText? ==> d == ChangeStateText(oldCard, updated.state)
    ensures d.UpdateText? ==> d == UpdateText(oldCard)
  {
    if oldCard.state != updated.state then
      if updated.state == NoState then RemoveStateText(oldCard.state, oldCard)
      else if oldCard.state == NoState then AddStateText(updated.state, oldCard)
      else ChangeStateText(oldCard, updated.state)
    else UpdateText(oldCard)
  }

  // ---------------------------------------------------------------------------
  // Card scores under find / map / filter
  // ---------------------------------------------------------------------------

  /** With distinct ids, the card found is the only one carrying its id. */
  lemma {:induction false} MatchingIsFound(cards: seq<Card>, id: int, c: Card)
    requires DistinctIds(cards)
    requires Find(cards, id) == Some(c)
    ensures Matching(cards, id) == [c]
    decreases |cards|
  {
    var init := cards[..|cards| - 1];
    var last := cards[|cards| - 1];
    assert forall i :: 0 <= i < |init| ==> init[i] == cards[i];
    assert DistinctIds(init);
    var k :| 0 <= k < |cards| && cards[k] == c && c.id == id && forall j :: 0 <= j < k ==> cards[j].id != id;
    if last.id == id {
      assert cards[k].id == cards[|cards| - 1].id;
      assert k == |cards| - 1;
      assert forall i :: 0 <= i < |init| ==> init[i].id != id by {
        forall i | 0 <= i < |init| ensures init[i].id != id {
          assert cards[i].id != cards[|cards| - 1].id;
        }
      }
      NothingMatching(init, id);
      assert Matching(cards, id) == [] + [c];
    } else {
      assert k < |cards| - 1;
      FoundInPrefix(cards, init, id, k);
      MatchingIsFound(init, id, c);
      assert Matching(cards, id) == [c] + [];
    }
  }

  /** A card found at a position of a prefix is what the prefix's search finds. */
  lemma FoundInPrefix(cards: seq<Card>, init: seq<Card>, id: int, k: int)
    requires init <= cards
    requires 0 <= k < |init| && cards[k].id == id
    requires forall j :: 0 <= j < k ==> cards[j].id != id
    ensures Find(init, id) == Some(cards[k])
  {
    var r := Find(init, id);
    assert init[k].id == id;
    var m :| 0 <= m < |init| && init[m] == r.value && r.value.id == id
             && forall j :: 0 <= j < m ==> init[j].id != id;
    assert init[m] == cards[m] && init[k] == cards[k];
    assert m == k;
  }

  /** No card carries the id: nothing matches. */
  lemma {:induction false} NothingMatching(cards: seq<Card>, id: int)
    requires Find(cards, id).None?
    ensures Matching(cards, id) == []
    decreases |cards|
  {
    if cards != [] {
      var init := cards[..|cards| - 1];
      assert forall i :: 0 <= i < |init| ==> init[i] == cards[i];
      NothingMatching(init, id);
    }
  }

  /** Filtering splits the card points into those of the kept and the dropped cards. */
  lemma {:induction false} CardsScoreFilter(p: Points, cards: seq<Card>, id: int, initialIds: set<int>)
    ensures CardsScore(p, cards, initialIds)
            == CardsScore(p, FilterOut(cards, id), initialIds) + CardsScore(p, Matching(cards, id), initialIds)
    decreases |cards|
  {
    if cards != [] {
      var init := cards[..|cards| - 1];
      var last := cards[|cards| - 1];
      CardsScoreFilter(p, init, id, initialIds);
      var kept, dropped := FilterOut(init, id), Matching(init, id);
      if last.id == id {
        assert FilterOut(cards, id) == kept + [] == kept;
        assert Matching(cards, id) == dropped + [last];
        CardsScoreAppendOne(p, dropped, last, initialIds);
      } else {
        assert Matching(cards, id) == dropped + [] == dropped;
        assert FilterOut(cards, id) == kept + [last];
        CardsScoreAppendOne(p, kept, last, initialIds);
      }
    }
  }

  /** Replacing the matching cards changes the card points by exactly the difference
      between the replaced cards and their replacements. */
  lemma {:induction false} CardsScoreReplace(p: Points, cards: seq<Card>, id: int, e: Edit, initialIds: set<int>)
    ensures CardsScore(p, ReplaceWhere(cards, id, e), initialIds) + CardsScore(p, Matching(cards, id), initialIds)
            == CardsScore(p, cards, initialIds) + CardsScore(p, ReplaceWhere(Matching(cards, id), id, e), initialIds)
    decreases |cards|
  {
    if cards != [] {
      var init := cards[..|cards| - 1];
      var last := cards[|cards| - 1];
      CardsScoreReplace(p, init, id, e, initialIds);
      var m := Matching(init, id);
      var rep := ReplaceWhere(init, id, e);
      if last.id == id {
        assert ReplaceWhere(cards, id, e) == rep + [Apply(e, last)];
        CardsScoreAppendOne(p, rep, Apply(e, last), initialIds);
        assert Matching(cards, id) == m + [last];
        CardsScoreAppendOne(p, m, last, initialIds);
        assert (m + [last])[..|m|] == m;
        assert ReplaceWhere(m + [last], id, e) == ReplaceWhere(m, id, e) + [Apply(e, last)];
        CardsScoreAppendOne(p, ReplaceWhere(m, id, e), Apply(e, last), initialIds);
      } else {
        assert ReplaceWhere(cards, id, e) == rep + [last];
        CardsScoreAppendOne(p, rep, last, initialIds);
        assert Matching(cards, id) == m + [] == m;
      }
    }
  }

  /** With distinct ids, replacing the found card changes the card points by the
      difference between its replacement and itself. */
  lemma CardsScoreReplaceOne(p: Points, cards: seq<Card>, id: int, e: Edit, c: Card, initialIds: set<int>)
    requires DistinctIds(cards) && Find(cards, id) == Some(c)
    ensures CardsScore(p, ReplaceWhere(cards, id, e), initialIds)
            == CardsScore(p, cards, initialIds) - CardScore(p, c, initialIds) + CardScore(p, Apply(e, c), initialIds)
  {
    MatchingIsFound(cards, id, c);
    CardsScoreReplace(p, cards, id, e, initialIds);
    assert ReplaceWhere([c], id, e) == [Apply(e, c)];
    assert CardsScore(p, [c], initialIds) == CardScore(p, c, initialIds);
    assert CardsScore(p, [Apply(e, c)], initialIds) == CardScore(p, Apply(e, c), initialIds);
  }

  /** With distinct ids, filtering out the found card loses exactly its points. */
  lemma CardsScoreFilterOne(p: Points, cards: seq<Card>, id: int, c: Card, initialIds: set<int>)
    requires DistinctIds(cards) && Find(cards, id) == Some(c)
    ensures CardsScore(p, FilterOut(cards, id), initialIds)
            == CardsScore(p, cards, initialIds) - CardScore(p, c, initialIds)
  {
    MatchingIsFound(cards, id, c);
    CardsScoreFilter(p, cards, id, initialIds);
    assert CardsScore(p, [c], initialIds) == CardScore(p, c, initialIds);
  }

  /** Appending one card adds exactly its points. */
  lemma CardsScoreAppendOne(p: Points, cards: seq<Card>, c: Card, initialIds: set<int>)
    ensures CardsScore(p, cards + [c], initialIds) == CardsScore(p, cards, initialIds) + CardScore(p, c, initialIds)
  {
    assert (cards + [c])[..|cards|] == cards;
  }

  // ---------------------------------------------------------------------------
  // The points each action logs
  // ---------------------------------------------------------------------------

  /** Adding a card whose new id is not one of the first snapshot's logs the addition
      points of its kind (nothing for Basic). */
  lemma AddCardPoints(rules: Rules, initialIds: set<int>, s: GameState, t: CardType)
    requires rules.Valid()
    requires s.nextId !in initialIds
    ensures LastPoints(LogStep(rules, initialIds, s, AddCardChanges(s, t), AddCardText(t), None))
            == AdditionPoints(rules.points, t)
  {
    CardsScoreAppendOne(rules.points, s.cards, NewCard(s.nextId, t), initialIds);
  }

  /** Duplicating logs the next duplication-ladder price, plus the Neutral value when the
      source is a converted card (a copy is never newly added and carries no state). */
  lemma DuplicateCardPoints(rules: Rules, initialIds: set<int>, s: GameState, source: Card)
    requires rules.Valid()
    ensures LastPoints(LogStep(rules, initialIds, s, DuplicateCardChanges(s, source), DuplicateText(source), None))
            == LadderCost(rules.duplicationLadder, s.duplicationCount)
               + (if IsConvertedToNeutral(source) then rules.points.neutralCard else 0)
  {
    CardsScoreAppendOne(rules.points, s.cards, DuplicateOf(source, s.nextId), initialIds);
  }

  /** Updating a card logs the difference between the new card's points and the old one's. */
  lemma UpdateCardPoints(rules: Rules, initialIds: set<int>, s: GameState, updated: Card, oldCard: Card)
    requires rules.Valid()
    requires DistinctIds(s.cards) && Find(s.cards, updated.id) == Some(oldCard)
    ensures LastPoints(LogStep(rules, initialIds, s, UpdateCardChanges(s, updated), UpdateDescription(oldCard, updated), None))
            == CardScore(rules.points, updated, initialIds) - CardScore(rules.points, oldCard, initialIds)
  {
    CardsScoreReplaceOne(rules.points, s.cards, updated.id, SetTo(updated), oldCard, initialIds);
  }

  /** Converting a card logs the conversion cost plus the change in that card's points. */
  lemma ConvertCardPoints(rules: Rules, initialIds: set<int>, s: GameState, id: int, c: Card)
    requires rules.Valid()
    requires DistinctIds(s.cards) && Find(s.cards, id) == Some(c)
    ensures LastPoints(LogStep(rules, initialIds, s, ConvertCardChanges(s, id), ConvertText(c), None))
            == rules.points.conversionCost
               + CardScore(rules.points, Converted(c), initialIds) - CardScore(rules.points, c, initialIds)
  {
    var t := LogStep(rules, initialIds, s, ConvertCardChanges(s, id), ConvertText(c), None);
    CardsScoreReplaceOne(rules.points, s.cards, id, ToNeutral, c, initialIds);
    ConversionScore(rules, initialIds, s, t);
  }

  /** One more conversion, with the same removals and duplications, charges the
      conversion cost on top of the change in card points. */
  lemma ConversionScore(rules: Rules, initialIds: set<int>, s: GameState, t: GameState)
    requires rules.Valid()
    requires t.conversionCount == s.conversionCount + 1
    requires t.duplicationCount == s.duplicationCount && t.removedCards == s.removedCards
    ensures TotalScore(rules, t, initialIds) - TotalScore(rules, s, initialIds)
            == CardsScore(rules.points, t.cards, initialIds) - CardsScore(rules.points, s.cards, initialIds)
               + rules.points.conversionCost
  {
    var n := s.conversionCount;
    assert (n + 1) * rules.points.conversionCost == n * rules.points.conversionCost + rules.points.conversionCost;
  }

  /** Converting a stateless original card of another kind earns the Neutral value once,
      on top of the conversion cost. */
  lemma FirstConversionPoints(rules: Rules, initialIds: set<int>, s: GameState, id: int, c: Card)
    requires rules.Valid()
    requires DistinctIds(s.cards) && Find(s.cards, id) == Some(c)
    requires !IsNewlyAdded(c, initialIds) && c.originalType != Neutral && c.cardType != Neutral
    requires c.state == NoState
    ensures LastPoints(LogStep(rules, initialIds, s, ConvertCardChanges(s, id), ConvertText(c), None))
            == rules.points.neutralCard + rules.points.conversionCost
  {
    ConvertCardPoints(rules, initialIds, s, id, c);
  }

  /** Converting a card that is already a stateless Neutral card charges the conversion
      cost and nothing else: the Neutral value is never counted twice. */
  lemma ReconversionPoints(rules: Rules, initialIds: set<int>, s: GameState, id: int, c: Card)
    requires rules.Valid()
    requires DistinctIds(s.cards) && Find(s.cards, id) == Some(c)
    requires c.cardType == Neutral && c.state == NoState
    ensures LastPoints(LogStep(rules, initialIds, s, ConvertCardChanges(s, id), ConvertText(c), None))
            == rules.points.conversionCost
  {
    ConvertCardPoints(rules, initialIds, s, id, c);
  }

  /** Removing a card logs the next removal-ladder price and, for an unmodified Basic
      card, the removal bonus, minus the points the card held while in play. */
  lemma RemoveCardPoints(rules: Rules, initialIds: set<int>, s: GameState, id: int, c: Card)
    requires rules.Valid()
    requires DistinctIds(s.cards) && Find(s.cards, id) == Some(c)
    ensures LastPoints(LogStep(rules, initialIds, s, RemoveCardChanges(s, id, c), RemoveText(c), None))
            == LadderCost(rules.removalLadder, |s.removedCards|)
               + (if IsUnmodifiedBasic(c) then rules.points.basicRemovalBonus else 0)
               - CardScore(rules.points, c, initialIds)
  {
    CardsScoreFilterOne(rules.points, s.cards, id, c, initialIds);
    RemovalBonusAppend(rules.points, s.removedCards, c);
  }

  /** Discarding always logs 0 points, although the score itself drops by the points the
      discarded card held. */
  lemma DiscardCardPoints(rules: Rules, initialIds: set<int>, s: GameState, id: int, c: Card)
    requires rules.Valid()
    requires DistinctIds(s.cards) && Find(s.cards, id) == Some(c)
    ensures var t := LogStep(rules, initialIds, s, DiscardCardChanges(s, id), DiscardText, Some(0));
      && LastPoints(t) == 0
      && TotalScore(rules, t, initialIds) == TotalScore(rules, s, initialIds) - CardScore(rules.points, c, initialIds)
  {
    CardsScoreFilterOne(rules.points, s.cards, id, c, initialIds);
  }
}
