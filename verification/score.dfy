/** The score of a snapshot: additive points per active card, the conversion charge,
    the cumulative duplication ladder, and the removal ladder with its bonus for
    removing unmodified Basic cards. The point values and both ladders live in a
    configuration that the calculator does not fix here, so they are a parameter. */
module Score {
  import opened Types
  import opened State

  /** The point constants of the calculator. */
  datatype Points = Points(
    uniqueCard: int,
    monsterCard: int,
    neutralCard: int,
    forbiddenCard: int,
    epiphanyBonus: int,
    divineEpiphanyBonus: int,
    conversionCost: int,
    basicRemovalBonus: int)

  /** The point constants and the two price ladders. */
  datatype Rules = Rules(points: Points, removalLadder: seq<int>, duplicationLadder: seq<int>)
  {
    /** Both ladders are configured with at least one price. */
    predicate Valid()
    {
      |removalLadder| > 0 && |duplicationLadder| > 0
    }
  }

  /** A card that entered play during the game: not in the first snapshot, not a copy. */
  predicate IsNewlyAdded(card: Card, initialIds: set<int>)
  {
    card.id !in initialIds && !card.isDuplicate
  }

  /** A card that is Neutral now but was created as another kind. */
  predicate IsConvertedToNeutral(card: Card)
  {
    card.cardType == Neutral && card.originalType != Neutral
  }

  /** The points a newly added card of a kind brings; Basic brings none. */
  function AdditionPoints(p: Points, t: CardType): int
  {
    match t
    case Basic => 0
    case Unique => p.uniqueCard
    case Monster => p.monsterCard
    case Neutral => p.neutralCard
    case Forbidden => p.forbiddenCard
  }

  /** Points for being added or converted (exclusive branches: at most one applies). */
  function EntryPoints(p: Points, card: Card, initialIds: set<int>): int
  {
    if IsNewlyAdded(card, initialIds) then AdditionPoints(p, card.cardType)
    else if IsConvertedToNeutral(card) then p.neutralCard
    else 0
  }

  /** The bonus for a card's state: only non-Basic cards earn one, and Epiphany earns
      nothing on a Unique card. */
  function StateBonus(p: Points, card: Card): int
  {
    if card.cardType == Basic then 0
    else if card.state == Epiphany && card.cardType != Unique then p.epiphanyBonus
    else if card.state == DivineEpiphany then p.divineEpiphanyBonus
    else 0
  }

  /** The points one active card contributes: entry points and state bonus add up. */
  function CardScore(p: Points, card: Card, initialIds: set<int>): int
  {
    EntryPoints(p, card, initialIds) + StateBonus(p, card)
  }

  /** The points of all active cards. */
  function CardsScore(p: Points, cards: seq<Card>, initialIds: set<int>): int
  {
    if cards == [] then 0
    else CardsScore(p, cards[..|cards| - 1], initialIds) + CardScore(p, cards[|cards| - 1], initialIds)
  }

  /** The cumulative price of the first `n` occurrences on a ladder. */
  function LadderSum(ladder: seq<int>, n: nat): int
    requires |ladder| > 0
  {
    if n == 0 then 0 else LadderSum(ladder, n - 1) + LadderCost(ladder, n - 1)
  }

  /** A removed card that earns the removal bonus: created Basic and still Basic. */
  predicate IsUnmodifiedBasic(card: Card)
  {
    card.originalType == Basic && card.cardType == Basic
  }

  /** The bonus earned by the removed cards. */
  function RemovalBonus(p: Points, removed: seq<Card>): int
  {
    if removed == [] then 0
    else RemovalBonus(p, removed[..|removed| - 1])
         + (if IsUnmodifiedBasic(removed[|removed| - 1]) then p.basicRemovalBonus else 0)
  }

  /** The total score of a snapshot, given the ids of the first snapshot's cards. */
  function TotalScore(rules: Rules, s: GameState, initialIds: set<int>): int
    requires rules.Valid()
  {
    CardsScore(rules.points, s.cards, initialIds)
    + s.conversionCount * rules.points.conversionCost
    + LadderSum(rules.duplicationLadder, s.duplicationCount)
    + LadderSum(rules.removalLadder, |s.removedCards|)
    + RemovalBonus(rules.points, s.removedCards)
  }

  /** The score, accumulated as the calculator does: one pass over the active cards,
      the conversion charge, a loop over the duplications, and one pass over the
      removed cards in removal order. */
  method CalculateTotalScore(rules: Rules, s: GameState, initialIds: set<int>) returns (score: int)
    requires rules.Valid()
    ensures score == TotalScore(rules, s, initialIds)
  {
    var p := rules.points;
    score := 0;
    for i := 0 to |s.cards|
      invariant score == CardsScore(p, s.cards[..i], initialIds)
    {
      var card := s.cards[i];
      assert s.cards[..i + 1][..i] == s.cards[..i];
      if IsNewlyAdded(card, initialIds) {
        if card.cardType == Unique {
          score := score + p.uniqueCard;
        } else if card.cardType == Monster {
          score := score + p.monsterCard;
        } else if card.cardType == Neutral {
          score := score + p.neutralCard;
        } else if card.cardType == Forbidden {
          score := score + p.forbiddenCard;
        }
      } else if IsConvertedToNeutral(card) {
        score := score + p.neutralCard;
      }
      if card.cardType != Basic {
        if card.state == Epiphany && card.cardType != Unique {
          score := score + p.epiphanyBonus;
        } else if card.state == DivineEpiphany {
          score := score + p.divineEpiphanyBonus;
        }
      }
    }
    assert s.cards[..|s.cards|] == s.cards;
    score := score + s.conversionCount * p.conversionCost;
    var totalDuplicationCost := 0;
    for i := 0 to s.duplicationCount
      invariant totalDuplicationCost == LadderSum(rules.duplicationLadder, i)
    {
      totalDuplicationCost := totalDuplicationCost + LadderCost(rules.duplicationLadder, i);
    }
    score := score + totalDuplicationCost;
    ghost var before := score;
    var totalRemovalCost := 0;
    for i := 0 to |s.removedCards|
      invariant totalRemovalCost == LadderSum(rules.removalLadder, i)
      invariant score == before + RemovalBonus(p, s.removedCards[..i])
    {
      var card := s.removedCards[i];
      assert s.removedCards[..i + 1][..i] == s.removedCards[..i];
      totalRemovalCost := totalRemovalCost + LadderCost(rules.removalLadder, i);
      if card.originalType == Basic && card.cardType == Basic {
        score := score + p.basicRemovalBonus;
      }
    }
    assert s.removedCards[..|s.removedCards|] == s.removedCards;
    score := score + totalRemovalCost;
  }

  /** Card points are additive over concatenation. */
  lemma {:induction false} CardsScoreAppend(p: Points, a: seq<Card>, b: seq<Card>, initialIds: set<int>)
    ensures CardsScore(p, a + b, initialIds) == CardsScore(p, a, initialIds) + CardsScore(p, b, initialIds)
    decreases |b|
  {
    if b == [] {
      assert a + b == a;
    } else {
      var b' := b[..|b| - 1];
      assert (a + b)[..|a + b| - 1] == a + b';
      CardsScoreAppend(p, a, b', initialIds);
    }
  }

  /** A card's points by its current kind: Basic cards score nothing at all; Unique
      cards earn their addition points only when newly added and only the Divine
      bonus; Neutral cards earn the Neutral value at most once, whether newly added
      or converted; Monster and Forbidden cards earn their addition points when newly
      added plus either bonus. */
  lemma CardScoreByKind(p: Points, card: Card, initialIds: set<int>)
    ensures var added := IsNewlyAdded(card, initialIds);
      var bonus := if card.state == Epiphany then p.epiphanyBonus
                   else if card.state == DivineEpiphany then p.divineEpiphanyBonus else 0;
      match card.cardType
      case Basic => CardScore(p, card, initialIds) == 0
      case Unique => CardScore(p, card, initialIds)
                     == (if added then p.uniqueCard else 0)
                        + (if card.state == DivineEpiphany then p.divineEpiphanyBonus else 0)
      case Neutral => CardScore(p, card, initialIds)
                      == (if added || card.originalType != Neutral then p.neutralCard else 0) + bonus
      case Monster => CardScore(p, card, initialIds) == (if added then p.monsterCard else 0) + bonus
      case Forbidden => CardScore(p, card, initialIds) == (if added then p.forbiddenCard else 0) + bonus
  {
  }

  /** A card that is neither newly added nor converted, and holds no bonus state,
      contributes nothing: original deck cards and plain copies are free. */
  lemma UnchangedCardScoresNothing(p: Points, card: Card, initialIds: set<int>)
    requires !IsNewlyAdded(card, initialIds) && !IsConvertedToNeutral(card)
    requires card.state == NoState
    ensures CardScore(p, card, initialIds) == 0
  {
  }

  /** Cards that all score nothing together score nothing. */
  lemma {:induction false} CardsScoreZero(p: Points, cards: seq<Card>, initialIds: set<int>)
    requires forall c :: c in cards ==> CardScore(p, c, initialIds) == 0
    ensures CardsScore(p, cards, initialIds) == 0
    decreases |cards|
  {
    if cards != [] {
      CardsScoreZero(p, cards[..|cards| - 1], initialIds);
    }
  }

  /** Once the ladder's last price is reached, every further occurrence costs that
      last price: the cumulative cost grows linearly from there. */
  lemma {:induction false} LadderSumPastEnd(ladder: seq<int>, n: nat)
    requires |ladder| > 0 && n >= |ladder| - 1
    ensures LadderSum(ladder, n)
            == LadderSum(ladder, |ladder| - 1) + (n - (|ladder| - 1)) * ladder[|ladder| - 1]
    decreases n
  {
    if n > |ladder| - 1 {
      LadderSumPastEnd(ladder, n - 1);
      var k := n - 1 - (|ladder| - 1);
      assert (k + 1) * ladder[|ladder| - 1] == k * ladder[|ladder| - 1] + ladder[|ladder| - 1];
    }
  }

  /** The first `n` prices of a ladder with at least `n` entries are summed as they stand,
      without clamping: the cumulative cost is the sum of the ladder's prefix. */
  lemma {:induction false} LadderSumPrefix(ladder: seq<int>, n: nat)
    requires n <= |ladder|
    requires |ladder| > 0
    ensures LadderSum(ladder, n) == SeqSum(ladder[..n])
    decreases n
  {
    if n > 0 {
      LadderSumPrefix(ladder, n - 1);
      assert ladder[..n][..n - 1] == ladder[..n - 1];
    }
  }

  /** The plain sum of a sequence of prices. */
  function SeqSum(s: seq<int>): int
  {
    if s == [] then 0 else SeqSum(s[..|s| - 1]) + s[|s| - 1]
  }

  /** The bonus counts exactly the unmodified Basic cards among the removed ones. */
  lemma {:induction false} RemovalBonusAppend(p: Points, removed: seq<Card>, c: Card)
    ensures RemovalBonus(p, removed + [c])
            == RemovalBonus(p, removed) + (if IsUnmodifiedBasic(c) then p.basicRemovalBonus else 0)
  {
    assert (removed + [c])[..|removed|] == removed;
  }

  /** A seed whose cards are all in their original kind and without bonus state
      (as every deck built by the card factory is) scores nothing. */
  lemma SeedScoresZero(rules: Rules, deck: seq<Card>)
    requires rules.Valid() && |deck| > 0
    requires forall c :: c in deck ==> c.cardType == c.originalType && c.state == NoState
    ensures TotalScore(rules, InitialGameState(deck), Ids(deck)) == 0
  {
    forall c | c in deck
      ensures CardScore(rules.points, c, Ids(deck)) == 0
    {
      assert c.id in Ids(deck);
    }
    CardsScoreZero(rules.points, deck, Ids(deck));
  }
}
