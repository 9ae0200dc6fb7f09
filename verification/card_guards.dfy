/** Which actions a card on screen offers, and the state change it requests. These
    guards are the only place that locks a card's bonus state: the engine itself
    accepts any update. */
module CardGuards {
  import opened Types
  import opened State
  import opened Score
  import opened Actions

  /** A card is drawn as the last one exactly when it is the ultimate card. */
  function IsLast(card: Card): bool
  {
    card.isUltimate
  }

  /** Epiphany controls are hidden for Basic cards and for the last card. */
  function IsEpiphanyDisabled(card: Card, isLast: bool): (disabled: bool)
    ensures !disabled <==> card.cardType != Basic && !isLast
  {
    card.cardType == Basic || isLast
  }

  /** Duplicate is offered for non-Basic cards without the Unique effect. */
  function IsDuplicatable(card: Card): (ok: bool)
    ensures ok ==> card.cardType != Basic
    ensures ok ==> card.effects.None? || UniqueEffect !in card.effects.value
    ensures card.cardType != Basic && (card.effects.None? || UniqueEffect !in card.effects.value) ==> ok
  {
    card.cardType != Basic && !HasEffect(card, UniqueEffect)
  }

  /** A card holding either bonus state can no longer change state. */
  function IsStateLocked(card: Card): (locked: bool)
    ensures locked <==> card.state != NoState
  {
    card.state == Epiphany || card.state == DivineEpiphany
  }

  /** The update a state button requests, or nothing when the card's state is locked;
      the requested card is the same card with only its state replaced. */
  function HandleStateChange(card: Card, newState: CardState): (request: Option<Card>)
    ensures request.None? <==> card.state != NoState
    ensures request.Some? ==> request.value.state == newState
    ensures request.Some? ==> request.value.(state := card.state) == card
  {
    if IsStateLocked(card) then None
    else Some(card.(state := newState))
  }

  /** Convert is disabled exactly for Neutral cards. */
  function IsConvertDisabled(card: Card): (disabled: bool)
    ensures disabled <==> card.cardType == Neutral
  {
    card.cardType == Neutral
  }

  /** The discard control is shown only on Neutral cards. */
  function IsDiscardOffered(card: Card): (offered: bool)
    ensures offered <==> card.cardType == Neutral
  {
    card.cardType == Neutral
  }

  /** Once a state is set it stays: a locked card requests nothing, whatever the new
      state, and a request from an unlocked card can only grant a state, never take one
      away or switch it, so its log text is an "Add … to" or a plain "Update". */
  lemma StateChangeOnlyGrants(card: Card, newState: CardState)
    ensures IsStateLocked(card) ==> HandleStateChange(card, newState).None?
    ensures var request := HandleStateChange(card, newState);
      request.Some? ==>
        var d := UpdateDescription(card, request.value);
        (newState == NoState ==> d == UpdateText(card))
        && (newState != NoState ==> d == AddStateText(newState, card))
  {
  }

  /** A duplicate made from an offered Duplicate control is never Basic, never carries
      the Unique effect, and is never the ultimate card, so it may itself be duplicated. */
  lemma DuplicateStaysDuplicatable(card: Card, id: int)
    requires IsDuplicatable(card)
    ensures IsDuplicatable(DuplicateOf(card, id)) && !IsLast(DuplicateOf(card, id))
  {
  }

  /** Converting a card makes its Convert control disabled and offers its discard. */
  lemma ConvertedCardIsDiscardable(card: Card)
    ensures IsConvertDisabled(Converted(card)) && IsDiscardOffered(Converted(card))
    ensures !IsStateLocked(Converted(card))
  {
  }

  /** What a state control logs. A state granted through the controls to a card in play
      logs exactly the new state's bonus, since the card keeps its kind and had no
      state before. On a card whose controls are offered (neither Basic nor the
      ultimate card) that is the Divine bonus for Divine Epiphany, the Epiphany bonus
      for Epiphany on a non-Unique card, and nothing otherwise: Epiphany on a Unique
      card is offered but logs 0. On a Basic card any request logs 0. */
  lemma StateControlPoints(rules: Rules, initialIds: set<int>, s: GameState, c: Card, newState: CardState)
    requires rules.Valid()
    requires DistinctIds(s.cards) && Find(s.cards, c.id) == Some(c)
    requires HandleStateChange(c, newState).Some?
    ensures var u := HandleStateChange(c, newState).value;
      var t := LogStep(rules, initialIds, s, UpdateCardChanges(s, u), UpdateDescription(c, u), None);
      && LastPoints(t) == StateBonus(rules.points, u)
      && (!IsEpiphanyDisabled(c, IsLast(c)) ==>
            LastPoints(t) == if newState == DivineEpiphany then rules.points.divineEpiphanyBonus
                             else if newState == Epiphany && c.cardType != Unique then rules.points.epiphanyBonus
                             else 0)
      && (c.cardType == Basic ==> LastPoints(t) == 0)
  {
    var u := HandleStateChange(c, newState).value;
    UpdateCardPoints(rules, initialIds, s, u, c);
    assert EntryPoints(rules.points, u, initialIds) == EntryPoints(rules.points, c, initialIds);
    assert StateBonus(rules.points, c) == 0;
  }
}
