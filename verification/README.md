# Chaos score calculator: a Dafny model of its scoring and history engine

The calculator keeps, for each combatant, an undoable history of game snapshots.
A snapshot holds the active cards, the removed cards, a duplication counter, a
conversion counter, the next card id, the action log and the next log id. Every
user action works the same way:

1. It computes the score of the current snapshot.
2. It applies a partial update.
3. It scores the result.
4. It logs the difference, or a forced value.
5. It appends exactly one snapshot.

Undo drops the last snapshot. Reset starts over from a fresh snapshot of a deck.

The model has seven modules:

- `Types` (types.ts): the card kinds, card states and card effects, the card
  record, log entries and combatants. Log texts are a `Description` datatype that
  records the action and the card whose name the text formats.
- `State` (state.ts): the snapshot record, the fresh snapshot of a deck, and the
  clamped lookup into a price ladder.
- `Database` (database.ts): the card factory, the deck builder and the default deck.
- `Score` (components/CombatantLayout.tsx:21-60): the score of a snapshot. It is a
  reference definition (`TotalScore`), plus the imperative accumulation the
  calculator performs (`CalculateTotalScore`), which is proved equal to it.
- `Actions`: the updaters of the six logged actions, the merge of a partial update
  and the logging step, all as pure functions. It also holds lemmas giving the
  exact points each action logs.
- `CombatantLayout`: the class `CombatantHistory`. Its `history` field is the
  sequence of snapshots, and each handler is a method that reassigns it. The
  `HistoryValid` invariant covers these facts:
  - the history is never empty;
  - snapshot `k` has logged `k` actions, numbered 1 to `k`;
  - the log and the removed cards only grow;
  - card ids stay below the next id, which never decreases;
  - if the dealt cards have distinct ids, the active cards keep distinct ids.

  Every handler keeps this invariant.
- `CardGuards` (components/CalculatorCard.tsx): the predicates that decide which
  controls a card offers, and the state-change request.

The point values and the two price ladders live in `constants.ts`, which is not
part of this model. So they are a `Rules` parameter: eight integer point values
and two ladders, each with at least one price.

## Model

| member | source | states |
|---|---|---|
| State.LadderCost | state.ts:27-30 | For a non-empty ladder, a count inside the ladder gets that entry, and any count at or past the last index gets the last entry. |
| State.LadderCostClamps | state.ts:28 | Every count at or past the last index costs the same: the ladder's last price. |
| State.LadderCostMonotone | state.ts:27-30 | On a non-decreasing ladder, a later occurrence never costs less than an earlier one. |
| State.MaxId | state.ts:22 | The maximum of a non-empty deck's ids bounds every id and is attained by some card. |
| State.InitialGameState | state.ts:17-25 | A fresh snapshot has the deck as its cards, no removed cards, an empty log, zero counters and next log id 1. Its next id is above every deck id and one more than the largest. The deck must be non-empty. |
| Database.CreateCard | database.ts:23-35 | A new card keeps the given id, kind and name. Its original kind equals its kind, it has no state and is not a duplicate. The options set only the ultimate flag, the effects and the picture. |
| Database.ImageUrlOf | database.ts:42-44 | A non-empty picture is kept. A missing or empty one is replaced by the generated picture, made from the name and a colour (the ultimate colour for the ultimate card). |
| Database.CreateDeckFromData | database.ts:40-52 | The deck has as many cards as there are entries, in the same order. Each card keeps its entry's id, kind, name, ultimate flag and effects. Each starts stateless, unconverted and not a duplicate, with its entry's picture. |
| Database.DefaultDataShape | database.ts:55-64 | The default entries are ids 1 to 8: three Basic, then five Unique, with the eighth as the only ultimate one. |
| Database.DefaultDeckShape | database.ts:55-77 | The default deck has 8 cards with ids 1 to 8, three Basic then five Unique. Exactly the last card is ultimate. Every card is in its original kind and stateless. |
| Database.DefaultDeck | database.ts:77 | The default deck is the deck built from the default entries; its shape is stated by `DefaultDeckShape`. |
| Database.KindColor | database.ts:14-20 | The placeholder colour of each card kind, as the colour table gives it. |
| Database.AddedCardIsFactoryCard | components/CombatantLayout.tsx:132-138 | The card an Add action creates is the factory's card of that kind, named after the kind, with no options. |
| Database.DefaultSeedNextId | database.ts:77 | Seeded from the default deck, the next card id is 9. |
| Database.DefaultSeedScoresZero | database.ts:77 | Seeded from the default deck, the score is 0 for any point values and ladders. |
| Score.CardScore | components/CombatantLayout.tsx:25-43 | The reference points of one active card: its entry points (newly added or converted, exclusively) plus its state bonus. Its properties are stated by `CardScoreByKind` and `UnchangedCardScoresNothing`. |
| Score.TotalScore | components/CombatantLayout.tsx:21-60 | The reference score every points lemma is stated against: card points, conversion charge, summed duplication ladder, summed removal ladder and removal bonus. `CalculateTotalScore` is proved equal to it. |
| Score.CalculateTotalScore | components/CombatantLayout.tsx:21-60 | The three accumulating loops compute the reference total: card points, plus the conversion count times the conversion cost, plus the summed duplication ladder, plus the summed removal ladder by removal index, plus the bonus per removed unmodified Basic card. |
| Score.CardScoreByKind | components/CombatantLayout.tsx:25-43 | A card's points by kind. Basic scores nothing. A newly added Unique card scores the Unique value and only the Divine bonus. Neutral earns its value once, whether newly added or converted. Monster and Forbidden earn their addition value when newly added, plus either bonus. |
| Score.UnchangedCardScoresNothing | components/CombatantLayout.tsx:25-43 | A dealt or duplicated card that is not converted and has no state contributes nothing. |
| Score.CardsScoreAppend | components/CombatantLayout.tsx:24-44 | The card points of two runs of cards add up. |
| Score.LadderSumPastEnd | components/CombatantLayout.tsx:46-49 | Once the count passes the ladder's end, the summed duplication cost grows by the last price per further duplication. |
| Score.LadderSumPrefix | components/CombatantLayout.tsx:46-53 | Within the ladder's length, the summed cost is the plain sum of the ladder's first prices. |
| Score.RemovalBonusAppend | components/CombatantLayout.tsx:52-57 | A further removed card adds the Basic removal bonus exactly when it is an unmodified Basic card. |
| Score.SeedScoresZero | components/CombatantLayout.tsx:21-60 | A fresh snapshot of a deck whose cards are in their original kind and stateless scores 0. |
| Actions.Find | components/CombatantLayout.tsx:150 | The search returns nothing exactly when no card has the id. Otherwise it returns the first card with that id. |
| Actions.ReplaceWhere | components/CombatantLayout.tsx:153-155 | Same length. Every card with the id is edited and every other card is kept in place. |
| Actions.FilterOut | components/CombatantLayout.tsx:194 | Exactly the cards with another id are kept: a card is in the result if and only if it was in play and has another id. The result is as long as the input minus the cards that carry the id. A single card is kept or dropped whole. |
| Actions.FilterOutSnoc | components/CombatantLayout.tsx:194 | Filtering cards with one more card at the end gives the old result, plus that card when its id differs. |
| Actions.FilterOutAppend | components/CombatantLayout.tsx:194 | Filtering distributes over concatenation. With the single-card case, this means the kept cards stay in their original order. |
| Actions.NewCard | components/CombatantLayout.tsx:132-138 | The added card has the given id and kind, was created as that kind, is stateless, is named after its kind, and is neither ultimate nor a duplicate. |
| Actions.AddCardChanges | components/CombatantLayout.tsx:131-143 | Merged into a snapshot, the fresh card with the old next id is appended and the next id advances by one. Nothing else changes. |
| Actions.UpdateCardChanges | components/CombatantLayout.tsx:153-155 | Merged into a snapshot, every card with the updated card's id becomes the updated card and every other card stays in place. Nothing else changes. |
| Actions.Converted | components/CombatantLayout.tsx:179 | A converted card is Neutral, stateless and named "Neutral Card", with every other field kept. It counts as converted exactly when it was not created Neutral. |
| Actions.ConvertCardChanges | components/CombatantLayout.tsx:177-182 | Merged into a snapshot, every card with the id is converted in place, other cards stay, and the conversion counter advances by one. Nothing else changes. |
| Actions.RemoveCardChanges | components/CombatantLayout.tsx:193-196 | Merged into a snapshot, the cards in play are the old cards filtered by the id, in their old order, and the removed card is appended to the removed cards. Nothing else changes. |
| Actions.DiscardCardChanges | components/CombatantLayout.tsx:207-209 | Merged into a snapshot, the cards in play are the old cards filtered by the id, in their old order. Nothing else changes, the removed cards included. |
| Actions.DuplicateOf | components/CombatantLayout.tsx:216-222 | The copy has the new id, no state, is not ultimate and is marked as a duplicate. Every other field is the source's. |
| Actions.DuplicateCardChanges | components/CombatantLayout.tsx:215-228 | Merged into a snapshot, the copy with the old next id is appended, and the duplication counter and the next id both advance by one. Nothing else changes. |
| Actions.Merge | components/CombatantLayout.tsx:95 | Each field the updater returns replaces the old one. Every other field, including the log, is unchanged. |
| Actions.LogStep | components/CombatantLayout.tsx:90-112 | The next snapshot is the merged one with exactly one more log entry. That entry is numbered with the old next log id, which then advances by one. The entry carries the forced points if given, otherwise the new score minus the old score. |
| Actions.UpdateDescription | components/CombatantLayout.tsx:157-168 | The Update log text is "remove state" exactly when the state is taken away, "add state" exactly when a stateless card gains one, and "change" exactly when one state replaces another. It is a plain update exactly when the state is unchanged. |
| Actions.CardsScoreFilter | components/CombatantLayout.tsx:194 | The card points split into those of the kept cards and those of the filtered-out cards. |
| Actions.CardsScoreReplace | components/CombatantLayout.tsx:178-180 | Editing the matching cards changes the card points by the edited cards' points minus the originals'. |
| Actions.CardsScoreReplaceOne | components/CombatantLayout.tsx:153-155 | With distinct ids, replacing the found card changes the card points by its replacement's points minus its own. |
| Actions.CardsScoreFilterOne | components/CombatantLayout.tsx:193-196 | With distinct ids, filtering out the found card loses exactly its points. |
| Actions.CardsScoreAppendOne | components/CombatantLayout.tsx:140 | Appending a card adds exactly its points. |
| Actions.AddCardPoints | components/CombatantLayout.tsx:130-146 | Adding a card whose new id is not a dealt id logs the addition points of its kind, and nothing for Basic. |
| Actions.DuplicateCardPoints | components/CombatantLayout.tsx:214-231 | Duplicating logs the next duplication ladder price, plus the Neutral value when the source is a converted card. |
| Actions.UpdateCardPoints | components/CombatantLayout.tsx:148-170 | With distinct ids, an update logs the new card's points minus the old card's. |
| Actions.ConvertCardPoints | components/CombatantLayout.tsx:172-186 | With distinct ids, a conversion logs the conversion cost plus the change in the card's points. |
| Actions.ConversionScore | components/CombatantLayout.tsx:45 | One more conversion, with removals and duplications unchanged, adds the conversion cost on top of the change in card points. |
| Actions.FirstConversionPoints | components/CombatantLayout.tsx:26-34 | Converting a stateless dealt card of another kind earns the Neutral value once, plus the conversion cost. |
| Actions.ReconversionPoints | components/CombatantLayout.tsx:26-34 | Converting a stateless card that is already Neutral charges only the conversion cost, so the Neutral value is never counted twice. |
| Actions.RemoveCardPoints | components/CombatantLayout.tsx:188-200 | With distinct ids, a removal logs the next removal ladder price, plus the bonus for an unmodified Basic card, minus the points the card held in play. |
| Actions.DiscardCardPoints | components/CombatantLayout.tsx:202-212 | With distinct ids, a discard logs 0 points, even though the score drops by the discarded card's points. |
| Types.HasEffect | components/CalculatorCard.tsx:67 | Whether a card's effects include an effect; an absent effect list includes nothing. |
| CardGuards.IsLast | components/CombatantLayout.tsx:274 | A card is shown as the last one exactly when it is the ultimate card. |
| CardGuards.IsEpiphanyDisabled | components/CalculatorCard.tsx:66 | The state controls are offered exactly for non-Basic cards that are not the ultimate card. |
| CardGuards.IsDuplicatable | components/CalculatorCard.tsx:67 | Duplicate is offered exactly for non-Basic cards without the Unique effect. |
| CardGuards.IsStateLocked | components/CalculatorCard.tsx:68 | A card is locked exactly when it holds a state. |
| CardGuards.HandleStateChange | components/CalculatorCard.tsx:70-78 | A locked card requests nothing. An unlocked card requests the same card with only its state replaced. |
| CardGuards.IsConvertDisabled | components/CalculatorCard.tsx:93 | Convert is disabled exactly for Neutral cards. |
| CardGuards.IsDiscardOffered | components/CalculatorCard.tsx:139-142 | Discard is offered exactly for Neutral cards. |
| CardGuards.StateChangeOnlyGrants | components/CalculatorCard.tsx:68-78 | A request from the state controls can only grant a state, so its log text is an "add state" or a plain update. |
| CardGuards.StateControlPoints | components/CalculatorCard.tsx:66-78 | A state granted through the controls to a card in play logs exactly the new state's bonus. When the controls are offered, that is the Divine bonus, or the Epiphany bonus on a non-Unique card, and 0 for Epiphany on a Unique card. On a Basic card any request logs 0. |
| CardGuards.DuplicateStaysDuplicatable | components/CalculatorCard.tsx:67 | A copy of a duplicatable card is itself duplicatable and is never the ultimate card. |
| CardGuards.ConvertedCardIsDiscardable | components/CalculatorCard.tsx:93 | A converted card offers no Convert but offers Discard, and it is not locked. |
| CombatantLayout.Undo | components/CombatantLayout.tsx:84-88 | Undo drops the last snapshot when there are at least two. A single snapshot is kept. |
| CombatantLayout.FindCombatant | components/CombatantLayout.tsx:80 | The search finds nothing exactly when no combatant has the id. Otherwise it returns the first combatant with that id. |
| CombatantLayout.SeedDeck | components/CombatantLayout.tsx:79-82 | Reset seeds from the selected combatant's deck, or from the default deck when none is selected. |
| CombatantLayout.InitialHistoryValid | components/CombatantLayout.tsx:81 | A one-snapshot history of a fresh snapshot satisfies the history invariant. |
| CombatantLayout.LogLengthMatchesHistory | components/CombatantLayout.tsx:99-111 | In a valid history, the last snapshot has one log entry fewer than there are snapshots, and its next log id is the number of snapshots. |
| CombatantLayout.NextIdIsFresh | components/CombatantLayout.tsx:130-146 | The next id is above every id that ever appeared in the history, active or removed. In particular it is none of the dealt ids. |
| CombatantLayout.StepKeepsValid | components/CombatantLayout.tsx:99-111 | Appending a logged snapshot whose update kept ids in order keeps the history valid. |
| CombatantLayout.UndoKeepsValid | components/CombatantLayout.tsx:84-88 | Undo keeps the history valid, and undo right after appending a snapshot gives back exactly the previous history. |
| CombatantLayout.CurrentIdsDistinct | components/CombatantLayout.tsx:77 | If the dealt cards have distinct ids, so do the cards in play in the current snapshot. This is what the point lemmas above need. |
| CombatantLayout.AppendWithNextIdAdvances | components/CombatantLayout.tsx:223-227 | Appending a card with the next id and advancing the counter keeps every id below the counter and keeps ids distinct. |
| CombatantLayout.ReplaceKeepsIds | components/CombatantLayout.tsx:177-182 | Editing cards in place keeps every id below the counter and keeps ids distinct. |
| CombatantLayout.FilterOutFacts | components/CombatantLayout.tsx:207-209 | Filtering keeps ids distinct. |
| CombatantLayout.FilterKeepsIds | components/CombatantLayout.tsx:193-196 | Filtering cards out, and appending an active card to the removed ones, only grows the removed cards, keeps every id below the counter and keeps ids distinct. |
| CombatantLayout.FoundIsIn | components/CombatantLayout.tsx:190 | The card found by the search is one of the active cards. |
| CombatantLayout.CombatantHistory.constructor | components/CombatantLayout.tsx:81 | A slot starts as one fresh snapshot of its deck and satisfies the invariant. |
| CombatantLayout.CombatantHistory.UpdateGameStateAndLog | components/CombatantLayout.tsx:90-112 | The history becomes the old history plus exactly one `LogStep` snapshot, and stays valid. |
| CombatantLayout.CombatantHistory.HandleAddCard | components/CombatantLayout.tsx:130-146 | One snapshot is appended. It holds a fresh card of the kind with the old next id, the next id has advanced by one, and the logged points are the kind's addition points. |
| CombatantLayout.CombatantHistory.HandleUpdateCard | components/CombatantLayout.tsx:148-170 | Nothing changes when no active card has the id. Otherwise the Update snapshot, with the transition's log text, is appended. |
| CombatantLayout.CombatantHistory.HandleConvertCard | components/CombatantLayout.tsx:172-186 | Nothing changes when the card is not in play. Otherwise the conversion snapshot is appended and the conversion counter advances by one. |
| CombatantLayout.CombatantHistory.HandleRemoveCard | components/CombatantLayout.tsx:188-200 | Nothing changes when the card is not in play. Otherwise the removal snapshot is appended, with the found card at the end of the removed cards. |
| CombatantLayout.CombatantHistory.HandleDiscardCard | components/CombatantLayout.tsx:202-212 | Nothing changes when the card is not in play or is not Neutral. Otherwise the discard snapshot is appended with 0 points and the removed cards unchanged. |
| CombatantLayout.CombatantHistory.HandleDuplicateCard | components/CombatantLayout.tsx:214-231 | A copy with the next id is appended without any existence check. Both counters advance, and the logged points are the duplication price plus the Neutral value of a converted source. |
| CombatantLayout.CombatantHistory.HandleUndo | components/CombatantLayout.tsx:84-88 | The history becomes `Undo` of the old one and stays valid. |
| CombatantLayout.CombatantHistory.HandleReset | components/CombatantLayout.tsx:79-82 | The history becomes one fresh snapshot of the seed deck. |

## Left out

- All rendering, styling and React hooks, and the score display, icons and
  multi-combatant slot management: these are interface code.
- The picture generator builds an SVG and base64-encodes it in the browser. Here
  it is a function parameter `(name, colour) -> picture`.
- The name formatting (capitalisation, replacing underscores in state names) is
  left out. Log texts are the `Description` datatype, which records the action and
  the card the text names.
- The deep copy of the deck in the fresh snapshot is a plain value copy.
- Numbers are unbounded integers, not floating point. An empty deck, whose maximum
  id would be minus infinity, is excluded by a precondition. Ladder counts are
  natural numbers.
- Optional card flags become `bool`, with absent read as false; optional name,
  effects and picture become `Option`.
- The point constants and the two ladders are parameters, because the file that
  fixes them is not part of this model.
- The per-action point lemmas (`Actions.UpdateCardPoints`, `Actions.ConvertCardPoints`,
  `Actions.FirstConversionPoints`, `Actions.ReconversionPoints`, `Actions.RemoveCardPoints`,
  `Actions.DiscardCardPoints`, `CardGuards.StateControlPoints`) and the score lemmas
  `Actions.CardsScoreReplaceOne` and `Actions.CardsScoreFilterOne` assume that the active cards have distinct ids. The
  engine does not check this. `CombatantLayout.CurrentIdsDistinct` shows it holds
  throughout a history whose dealt cards have distinct ids, as the default deck's do.
- CombatantLayout.CombatantHistory.HandleUpdateCard: the postcondition ties the new
  snapshot to `Actions.LogStep` but does not restate the logged points. Those are
  proved about the same `LogStep` by `Actions.UpdateCardPoints`.
- CombatantLayout.CombatantHistory.HandleConvertCard: likewise, the logged points are
  proved by `Actions.ConvertCardPoints`.
- CombatantLayout.CombatantHistory.HandleRemoveCard: likewise, the logged points are
  proved by `Actions.RemoveCardPoints`.
- The deck catalogue other than the default deck, and the combatant list, are
  left out. Reset takes the combatants as a parameter.
