/** The entities of the score calculator: card kinds, card states, effect tags,
    cards, action-log entries and combatants. All of them are values. */
module Types {

  datatype Option<+T> = None | Some(value: T)

  /** The closed set of card kinds. */
  datatype CardType = Basic | Unique | Neutral | Monster | Forbidden

  /** The one-way bonus states of a card; `NoState` is the source's NONE. */
  datatype CardState = NoState | Epiphany | DivineEpiphany

  /** `UniqueEffect` marks a card that cannot be duplicated; `RemoveEffect` is informational. */
  datatype CardEffect = UniqueEffect | RemoveEffect

  /** A play piece. The optional flags of the source (`isUltimate`, `isDuplicate`)
      are booleans here: an absent flag reads as false everywhere it is used. */
  datatype Card = Card(
    id: int,
    cardType: CardType,
    originalType: CardType,
    state: CardState,
    name: Option<string>,
    effects: Option<seq<CardEffect>>,
    isUltimate: bool,
    isDuplicate: bool,
    imageUrl: Option<string>)

  /** What a log entry describes. The source formats these as display strings;
      each variant keeps the card (or kind, or state) whose name the text shows. */
  datatype Description =
    | AddCardText(kind: CardType)                        // "Add {Type} Card"
    | UpdateText(card: Card)                             // "Update {name}"
    | RemoveStateText(oldState: CardState, card: Card)   // "Remove {State} from {name}"
    | AddStateText(newState: CardState, card: Card)      // "Add {State} to {name}"
    | ChangeStateText(card: Card, newState: CardState)   // "Change {name} to {State}"
    | ConvertText(card: Card)                            // "Convert {name} to Neutral"
    | RemoveText(card: Card)                             // "Remove {name}"
    | DiscardText                                        // "Remove Neutral Card by [Remove] effect"
    | DuplicateText(card: Card)                          // "Duplicate {name}"

  /** One line of a combatant's action log: a signed point delta. */
  datatype ActionLogEntry = ActionLogEntry(id: int, description: Description, points: int)

  /** A selectable character and the deck that seeds a fresh state. */
  datatype Combatant = Combatant(id: string, name: string, deck: seq<Card>)

  /** `effects?.includes(e)`: an absent effect list includes nothing. */
  predicate HasEffect(card: Card, e: CardEffect)
  {
    card.effects.Some? && e in card.effects.value
  }

  /** The lower-case enum value with its first letter upper-cased, as `capitalize` gives it. */
  function TypeLabel(t: CardType): string
  {
    match t
    case Basic => "Basic"
    case Unique => "Unique"
    case Neutral => "Neutral"
    case Monster => "Monster"
    case Forbidden => "Forbidden"
  }
}
