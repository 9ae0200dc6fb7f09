/** The card factory, the deck builder that turns plain card data into cards, and
    the default deck that seeds a combatant when no other deck is chosen. */
module Database {
  import opened Types
  import opened State
  import opened Score
  import Actions

  /** What a caller may add to a fresh card beyond its id, kind and name. */
  datatype CardOptions = CardOptions(isUltimate: bool, effects: Option<seq<CardEffect>>, imageUrl: Option<string>)

  /** The plain description of a deck entry. */
  datatype CardData = CardData(
    id: int,
    cardType: CardType,
    name: string,
    isUltimate: bool,
    effects: Option<seq<CardEffect>>,
    imageUrl: Option<string>)

  /** A fresh card: its original kind is its kind, it carries no bonus state and is not
      a duplicate. The options can set the ultimate flag, the effects and the picture,
      and nothing else. */
  function CreateCard(id: int, t: CardType, name: string, options: CardOptions): (c: Card)
    ensures c.id == id && c.cardType == t && c.originalType == t && c.name == Some(name)
    ensures c.state == NoState && !c.isDuplicate
    ensures c.isUltimate == options.isUltimate && c.effects == options.effects && c.imageUrl == options.imageUrl
  {
    Card(id, t, t, NoState, Some(name), options.effects, options.isUltimate, false, options.imageUrl)
  }

  /** The placeholder colour per card kind. */
  function KindColor(t: CardType): string
  {
    match t
    case Basic => "#718096"
    case Unique => "#3182CE"
    case Neutral => "#A0AEC0"
    case Monster => "#6B46C1"
    case Forbidden => "#E53E3E"
  }

  /** The colour of a generated picture: one shared colour for the ultimate card. */
  function ImageColor(data: CardData): string
  {
    if data.isUltimate then "#805AD5" else KindColor(data.cardType)
  }

  /** The picture of a deck entry: its own when it has a non-empty one (the empty
      string is falsy), otherwise a generated placeholder from its name and colour.
      The generator is a parameter, since the picture is built by the browser. */
  function ImageUrlOf(data: CardData, generate: (string, string) -> string): (url: string)
    ensures data.imageUrl.Some? && data.imageUrl.value != "" ==> url == data.imageUrl.value
    ensures (data.imageUrl.None? || data.imageUrl.value == "") ==> url == generate(data.name, ImageColor(data))
  {
    if data.imageUrl.Some? && data.imageUrl.value != "" then data.imageUrl.value
    else generate(data.name, ImageColor(data))
  }

  /** The card one deck entry becomes. */
  function CardFromData(data: CardData, generate: (string, string) -> string): Card
  {
    CreateCard(data.id, data.cardType, data.name,
               CardOptions(data.isUltimate, data.effects, Some(ImageUrlOf(data, generate))))
  }

  /** The deck built entry by entry, in order: same length, and each card keeps its
      entry's id, kind, name, ultimate flag and effects, starts unconverted and
      stateless, and always has a picture. */
  function CreateDeckFromData(data: seq<CardData>, generate: (string, string) -> string): (deck: seq<Card>)
    ensures |deck| == |data|
    ensures forall i :: 0 <= i < |data| ==>
      && deck[i].id == data[i].id
      && deck[i].cardType == data[i].cardType
      && deck[i].originalType == data[i].cardType
      && deck[i].name == Some(data[i].name)
      && deck[i].state == NoState
      && deck[i].isUltimate == data[i].isUltimate
      && deck[i].effects == data[i].effects
      && !deck[i].isDuplicate
      && deck[i].imageUrl == Some(ImageUrlOf(data[i], generate))
  {
    if data == [] then []
    else [CardFromData(data[0], generate)] + CreateDeckFromData(data[1..], generate)
  }

  function BasicEntry(id: int): CardData
  {
    CardData(id, Basic, "Basic Card", false, None, None)
  }

  function UniqueEntry(id: int): CardData
  {
    CardData(id, Unique, "Unique Card", false, None, None)
  }

  /** The entries of the default deck. */
  const DefaultDeckData: seq<CardData> := [
    BasicEntry(1), BasicEntry(2), BasicEntry(3),
    UniqueEntry(4), UniqueEntry(5), UniqueEntry(6), UniqueEntry(7),
    CardData(8, Unique, "Ultimate Card", true, None, None)
  ]

  /** The default deck. */
  function DefaultDeck(generate: (string, string) -> string): seq<Card>
  {
    CreateDeckFromData(DefaultDeckData, generate)
  }

  /** Eight cards with the ids 1 to 8 in order (so no id repeats): three Basic cards
      first, then five Unique ones, the last of which, and only it, is the ultimate card.
      Every card is in its original kind and carries no bonus state. */
  lemma DefaultDeckShape(generate: (string, string) -> string)
    ensures var deck := DefaultDeck(generate);
      && |deck| == 8
      && (forall i :: 0 <= i < 8 ==> deck[i].id == i + 1)
      && (forall i :: 0 <= i < 3 ==> deck[i].cardType == Basic)
      && (forall i :: 3 <= i < 8 ==> deck[i].cardType == Unique)
      && (forall i :: 0 <= i < 8 ==> (deck[i].isUltimate <==> i == 7))
      && (forall i :: 0 <= i < 8 ==> deck[i].originalType == deck[i].cardType && deck[i].state == NoState && !deck[i].isDuplicate)
  {
    DefaultDataShape();
  }

  /** The default entries: ids 1 to 8, three Basic then five Unique, the last ultimate. */
  lemma DefaultDataShape()
    ensures |DefaultDeckData| == 8
    ensures forall i :: 0 <= i < 8 ==> DefaultDeckData[i].id == i + 1
    ensures forall i :: 0 <= i < 3 ==> DefaultDeckData[i].cardType == Basic
    ensures forall i :: 3 <= i < 8 ==> DefaultDeckData[i].cardType == Unique
    ensures forall i :: 0 <= i < 8 ==> (DefaultDeckData[i].isUltimate <==> i == 7)
  {
  }

  /** Seeded from the default deck, new card ids start at 9. */
  lemma DefaultSeedNextId(generate: (string, string) -> string)
    ensures |DefaultDeck(generate)| > 0
    ensures InitialGameState(DefaultDeck(generate)).nextId == 9
  {
    var deck := DefaultDeck(generate);
    DefaultDeckShape(generate);
    var s := InitialGameState(deck);
    var k :| 0 <= k < |deck| && deck[k].id == s.nextId - 1;
    assert deck[k].id <= deck[7].id == 8;
  }

  /** Seeded from the default deck, the score is 0 whatever the point values. */
  lemma DefaultSeedScoresZero(rules: Rules, generate: (string, string) -> string)
    requires rules.Valid()
    ensures |DefaultDeck(generate)| > 0
    ensures TotalScore(rules, InitialGameState(DefaultDeck(generate)), Ids(DefaultDeck(generate))) == 0
  {
    var deck := DefaultDeck(generate);
    DefaultDeckShape(generate);
    forall c | c in deck
      ensures c.cardType == c.originalType && c.state == NoState
    {
      var i :| 0 <= i < |deck| && deck[i] == c;
    }
    SeedScoresZero(rules, deck);
  }

  /** The card an Add action creates is the factory's card of that kind, named after
      the kind, with no options set. */
  lemma AddedCardIsFactoryCard(id: int, t: CardType)
    ensures Actions.NewCard(id, t) == CreateCard(id, t, TypeLabel(t) + " Card", CardOptions(false, None, None))
  {
  }
}
