/** The vocabulary cards and the exam tiles derived from them. */
module Deck {
  import opened Counting

  /** One vocabulary card; never changed once built. */
  datatype Card = Card(word: string, translation: string, example: string)

  /** The two sides a tile can show. */
  datatype Kind = Word | Translation

  /** The plain record the exam builds for each side of a card: a word item
      remembers the translation, a translation item remembers the word. */
  datatype Item =
    | WordItem(text: string, translation: string)
    | TranslationItem(text: string, word: string)

  /** A rendered exam tile: its kind, the text it shows and the text of the
      tile it pairs with. */
  datatype Tile = Tile(kind: Kind, text: string, matchText: string)

  predicate IsWordItem(it: Item) { it.WordItem? }

  predicate IsTranslationItem(it: Item) { it.TranslationItem? }

  /** The word items, one per card, in deck order. */
  function WordItems(cards: seq<Card>): (r: seq<Item>)
    ensures |r| == |cards|
    ensures forall k :: 0 <= k < |cards| ==> r[k] == WordItem(cards[k].word, cards[k].translation)
  {
    seq(|cards|, k requires 0 <= k < |cards| => WordItem(cards[k].word, cards[k].translation))
  }

  /** The translation items, one per card, in deck order. */
  function TranslationItems(cards: seq<Card>): (r: seq<Item>)
    ensures |r| == |cards|
    ensures forall k :: 0 <= k < |cards| ==> r[k] == TranslationItem(cards[k].translation, cards[k].word)
  {
    seq(|cards|, k requires 0 <= k < |cards| => TranslationItem(cards[k].translation, cards[k].word))
  }

  /** All exam items before shuffling: the word items, then the translation items. */
  function BuildItems(cards: seq<Card>): (r: seq<Item>)
    ensures |r| == 2 * |cards|
    ensures forall k :: 0 <= k < |cards| ==>
      r[k] == WordItem(cards[k].word, cards[k].translation) &&
      r[|cards| + k] == TranslationItem(cards[k].translation, cards[k].word)
  {
    WordItems(cards) + TranslationItems(cards)
  }

  /** The tile an item is rendered as: a word shows the word and pairs with
      the translation, a translation shows the translation and pairs with the word. */
  function ToTile(it: Item): Tile
  {
    match it
    case WordItem(w, t) => Tile(Word, w, t)
    case TranslationItem(t, w) => Tile(Translation, t, w)
  }

  /** The rendered board, one tile per item, in the same order. */
  function Render(items: seq<Item>): (r: seq<Tile>)
    ensures |r| == |items|
    ensures forall i :: 0 <= i < |items| ==> r[i] == ToTile(items[i])
  {
    seq(|items|, i requires 0 <= i < |items| => ToTile(items[i]))
  }

  /** The pair test of the exam: the first tile's match text is the second
      tile's shown text and the tiles are of different kinds. */
  predicate IsMatch(first: Tile, second: Tile)
  {
    first.matchText == second.text && first.kind != second.kind
  }

  /** Exactly half of the items are words and half are translations. */
  lemma KindCounts(cards: seq<Card>)
    ensures Count(BuildItems(cards), IsWordItem) == |cards|
    ensures Count(BuildItems(cards), IsTranslationItem) == |cards|
  {
    var w, t := WordItems(cards), TranslationItems(cards);
    CountAppend(w, t, IsWordItem);
    CountAppend(w, t, IsTranslationItem);
    CountAll(w, IsWordItem);
    CountNone(t, IsWordItem);
    CountNone(w, IsTranslationItem);
    CountAll(t, IsTranslationItem);
  }

  /** Card k's word tile and translation tile carry the card's texts crosswise,
      and each one is accepted as the partner of the other in either order. */
  lemma TilesOfCard(cards: seq<Card>, k: nat)
    requires k < |cards|
    ensures Render(BuildItems(cards))[k] == Tile(Word, cards[k].word, cards[k].translation)
    ensures Render(BuildItems(cards))[|cards| + k] == Tile(Translation, cards[k].translation, cards[k].word)
    ensures IsMatch(Render(BuildItems(cards))[k], Render(BuildItems(cards))[|cards| + k])
    ensures IsMatch(Render(BuildItems(cards))[|cards| + k], Render(BuildItems(cards))[k])
  {
  }

  /** Whatever order the items are put in, every tile has a partner elsewhere on the board. */
  lemma {:induction false} EveryTileHasPartner(cards: seq<Card>, items: seq<Item>, i: nat)
    requires multiset(items) == multiset(BuildItems(cards))
    requires i < |items|
    ensures exists j :: 0 <= j < |items| && j != i && IsMatch(ToTile(items[i]), ToTile(items[j]))
  {
    var built := BuildItems(cards);
    var n := |cards|;
    assert items[i] in multiset(built);
    var k :| 0 <= k < |built| && built[k] == items[i];
    var partner := if k < n then built[n + k] else built[k - n];
    assert IsMatch(ToTile(items[i]), ToTile(partner));
    assert partner in multiset(items);
    var j :| 0 <= j < |items| && items[j] == partner;
    assert ToTile(items[j]).kind != ToTile(items[i]).kind;
  }

  /** A deck where no two cards share a word or a translation. */
  predicate OneToOne(cards: seq<Card>)
  {
    forall a, b :: 0 <= a < |cards| && 0 <= b < |cards| && a != b ==>
      cards[a].word != cards[b].word && cards[a].translation != cards[b].translation
  }

  /** On a deck where words and translations do not repeat, the pair test
      does not depend on which tile was picked first. */
  lemma MatchSymmetricOnOneToOneDeck(cards: seq<Card>, a: nat, b: nat)
    requires OneToOne(cards)
    requires a < 2 * |cards| && b < 2 * |cards|
    ensures IsMatch(Render(BuildItems(cards))[a], Render(BuildItems(cards))[b])
        <==> IsMatch(Render(BuildItems(cards))[b], Render(BuildItems(cards))[a])
  {
    var n := |cards|;
    var tiles := Render(BuildItems(cards));
    var ca := if a < n then a else a - n;
    var cb := if b < n then b else b - n;
    TilesOfCard(cards, ca);
    TilesOfCard(cards, cb);
  }

  /** When two cards with different words share a translation, the pair test
      depends on the order of the two picks: card a's word followed by card b's
      translation tile is accepted, the reverse order is not (card b's
      translation tile remembers card b's word). */
  lemma MatchOrderMatters(cards: seq<Card>, a: nat, b: nat)
    requires a < |cards| && b < |cards|
    requires cards[a].translation == cards[b].translation && cards[a].word != cards[b].word
    ensures var tiles := Render(BuildItems(cards));
            IsMatch(tiles[a], tiles[|cards| + b]) && !IsMatch(tiles[|cards| + b], tiles[a])
  {
    TilesOfCard(cards, a);
    TilesOfCard(cards, b);
  }
}
