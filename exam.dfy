/** The exam: a matching-pairs quiz over the deck. The page's tile elements are
    kept as the rendered tile records plus one tag set per tile; every method
    changes the session exactly as the matching state machine says. */
module Exam {
  import opened Deck
  import opened Shuffle
  import opened Matching

  class ExamMode {
    const cards: seq<Card>
    /** The exam items, shuffled once when the session starts. */
    const allExamCards: array<Item>
    /** The rendered tiles, in board order. */
    var elements: seq<Tile>
    /** The class set of each rendered tile. */
    var tags: seq<set<Tag>>
    var selectedCards: seq<nat>
    var correctPairs: nat
    /** Mismatch resets scheduled and not yet fired, each with the two tiles it captured. */
    var resetTimers: seq<PendingReset>
    /** Finish callbacks scheduled and not yet fired. */
    var finishTimers: nat
    /** Finish callbacks fired. */
    var finished: nat

    /** The session as a board of the matching state machine. */
    function State(): Board
      reads this
    {
      Board(tags, selectedCards, correctPairs, resetTimers, finishTimers, finished)
    }

    ghost predicate Valid()
      reads this, allExamCards
    {
      elements == Render(allExamCards[..]) &&
      multiset(allExamCards[..]) == multiset(BuildItems(cards)) &&
      Inv(elements, |cards|, State())
    }

    /** Builds a word item and a translation item per card, shuffles them with
        the supplied random indices and renders them, untagged. */
    constructor (cards: seq<Card>, js: seq<nat>)
      requires ChoicesFit(js, 2 * |cards|)
      ensures Valid() && fresh(allExamCards)
      ensures this.cards == cards
      ensures allExamCards[..] == Shuffled(BuildItems(cards), js)
      ensures State() == Init(elements)
    {
      this.cards := cards;
      selectedCards := [];
      correctPairs := 0;
      var items := BuildItems(cards);
      var a := new Item[|items|](i requires 0 <= i < |items| => items[i]);
      assert a[..] == items;
      ShuffleInPlace(a, js);
      allExamCards := a;
      elements := [];
      tags := [];
      resetTimers := [];
      finishTimers := 0;
      finished := 0;
      new;
      RenderExamCards();
      InitInv(elements, |cards|);
    }

    /** Creates one tile per item, in board order, with no tag on any of them. */
    method RenderExamCards()
      modifies this
      ensures elements == Render(allExamCards[..])
      ensures tags == Init(elements).tags
      ensures selectedCards == old(selectedCards) && correctPairs == old(correctPairs)
      ensures resetTimers == old(resetTimers) && finishTimers == old(finishTimers)
      ensures finished == old(finished)
    {
      var shown: seq<Tile> := [];
      var i := 0;
      while i < allExamCards.Length
        invariant 0 <= i <= allExamCards.Length
        invariant shown == Render(allExamCards[..i])
      {
        shown := shown + [ToTile(allExamCards[i])];
        i := i + 1;
      }
      assert allExamCards[..i] == allExamCards[..];
      elements := shown;
      tags := seq(|shown|, _ => {});
    }

    /** A click on tile t. */
    method SelectCard(t: nat)
      requires Valid() && t < |elements|
      modifies this
      ensures Valid()
      ensures elements == old(elements)
      ensures State() == Select(elements, |cards|, old(State()), t)
    {
      ghost var before := State();
      ghost var items := allExamCards[..];
      if |selectedCards| < 2 && FadeOut !in tags[t] && Selected !in tags[t] {
        tags := tags[t := tags[t] + {Selected}];
        selectedCards := selectedCards + [t];
        if |selectedCards| == 1 {
          assert tags[t] + {Correct} == before.tags[t] + {Selected, Correct};
          tags := tags[t := tags[t] + {Correct}];
          assert tags == before.tags[t := before.tags[t] + {Selected, Correct}];
        }
        if |selectedCards| == 2 {
          CheckPairs();
        }
      }
      assert State() == Select(elements, |cards|, before, t);
      assert Inv(elements, |cards|, State()) by { SelectInv(elements, |cards|, before, t); }
      assert allExamCards[..] == items;
    }

    /** Evaluates the two picked tiles. */
    method CheckPairs()
      requires Shaped(elements, State()) && |selectedCards| == 2
      modifies this
      ensures elements == old(elements)
      ensures State() == Matching.CheckPairs(elements, |cards|, old(State()))
    {
      var first, second := selectedCards[0], selectedCards[1];
      if elements[first].matchText == elements[second].text && elements[first].kind != elements[second].kind {
        tags := tags[first := tags[first] + {FadeOut}];
        tags := tags[second := tags[second] + {FadeOut}];
        correctPairs := correctPairs + 1;
        selectedCards := [];
        if correctPairs == |cards| {
          finishTimers := finishTimers + 1;
        }
      } else {
        tags := tags[second := tags[second] + {Wrong}];
        resetTimers := resetTimers + [PendingReset(first, second)];
      }
    }

    /** The mismatch timer fires: the two tiles it captured lose their round
        tags and the selection is cleared. */
    method MismatchReset()
      requires Valid() && |resetTimers| > 0
      modifies this
      ensures Valid()
      ensures elements == old(elements)
      ensures State() == FireReset(elements, old(State()))
    {
      ghost var before := State();
      var pending := resetTimers[0];
      resetTimers := resetTimers[1..];
      tags := tags[pending.first := tags[pending.first] - {Correct, Selected}];
      tags := tags[pending.second := tags[pending.second] - {Wrong, Selected}];
      selectedCards := [];
      FireResetInv(elements, |cards|, before);
    }

    /** The finish timer fires and the session reports completion. */
    method Finish()
      requires Valid() && finishTimers > 0
      modifies this
      ensures Valid()
      ensures elements == old(elements)
      ensures State() == FireFinish(old(State()))
    {
      ghost var before := State();
      finishTimers := finishTimers - 1;
      finished := finished + 1;
      FireFinishInv(elements, |cards|, before);
    }
  }

  /** Every session starts with exactly one word tile and one translation tile per card. */
  lemma SessionKindCounts(cards: seq<Card>, js: seq<nat>)
    requires ChoicesFit(js, 2 * |cards|)
    ensures Counting.Count(Shuffled(BuildItems(cards), js), IsWordItem) == |cards|
    ensures Counting.Count(Shuffled(BuildItems(cards), js), IsTranslationItem) == |cards|
  {
    KindCounts(cards);
    ShuffledKeepsCount(BuildItems(cards), js, IsWordItem);
    ShuffledKeepsCount(BuildItems(cards), js, IsTranslationItem);
  }

  /** However the tiles were shuffled, every tile of a session has a partner on the board. */
  lemma SessionTilesPaired(cards: seq<Card>, js: seq<nat>, i: nat)
    requires ChoicesFit(js, 2 * |cards|)
    requires i < 2 * |cards|
    ensures var items := Shuffled(BuildItems(cards), js);
      exists j :: 0 <= j < |items| && j != i && IsMatch(ToTile(items[i]), ToTile(items[j]))
  {
    ShuffledPermutes(BuildItems(cards), js);
    EveryTileHasPartner(cards, Shuffled(BuildItems(cards), js), i);
  }

  /** However the tiles were shuffled, both tiles of every card are on the board:
      the word tile matching the translation and the translation tile matching the word. */
  lemma SessionHasCardTiles(cards: seq<Card>, js: seq<nat>, k: nat)
    requires ChoicesFit(js, 2 * |cards|)
    requires k < |cards|
    ensures var tiles := Render(Shuffled(BuildItems(cards), js));
      Tile(Word, cards[k].word, cards[k].translation) in tiles &&
      Tile(Translation, cards[k].translation, cards[k].word) in tiles
  {
    var built := BuildItems(cards);
    var items := Shuffled(built, js);
    var tiles := Render(items);
    ShuffledPermutes(built, js);
    assert built[k] in multiset(items);
    var i :| 0 <= i < |items| && items[i] == built[k];
    assert tiles[i] == Tile(Word, cards[k].word, cards[k].translation);
    assert built[|cards| + k] in multiset(items);
    var j :| 0 <= j < |items| && items[j] == built[|cards| + k];
    assert tiles[j] == Tile(Translation, cards[k].translation, cards[k].word);
  }

  /** The three rounds of the example below on any board of four tiles where
      tiles 0 and 2 and tiles 1 and 3 pair up, and tile 3 is no partner for tile 0. */
  lemma FourTileRounds(tiles: seq<Tile>, miss: seq<Event>, pair1: seq<Event>, pair2: seq<Event>)
    requires |tiles| == 4
    requires IsMatch(tiles[0], tiles[2]) && IsMatch(tiles[1], tiles[3]) && !IsMatch(tiles[0], tiles[3])
    requires miss == [Click(0), Click(3), ResetFires]
    requires pair1 == [Click(0), Click(2)] && pair2 == [Click(1), Click(3)]
    ensures Run(tiles, 2, Init(tiles), miss) == Init(tiles)
    ensures var b := Run(tiles, 2, Run(tiles, 2, Init(tiles), pair1), pair2);
      b.correctPairs == 2 && b.finishTimers == 1 && b.finished == 0 && b.selection == []
  {
    var b0 := Init(tiles);
    InitInv(tiles, 2);
    // a mismatch; the reset restores the starting board
    MismatchRound(tiles, 2, b0, 0, 3);
    // the first pair
    MatchRound(tiles, 2, b0, 0, 2);
    var b1 := Run(tiles, 2, b0, pair1);
    RunInv(tiles, 2, b0, pair1);
    // the last pair schedules the finish callback
    MatchRound(tiles, 2, b1, 1, 3);
  }

  /** The example below on any such board of four tiles: the session is the
      mismatched round with its reset, the two pairs, and the finish callback. */
  lemma FourTileSession(tiles: seq<Tile>, miss: seq<Event>, pair1: seq<Event>, pair2: seq<Event>, events: seq<Event>)
    requires |tiles| == 4
    requires IsMatch(tiles[0], tiles[2]) && IsMatch(tiles[1], tiles[3]) && !IsMatch(tiles[0], tiles[3])
    requires miss == [Click(0), Click(3), ResetFires]
    requires pair1 == [Click(0), Click(2)] && pair2 == [Click(1), Click(3)]
    requires events == miss + pair1 + pair2 + [FinishFires]
    ensures var b := Run(tiles, 2, Init(tiles), events);
      b.correctPairs == 2 && b.finished == 1 && b.selection == []
  {
    FourTileRounds(tiles, miss, pair1, pair2);
    var b0 := Init(tiles);
    var b1 := Run(tiles, 2, b0, pair1);
    var b2 := Run(tiles, 2, b1, pair2);
    RunAppend(tiles, 2, b0, miss + pair1 + pair2, [FinishFires]);
    RunAppend(tiles, 2, b0, miss + pair1, pair2);
    RunAppend(tiles, 2, b0, miss, pair1);
    RunCons(tiles, 2, b2, FinishFires, []);
    assert [FinishFires] + [] == [FinishFires];
  }

  /** A two-card session played click by click, as with the cards
      ("Hello", "Привет") and ("Book", "Книга"): the first word followed by the
      second translation is no pair and is reset, then both pairs are found,
      after which the finish callback fires once. The shuffle here keeps the
      order (j = i at every step), so the board is word 1, word 2, translation 1,
      translation 2. */
  lemma ExampleSession(c1: Card, c2: Card, events: seq<Event>)
    requires c1.translation != c2.translation
    requires events == [Click(0), Click(3), ResetFires, Click(0), Click(2), Click(1), Click(3), FinishFires]
    ensures var tiles := Render(Shuffled(BuildItems([c1, c2]), [0, 1, 2, 3]));
      var b := Run(tiles, 2, Init(tiles), events);
      b.correctPairs == 2 && b.finished == 1 && b.selection == []
  {
    ShuffledFromIdentity(BuildItems([c1, c2]), [0, 1, 2, 3], 1);
    var tiles := Render(Shuffled(BuildItems([c1, c2]), [0, 1, 2, 3]));
    assert tiles == [Tile(Word, c1.word, c1.translation), Tile(Word, c2.word, c2.translation),
                     Tile(Translation, c1.translation, c1.word), Tile(Translation, c2.translation, c2.word)];
    var miss, pair1, pair2 := events[..3], events[3..5], events[5..7];
    assert events == miss + pair1 + pair2 + [FinishFires];
    FourTileSession(tiles, miss, pair1, pair2, events);
  }
}
