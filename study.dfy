/** Study mode: a cursor over the deck showing one card at a time, with a
    flippable card face, back and next buttons that are disabled at the ends,
    and the switch into the exam and back. */
module Study {
  import opened Deck
  import opened Shuffle
  import opened Matching
  import opened Exam

  /** The position after a click on next among n cards: one further, except on the last card. */
  function NextIndex(i: nat, n: nat): (r: nat)
    requires i < n
    ensures r < n
    ensures r == i <==> i == n - 1
    ensures r != i ==> r == i + 1
  {
    if i < n - 1 then i + 1 else i
  }

  /** The position after a click on back: one earlier, except on the first card. */
  function PreviousIndex(i: nat): (r: nat)
    ensures r <= i
    ensures r == i <==> i == 0
    ensures r != i ==> r + 1 == i
  {
    if i > 0 then i - 1 else i
  }

  /** The position after k clicks on next. */
  function Nexts(i: nat, n: nat, k: nat): nat
    requires i < n
  {
    if k == 0 then i else NextIndex(Nexts(i, n, k - 1), n)
  }

  /** The position after k clicks on back. */
  function Previouses(i: nat, k: nat): nat
  {
    if k == 0 then i else PreviousIndex(Previouses(i, k - 1))
  }

  /** Clicking next k times moves k cards on, stopping at the last card. */
  lemma {:induction false} NextsSaturate(i: nat, n: nat, k: nat)
    requires i < n
    ensures Nexts(i, n, k) == if i + k < n then i + k else n - 1
  {
    if k > 0 {
      NextsSaturate(i, n, k - 1);
    }
  }

  /** Clicking back k times moves k cards back, stopping at the first card. */
  lemma {:induction false} PreviousesSaturate(i: nat, k: nat)
    ensures Previouses(i, k) == if k <= i then i - k else 0
  {
    if k > 0 {
      PreviousesSaturate(i, k - 1);
    }
  }

  /** Next then back returns to the same card exactly when next was enabled,
      or both buttons were disabled (a deck of one card). */
  lemma NextThenPrevious(i: nat, n: nat)
    requires i < n
    ensures PreviousIndex(NextIndex(i, n)) == i <==> (i < n - 1 || i == 0)
  {
  }

  /** Back then next returns to the same card exactly when back was enabled,
      or both buttons were disabled (a deck of one card). */
  lemma PreviousThenNext(i: nat, n: nat)
    requires i < n
    ensures NextIndex(PreviousIndex(i), n) == i <==> (i > 0 || i == n - 1)
  {
  }

  /** What the study page shows: the card's front and back texts and the
      position counter "current of total". */
  datatype StudyView = StudyView(front: string, back: string, example: string, current: nat, total: nat)

  /** The page for card i of the deck. */
  function ViewOf(cards: seq<Card>, i: nat): (v: StudyView)
    requires i < |cards|
    ensures v.front == cards[i].word && v.back == cards[i].translation && v.example == cards[i].example
    ensures v.current == i + 1 && v.total == |cards|
    ensures 1 <= v.current <= v.total
  {
    StudyView(cards[i].word, cards[i].translation, cards[i].example, i + 1, |cards|)
  }

  class StudyMode {
    const cards: seq<Card>
    var currentIndex: nat
    /** Whether the card shows its back side. */
    var flipped: bool
    var backDisabled: bool
    var nextDisabled: bool
    /** The texts on the page. */
    var view: StudyView
    /** Whether the study view is shown; the exam view is shown otherwise. */
    var studyVisible: bool
    /** The exam session last started, if any. */
    var examMode: ExamMode?

    /** The page shows the current card, and each button is disabled exactly on
        the end of the deck it would move past. */
    ghost predicate Valid()
      reads this
    {
      |cards| > 0 && currentIndex < |cards| &&
      view == ViewOf(cards, currentIndex) &&
      backDisabled == (currentIndex == 0) &&
      nextDisabled == (currentIndex == |cards| - 1)
    }

    /** Opens the deck on its first card, face up, with the study view shown. */
    constructor (cards: seq<Card>)
      requires |cards| > 0
      ensures Valid()
      ensures this.cards == cards && currentIndex == 0 && !flipped
      ensures studyVisible && examMode == null
    {
      this.cards := cards;
      currentIndex := 0;
      flipped := false;
      backDisabled := true;
      nextDisabled := |cards| == 1;
      view := ViewOf(cards, 0);
      studyVisible := false;
      examMode := null;
      new;
      RenderCard();
      ShowStudyMode();
    }

    /** Shows the current card, updates the buttons and turns the card face up. */
    method RenderCard()
      requires currentIndex < |cards|
      modifies this
      ensures Valid()
      ensures !flipped
      ensures currentIndex == old(currentIndex)
      ensures studyVisible == old(studyVisible) && examMode == old(examMode)
    {
      view := ViewOf(cards, currentIndex);
      UpdateNavigationButtons();
      ResetFlipCard();
    }

    /** A click on the card turns it over. */
    method FlipCard()
      modifies this
      ensures flipped == !old(flipped)
      ensures currentIndex == old(currentIndex) && view == old(view)
      ensures backDisabled == old(backDisabled) && nextDisabled == old(nextDisabled)
      ensures studyVisible == old(studyVisible) && examMode == old(examMode)
    {
      flipped := !flipped;
    }

    /** A click on next: moves one card on unless on the last card, where nothing changes. */
    method NextCard()
      requires Valid()
      modifies this
      ensures Valid()
      ensures currentIndex == NextIndex(old(currentIndex), |cards|)
      ensures flipped == (if old(currentIndex) < |cards| - 1 then false else old(flipped))
      ensures studyVisible == old(studyVisible) && examMode == old(examMode)
    {
      if currentIndex < |cards| - 1 {
        currentIndex := currentIndex + 1;
        RenderCard();
      }
    }

    /** A click on back: moves one card back unless on the first card, where nothing changes. */
    method PreviousCard()
      requires Valid()
      modifies this
      ensures Valid()
      ensures currentIndex == PreviousIndex(old(currentIndex))
      ensures flipped == (if old(currentIndex) > 0 then false else old(flipped))
      ensures studyVisible == old(studyVisible) && examMode == old(examMode)
    {
      if currentIndex > 0 {
        currentIndex := currentIndex - 1;
        RenderCard();
      }
    }

    /** Back is disabled on the first card, next on the last. */
    method UpdateNavigationButtons()
      modifies this
      ensures backDisabled == (currentIndex == 0)
      ensures nextDisabled == (currentIndex == |cards| - 1)
      ensures currentIndex == old(currentIndex) && view == old(view) && flipped == old(flipped)
      ensures studyVisible == old(studyVisible) && examMode == old(examMode)
    {
      backDisabled := currentIndex == 0;
      nextDisabled := currentIndex == |cards| - 1;
    }

    /** Turns the card face up. */
    method ResetFlipCard()
      modifies this
      ensures !flipped
      ensures currentIndex == old(currentIndex) && view == old(view)
      ensures backDisabled == old(backDisabled) && nextDisabled == old(nextDisabled)
      ensures studyVisible == old(studyVisible) && examMode == old(examMode)
    {
      flipped := false;
    }

    /** A click on the exam button: hides the study view and starts a fresh exam
        over the whole deck, shuffled with the random indices `js`. */
    method StartExam(js: seq<nat>)
      requires Valid() && ChoicesFit(js, 2 * |cards|)
      modifies this
      ensures Valid() && !studyVisible
      ensures examMode != null && fresh(examMode) && examMode.Valid()
      ensures examMode.cards == cards && examMode.State() == Init(examMode.elements)
      ensures currentIndex == old(currentIndex) && flipped == old(flipped)
    {
      HideStudyMode();
      examMode := new ExamMode(cards, js);
    }

    /** The exam's finish callback: the exam records its completion and the
        study view is shown again, on the card that was current when the exam
        started. */
    method FinishExam()
      requires Valid() && examMode != null && examMode.Valid() && examMode.finishTimers > 0
      modifies this, examMode
      ensures Valid() && studyVisible
      ensures examMode == old(examMode) && examMode.Valid()
      ensures examMode.State() == FireFinish(old(examMode.State()))
      ensures currentIndex == old(currentIndex) && flipped == old(flipped)
    {
      examMode.Finish();
      ShowStudyMode();
    }

    /** Shows the study view and hides the exam view. */
    method ShowStudyMode()
      modifies this
      ensures studyVisible
      ensures currentIndex == old(currentIndex) && view == old(view) && flipped == old(flipped)
      ensures backDisabled == old(backDisabled) && nextDisabled == old(nextDisabled)
      ensures examMode == old(examMode)
    {
      studyVisible := true;
    }

    /** Hides the study view and shows the exam view. */
    method HideStudyMode()
      modifies this
      ensures !studyVisible
      ensures currentIndex == old(currentIndex) && view == old(view) && flipped == old(flipped)
      ensures backDisabled == old(backDisabled) && nextDisabled == old(nextDisabled)
      ensures examMode == old(examMode)
    {
      studyVisible := false;
    }
  }
}
