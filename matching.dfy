/** The matching game of the exam as a state machine over the rendered tiles.
    Tiles are addressed by their position on the board; what the page keeps in
    each tile's class list is the tile's tag set. The two deferred callbacks of
    the game (the mismatch reset and the finish announcement) are kept as queues
    of pending timers that the environment fires later. */
module Matching {
  import opened Counting
  import opened Deck

  /** The classes the game puts on a tile. */
  datatype Tag = Selected | Correct | Wrong | FadeOut

  /** The two tiles a pending mismatch reset will clear. */
  datatype PendingReset = PendingReset(first: nat, second: nat)

  /** The mutable part of an exam session. */
  datatype Board = Board(
    tags: seq<set<Tag>>,              // the class set of each tile
    selection: seq<nat>,              // the tiles picked in the current round
    correctPairs: nat,                // pairs matched so far
    resetTimers: seq<PendingReset>,   // mismatch resets scheduled, oldest first
    finishTimers: nat,                // finish callbacks scheduled and not yet fired
    finished: nat)                    // finish callbacks fired

  predicate IsFaded(t: set<Tag>) { FadeOut in t }

  /** The tiles that are still in play and not picked carry no tag. */
  predicate Idle(t: set<Tag>) { t == {} }

  /** Every tile and every selected or pending index refers to a tile of the board. */
  predicate Shaped(tiles: seq<Tile>, b: Board)
  {
    |b.tags| == |tiles| &&
    (forall k :: 0 <= k < |b.selection| ==> b.selection[k] < |tiles|) &&
    (forall k :: 0 <= k < |b.resetTimers| ==>
      b.resetTimers[k].first < |tiles| && b.resetTimers[k].second < |tiles|)
  }

  /** The board right after the tiles are rendered: no tags, nothing picked, no timer. */
  function Init(tiles: seq<Tile>): (b: Board)
    ensures Shaped(tiles, b)
    ensures forall i :: 0 <= i < |tiles| ==> Idle(b.tags[i])
    ensures b.selection == [] && b.correctPairs == 0 && b.resetTimers == []
    ensures b.finishTimers == 0 && b.finished == 0
  {
    Board(seq(|tiles|, _ => {}), [], 0, [], 0, 0)
  }

  /** A click may be taken only while fewer than two tiles are picked and the
      tile is neither matched nor already picked. */
  predicate Selectable(b: Board, t: nat)
    requires t < |b.tags|
  {
    |b.selection| < 2 && FadeOut !in b.tags[t] && Selected !in b.tags[t]
  }

  /** A click on tile t. The first pick of a round is tagged selected and
      correct; the second is tagged selected and the pair is evaluated. */
  function Select(tiles: seq<Tile>, n: nat, b: Board, t: nat): (r: Board)
    requires Shaped(tiles, b) && t < |tiles|
    ensures Shaped(tiles, r)
    ensures !Selectable(b, t) ==> r == b
  {
    if !Selectable(b, t) then b
    else if |b.selection| == 0 then
      b.(tags := b.tags[t := b.tags[t] + {Selected, Correct}], selection := [t])
    else
      CheckPairs(tiles, n, b.(tags := b.tags[t := b.tags[t] + {Selected}], selection := b.selection + [t]))
  }

  /** The evaluation of the two picked tiles (n is the number of cards). */
  function CheckPairs(tiles: seq<Tile>, n: nat, b: Board): (r: Board)
    requires Shaped(tiles, b) && |b.selection| == 2
    ensures Shaped(tiles, r)
    ensures r.finished == b.finished
  {
    var first, second := b.selection[0], b.selection[1];
    if IsMatch(tiles[first], tiles[second]) then
      var tags := b.tags[first := b.tags[first] + {FadeOut}];
      var pairs := b.correctPairs + 1;
      b.(tags := tags[second := tags[second] + {FadeOut}],
         correctPairs := pairs,
         selection := [],
         finishTimers := if pairs == n then b.finishTimers + 1 else b.finishTimers)
    else
      b.(tags := b.tags[second := b.tags[second] + {Wrong}],
         resetTimers := b.resetTimers + [PendingReset(first, second)])
  }

  /** The oldest mismatch reset fires: the two tiles it captured lose their
      round tags and the selection is cleared. */
  function FireReset(tiles: seq<Tile>, b: Board): (r: Board)
    requires Shaped(tiles, b) && |b.resetTimers| > 0
    ensures Shaped(tiles, r)
    ensures r.selection == [] && |r.resetTimers| == |b.resetTimers| - 1
    ensures r.correctPairs == b.correctPairs
    ensures var p := b.resetTimers[0];
      Selected !in r.tags[p.first] && Correct !in r.tags[p.first] &&
      Selected !in r.tags[p.second] && Wrong !in r.tags[p.second]
    ensures var p := b.resetTimers[0];
      forall i :: 0 <= i < |b.tags| && i != p.first && i != p.second ==> r.tags[i] == b.tags[i]
    ensures r.resetTimers == b.resetTimers[1..]
    ensures r.(tags := b.tags, selection := b.selection, resetTimers := b.resetTimers) == b
  {
    var p := b.resetTimers[0];
    var tags := b.tags[p.first := b.tags[p.first] - {Correct, Selected}];
    b.(tags := tags[p.second := tags[p.second] - {Wrong, Selected}],
       selection := [],
       resetTimers := b.resetTimers[1..])
  }

  /** The oldest finish callback fires. */
  function FireFinish(b: Board): (r: Board)
    requires b.finishTimers > 0
    ensures r.finished == b.finished + 1 && r.finishTimers == b.finishTimers - 1
    ensures r.(finished := b.finished, finishTimers := b.finishTimers) == b
  {
    b.(finishTimers := b.finishTimers - 1, finished := b.finished + 1)
  }

  /** A tile is picked exactly when it is selected and not matched. */
  predicate PickedIffSelected(tiles: seq<Tile>, b: Board)
    requires |b.tags| == |tiles|
  {
    forall i :: 0 <= i < |tiles| ==>
      (i in b.selection <==> (Selected in b.tags[i] && FadeOut !in b.tags[i]))
  }

  /** Tiles in play that are not picked carry no tag. */
  predicate RestIdle(tiles: seq<Tile>, b: Board)
    requires |b.tags| == |tiles|
  {
    forall i :: 0 <= i < |tiles| && FadeOut !in b.tags[i] && i !in b.selection ==> Idle(b.tags[i])
  }

  /** The invariant of a session over `tiles` built from n cards. */
  predicate Inv(tiles: seq<Tile>, n: nat, b: Board)
  {
    Shaped(tiles, b) && |tiles| == 2 * n &&
    // at most two tiles are picked, and never the same one twice
    |b.selection| <= 2 &&
    (|b.selection| == 2 ==> b.selection[0] != b.selection[1]) &&
    PickedIffSelected(tiles, b) &&
    RestIdle(tiles, b) &&
    // the first pick is tagged correct, the second (pending reset) wrong
    (|b.selection| >= 1 ==> b.tags[b.selection[0]] == {Selected, Correct}) &&
    (|b.selection| == 2 ==> b.tags[b.selection[1]] == {Selected, Wrong}) &&
    // matched tiles come in pairs
    Count(b.tags, IsFaded) == 2 * b.correctPairs &&
    b.correctPairs <= n &&
    // a reset is pending exactly while two tiles are picked, and it captured them
    |b.resetTimers| == (if |b.selection| == 2 then 1 else 0) &&
    (|b.selection| == 2 ==> b.resetTimers[0] == PendingReset(b.selection[0], b.selection[1])) &&
    // the finish callback is scheduled once, when the last pair is matched
    b.finishTimers + b.finished == (if n > 0 && b.correctPairs == n then 1 else 0)
  }

  lemma InitInv(tiles: seq<Tile>, n: nat)
    requires |tiles| == 2 * n
    ensures Inv(tiles, n, Init(tiles))
  {
    var b := Init(tiles);
    CountNone(b.tags, IsFaded);
  }

  /** Matched tiles can never outnumber the board. */
  lemma PairsBounded(tiles: seq<Tile>, n: nat, b: Board)
    requires Shaped(tiles, b) && |tiles| == 2 * n
    requires Count(b.tags, IsFaded) == 2 * b.correctPairs
    ensures b.correctPairs <= n
  {
  }

  /** The first pick of a round keeps the invariant. */
  lemma FirstPickInv(tiles: seq<Tile>, n: nat, b: Board, t: nat)
    requires Inv(tiles, n, b) && t < |tiles| && Selectable(b, t) && |b.selection| == 0
    ensures Inv(tiles, n, Select(tiles, n, b, t))
  {
    assert Idle(b.tags[t]);
    CountUpdate(b.tags, t, b.tags[t] + {Selected, Correct}, IsFaded);
  }

  /** Retagging the two picks of a round alone, and clearing the selection, keeps
      the per-tile parts of the invariant when both tiles end up faded or both idle. */
  lemma RetagPairKeepsTiles(tiles: seq<Tile>, b: Board, f: nat, t: nat, x: set<Tag>, y: set<Tag>)
    requires |b.tags| == |tiles| && f < |tiles| && t < |tiles|
    requires b.selection == [f] || b.selection == [f, t]
    requires PickedIffSelected(tiles, b) && RestIdle(tiles, b)
    requires (FadeOut in x && FadeOut in y) || (x == {} && y == {})
    ensures var r := b.(tags := b.tags[f := x][t := y], selection := []);
      PickedIffSelected(tiles, r) && RestIdle(tiles, r)
  {
    var r := b.(tags := b.tags[f := x][t := y], selection := []);
    forall i | 0 <= i < |tiles| && i != f && i != t
      ensures r.tags[i] == b.tags[i] && i !in b.selection
    {
    }
  }

  /** The board after a matching second pick of tile t on first pick f keeps the invariant. */
  lemma MatchedBoardInv(tiles: seq<Tile>, n: nat, b: Board, t: nat)
    requires Inv(tiles, n, b) && t < |tiles| && |b.selection| == 1
    requires t != b.selection[0] && Idle(b.tags[t])
    ensures var f := b.selection[0];
      Inv(tiles, n, b.(tags := b.tags[f := {Selected, Correct, FadeOut}][t := {Selected, FadeOut}],
                       selection := [],
                       correctPairs := b.correctPairs + 1,
                       finishTimers := if b.correctPairs + 1 == n then 1 else 0))
  {
    var f := b.selection[0];
    var t1 := b.tags[f := {Selected, Correct, FadeOut}];
    var t2 := t1[t := {Selected, FadeOut}];
    var r := b.(tags := t2, selection := [], correctPairs := b.correctPairs + 1,
                finishTimers := if b.correctPairs + 1 == n then 1 else 0);
    assert Count(t2, IsFaded) == 2 * r.correctPairs by {
      CountUpdate(b.tags, f, {Selected, Correct, FadeOut}, IsFaded);
      CountUpdate(t1, t, {Selected, FadeOut}, IsFaded);
    }
    PairsBounded(tiles, n, r);
    assert b.selection == [f];
    RetagPairKeepsTiles(tiles, b, f, t, {Selected, Correct, FadeOut}, {Selected, FadeOut});
  }

  /** A second pick that matches keeps the invariant. */
  lemma MatchPickInv(tiles: seq<Tile>, n: nat, b: Board, t: nat)
    requires Inv(tiles, n, b) && t < |tiles| && Selectable(b, t) && |b.selection| == 1
    requires IsMatch(tiles[b.selection[0]], tiles[t])
    ensures Inv(tiles, n, Select(tiles, n, b, t))
  {
    assert t !in b.selection;
    SecondPick(tiles, n, b, t);
    MatchedBoardInv(tiles, n, b, t);
  }

  /** A second pick that does not match keeps the invariant. */
  lemma MismatchPickInv(tiles: seq<Tile>, n: nat, b: Board, t: nat)
    requires Inv(tiles, n, b) && t < |tiles| && Selectable(b, t) && |b.selection| == 1
    requires !IsMatch(tiles[b.selection[0]], tiles[t])
    ensures Inv(tiles, n, Select(tiles, n, b, t))
  {
    var f := b.selection[0];
    assert t !in b.selection;
    assert Idle(b.tags[t]);
    var picked := b.tags[t := b.tags[t] + {Selected}];
    assert picked[t] + {Wrong} == {Selected, Wrong};
    var t2 := b.tags[t := {Selected, Wrong}];
    assert picked[t := picked[t] + {Wrong}] == t2;
    var r := b.(tags := t2, selection := [f, t], resetTimers := [PendingReset(f, t)]);
    assert Select(tiles, n, b, t) == r;
    CountUpdate(b.tags, t, {Selected, Wrong}, IsFaded);
  }

  /** Every click keeps the invariant. */
  lemma SelectInv(tiles: seq<Tile>, n: nat, b: Board, t: nat)
    requires Inv(tiles, n, b) && t < |tiles|
    ensures Inv(tiles, n, Select(tiles, n, b, t))
  {
    if Selectable(b, t) {
      if |b.selection| == 0 {
        FirstPickInv(tiles, n, b, t);
      } else {
        if IsMatch(tiles[b.selection[0]], tiles[t]) {
          MatchPickInv(tiles, n, b, t);
        } else {
          MismatchPickInv(tiles, n, b, t);
        }
      }
    }
  }

  /** The mismatch reset keeps the invariant. */
  lemma FireResetInv(tiles: seq<Tile>, n: nat, b: Board)
    requires Inv(tiles, n, b) && |b.resetTimers| > 0
    ensures Inv(tiles, n, FireReset(tiles, b))
  {
    var f, s := b.selection[0], b.selection[1];
    var r := FireReset(tiles, b);
    assert r.tags == b.tags[f := {}][s := {}] by {
      assert b.tags[f] - {Correct, Selected} == {};
      assert b.tags[f := {}][s] - {Wrong, Selected} == {};
    }
    assert Count(r.tags, IsFaded) == Count(b.tags, IsFaded) by {
      CountUpdate(b.tags, f, {}, IsFaded);
      CountUpdate(b.tags[f := {}], s, {}, IsFaded);
    }
    assert b.selection == [f, s];
    RetagPairKeepsTiles(tiles, b, f, s, {}, {});
  }

  /** The finish callback keeps the invariant. */
  lemma FireFinishInv(tiles: seq<Tile>, n: nat, b: Board)
    requires Inv(tiles, n, b) && b.finishTimers > 0
    ensures Inv(tiles, n, FireFinish(b))
  {
  }

  /** The events the environment delivers: a click on a tile, or the firing of
      the oldest mismatch reset or finish callback. A timer event with no timer
      pending, or a click on a tile that does not exist, changes nothing. */
  datatype Event = Click(tile: nat) | ResetFires | FinishFires

  function Step(tiles: seq<Tile>, n: nat, b: Board, e: Event): (r: Board)
    requires Shaped(tiles, b)
    ensures Shaped(tiles, r)
  {
    match e
    case Click(t) => if t < |tiles| then Select(tiles, n, b, t) else b
    case ResetFires => if |b.resetTimers| > 0 then FireReset(tiles, b) else b
    case FinishFires => if b.finishTimers > 0 then FireFinish(b) else b
  }

  function Run(tiles: seq<Tile>, n: nat, b: Board, events: seq<Event>): (r: Board)
    requires Shaped(tiles, b)
    ensures Shaped(tiles, r)
    decreases |events|
  {
    if events == [] then b else Run(tiles, n, Step(tiles, n, b, events[0]), events[1..])
  }

  /** Running a sequence that starts with event e is taking e, then running the rest. */
  lemma RunCons(tiles: seq<Tile>, n: nat, b: Board, e: Event, rest: seq<Event>)
    requires Shaped(tiles, b)
    ensures Run(tiles, n, b, [e] + rest) == Run(tiles, n, Step(tiles, n, b, e), rest)
  {
    assert ([e] + rest)[1..] == rest;
  }

  /** Running two sequences one after the other is running their concatenation. */
  lemma {:induction false} RunAppend(tiles: seq<Tile>, n: nat, b: Board, e1: seq<Event>, e2: seq<Event>)
    requires Shaped(tiles, b)
    ensures Run(tiles, n, b, e1 + e2) == Run(tiles, n, Run(tiles, n, b, e1), e2)
    decreases |e1|
  {
    if e1 == [] {
      assert e1 + e2 == e2;
    } else {
      assert (e1 + e2)[0] == e1[0] && (e1 + e2)[1..] == e1[1..] + e2;
      RunAppend(tiles, n, Step(tiles, n, b, e1[0]), e1[1..], e2);
    }
  }

  /** Running a sequence is running its first k events, then the rest. */
  lemma RunSplit(tiles: seq<Tile>, n: nat, b: Board, events: seq<Event>, k: nat)
    requires Shaped(tiles, b) && k <= |events|
    ensures Run(tiles, n, b, events) == Run(tiles, n, Run(tiles, n, b, events[..k]), events[k..])
  {
    assert events[..k] + events[k..] == events;
    RunAppend(tiles, n, b, events[..k], events[k..]);
  }

  /** Whatever the environment delivers, the invariant holds: at most two tiles
      are picked, matched tiles are twice the pair counter, the counter never
      passes the number of cards, and the finish callback fires at most once and
      only after the last pair. */
  lemma {:induction false} RunInv(tiles: seq<Tile>, n: nat, b: Board, events: seq<Event>)
    requires Inv(tiles, n, b)
    ensures Inv(tiles, n, Run(tiles, n, b, events))
    ensures Run(tiles, n, b, events).finished <= 1
    ensures Run(tiles, n, b, events).finished == 1 ==> Run(tiles, n, b, events).correctPairs == n
    decreases |events|
  {
    if events != [] {
      var b' := Step(tiles, n, b, events[0]);
      match events[0] {
        case Click(t) => if t < |tiles| { SelectInv(tiles, n, b, t); }
        case ResetFires => if |b.resetTimers| > 0 { FireResetInv(tiles, n, b); }
        case FinishFires => if b.finishTimers > 0 { FireFinishInv(tiles, n, b); }
      }
      RunInv(tiles, n, b', events[1..]);
    }
  }

  /** No event takes fade-out off a tile or lowers the pair counter. */
  lemma StepKeepsFaded(tiles: seq<Tile>, n: nat, b: Board, e: Event, i: nat)
    requires Shaped(tiles, b) && i < |tiles| && FadeOut in b.tags[i]
    ensures FadeOut in Step(tiles, n, b, e).tags[i]
    ensures Step(tiles, n, b, e).correctPairs >= b.correctPairs
  {
  }

  /** A matched tile stays matched for the rest of the session, whatever the
      environment delivers, so every later click on it is ignored; the pair
      counter never goes down. */
  lemma {:induction false} RunKeepsFaded(tiles: seq<Tile>, n: nat, b: Board, events: seq<Event>, i: nat)
    requires Shaped(tiles, b) && i < |tiles| && FadeOut in b.tags[i]
    ensures FadeOut in Run(tiles, n, b, events).tags[i]
    ensures Run(tiles, n, b, events).correctPairs >= b.correctPairs
    ensures Select(tiles, n, Run(tiles, n, b, events), i) == Run(tiles, n, b, events)
    decreases |events|
  {
    if events != [] {
      StepKeepsFaded(tiles, n, b, events[0], i);
      RunKeepsFaded(tiles, n, Step(tiles, n, b, events[0]), events[1..], i);
    }
  }

  /** The first pick of a round: the tile is tagged selected and correct and
      becomes the selection; nothing else changes. */
  lemma FirstPick(tiles: seq<Tile>, n: nat, b: Board, t: nat)
    requires Inv(tiles, n, b) && |b.selection| == 0
    requires t < |tiles| && FadeOut !in b.tags[t]
    ensures Select(tiles, n, b, t) == b.(tags := b.tags[t := {Selected, Correct}], selection := [t])
  {
    assert t !in b.selection;
    assert Idle(b.tags[t]);
    assert b.tags[t] + {Selected, Correct} == {Selected, Correct};
  }

  /** The second pick of a round: both tiles are matched and the counter goes up
      exactly when the first tile's match text is the second tile's text and
      their kinds differ, and the finish callback is scheduled when that was the
      last pair; otherwise only the second tile is tagged wrong, the counter
      stays, and both tiles stay picked until the reset scheduled for them fires. */
  lemma SecondPick(tiles: seq<Tile>, n: nat, b: Board, t: nat)
    requires Inv(tiles, n, b) && |b.selection| == 1
    requires t < |tiles| && t != b.selection[0] && FadeOut !in b.tags[t]
    ensures var f, r := b.selection[0], Select(tiles, n, b, t);
      ((FadeOut in r.tags[f] && FadeOut in r.tags[t]) <==> IsMatch(tiles[f], tiles[t])) &&
      (IsMatch(tiles[f], tiles[t]) ==>
        r == b.(tags := b.tags[f := {Selected, Correct, FadeOut}][t := {Selected, FadeOut}],
                selection := [],
                correctPairs := b.correctPairs + 1,
                finishTimers := if b.correctPairs + 1 == n then 1 else 0)) &&
      (!IsMatch(tiles[f], tiles[t]) ==>
        r == b.(tags := b.tags[t := {Selected, Wrong}],
                selection := [f, t],
                resetTimers := [PendingReset(f, t)]))
  {
    var f := b.selection[0];
    assert t !in b.selection;
    assert Idle(b.tags[t]);
    var picked := b.tags[t := b.tags[t] + {Selected}];
    assert picked[t] == {Selected};
    if IsMatch(tiles[f], tiles[t]) {
      assert picked[f] + {FadeOut} == {Selected, Correct, FadeOut};
      var t1 := picked[f := picked[f] + {FadeOut}];
      assert t1[t] + {FadeOut} == {Selected, FadeOut};
      assert t1[t := t1[t] + {FadeOut}] == b.tags[f := {Selected, Correct, FadeOut}][t := {Selected, FadeOut}];
      assert b.correctPairs < n by {
        CountUpdate(b.tags, f, {Selected, Correct, FadeOut}, IsFaded);
        CountUpdate(b.tags[f := {Selected, Correct, FadeOut}], t, {Selected, FadeOut}, IsFaded);
      }
    } else {
      assert picked[t] + {Wrong} == {Selected, Wrong};
      assert picked[t := picked[t] + {Wrong}] == b.tags[t := {Selected, Wrong}];
    }
  }

  /** The tags of a mismatched round on two idle tiles are undone by its reset. */
  lemma ResetUndoesRound(tiles: seq<Tile>, n: nat, b: Board, f: nat, t: nat)
    requires Shaped(tiles, b) && b.selection == [] && b.resetTimers == []
    requires f < |tiles| && t < |tiles| && f != t
    requires Idle(b.tags[f]) && Idle(b.tags[t])
    requires !IsMatch(tiles[f], tiles[t])
    ensures FireReset(tiles, Select(tiles, n, Select(tiles, n, b, f), t)) == b
  {
    var x, y := {Selected, Correct}, {Selected};
    assert b.tags[f] + {Selected, Correct} == x;
    var b1 := b.(tags := b.tags[f := x], selection := [f]);
    assert Select(tiles, n, b, f) == b1;
    assert b1.tags[t] + {Selected} == y;
    var b2 := b1.(tags := b1.tags[t := y], selection := [f, t]);
    assert Select(tiles, n, b1, t) == CheckPairs(tiles, n, b2);
    assert y + {Wrong} == {Selected, Wrong};
    var b3 := b2.(tags := b2.tags[t := {Selected, Wrong}], resetTimers := [PendingReset(f, t)]);
    assert CheckPairs(tiles, n, b2) == b3;
    assert x - {Correct, Selected} == {};
    var t1 := b3.tags[f := {}];
    assert t1[t] - {Wrong, Selected} == {};
    assert t1[t := {}] == b.tags;
  }

  /** A round that ends in a mismatch, once its reset has fired, leaves the board
      exactly as it was before the round: both tiles are back in play untagged,
      nothing is picked and the counter has not moved. */
  lemma MismatchRoundTrip(tiles: seq<Tile>, n: nat, b: Board, f: nat, t: nat)
    requires Inv(tiles, n, b) && |b.selection| == 0
    requires f < |tiles| && t < |tiles| && f != t
    requires FadeOut !in b.tags[f] && FadeOut !in b.tags[t]
    requires !IsMatch(tiles[f], tiles[t])
    ensures FireReset(tiles, Select(tiles, n, Select(tiles, n, b, f), t)) == b
  {
    assert Idle(b.tags[f]) && Idle(b.tags[t]);
    ResetUndoesRound(tiles, n, b, f, t);
  }

  /** A round of two clicks on tiles that pair up: both tiles are matched, the
      counter goes up, and the finish callback is scheduled when that was the last pair. */
  lemma MatchRound(tiles: seq<Tile>, n: nat, b: Board, f: nat, t: nat)
    requires Inv(tiles, n, b) && |b.selection| == 0
    requires f < |tiles| && t < |tiles| && f != t
    requires FadeOut !in b.tags[f] && FadeOut !in b.tags[t]
    requires IsMatch(tiles[f], tiles[t])
    ensures Run(tiles, n, b, [Click(f), Click(t)]) ==
      b.(tags := b.tags[f := {Selected, Correct, FadeOut}][t := {Selected, FadeOut}],
         correctPairs := b.correctPairs + 1,
         finishTimers := if b.correctPairs + 1 == n then 1 else 0)
  {
    var x, y := {Selected, Correct, FadeOut}, {Selected, FadeOut};
    FirstPick(tiles, n, b, f);
    FirstPickInv(tiles, n, b, f);
    var b1 := Select(tiles, n, b, f);
    SecondPick(tiles, n, b1, t);
    var b2 := Select(tiles, n, b1, t);
    assert b1.tags[f := x] == b.tags[f := x];
    assert b2 == b.(tags := b.tags[f := x][t := y],
                    correctPairs := b.correctPairs + 1,
                    finishTimers := if b.correctPairs + 1 == n then 1 else 0);
    RunCons(tiles, n, b, Click(f), [Click(t)]);
    RunCons(tiles, n, b1, Click(t), []);
  }

  /** A round of two clicks on tiles that do not pair up, followed by the
      firing of its reset, leaves the board as it was. */
  lemma MismatchRound(tiles: seq<Tile>, n: nat, b: Board, f: nat, t: nat)
    requires Inv(tiles, n, b) && |b.selection| == 0
    requires f < |tiles| && t < |tiles| && f != t
    requires FadeOut !in b.tags[f] && FadeOut !in b.tags[t]
    requires !IsMatch(tiles[f], tiles[t])
    ensures Run(tiles, n, b, [Click(f), Click(t), ResetFires]) == b
  {
    MismatchRoundTrip(tiles, n, b, f, t);
    FirstPickInv(tiles, n, b, f);
    var b1 := Select(tiles, n, b, f);
    SecondPick(tiles, n, b1, t);
    var b2 := Select(tiles, n, b1, t);
    RunCons(tiles, n, b, Click(f), [Click(t), ResetFires]);
    RunCons(tiles, n, b1, Click(t), [ResetFires]);
    RunCons(tiles, n, b2, ResetFires, []);
  }

  /** Once every pair is matched every tile is faded, so no click has any
      effect: the finish callback cannot be scheduled a second time. */
  lemma CompletedIgnoresClicks(tiles: seq<Tile>, n: nat, b: Board, t: nat)
    requires Inv(tiles, n, b) && b.correctPairs == n && t < |tiles|
    ensures Select(tiles, n, b, t) == b
  {
    CountFull(b.tags, IsFaded);
    assert IsFaded(b.tags[t]);
  }

  /** A mismatch reset and a finish callback are never pending together: the
      finish is scheduled only once every tile is matched, and nothing is picked then. */
  lemma NoResetWhileFinishing(tiles: seq<Tile>, n: nat, b: Board)
    requires Inv(tiles, n, b) && b.finishTimers > 0
    ensures b.resetTimers == [] && b.selection == []
  {
    CountFull(b.tags, IsFaded);
  }

  /** The finished signal comes exactly when the last pair is matched: once
      n > 0 pairs are matched a finish is scheduled or has fired, and never before. */
  lemma FinishExactlyOnCompletion(tiles: seq<Tile>, n: nat, b: Board)
    requires Inv(tiles, n, b) && n > 0
    ensures (b.finishTimers + b.finished > 0) <==> b.correctPairs == n
    ensures b.finishTimers + b.finished <= 1
  {
  }
}
