/**
 What every state reached from `init` by key presses satisfies while the
 game runs: the selection is legal, no card is invented, the ledger and
 its breakdown agree, and the frame, roll and prevPinsDown counters match
 the ledger's own reading of the position. The host stops calling
 processInput once gameOver is set, so the position facts are only kept
 until then.
 */
module Invariants {
  import opened Wrappers
  import opened Scoring
  import opened Board
  import opened Cards
  import opened RoundEngine

  /** Selected pins are distinct standing pins, at most three, and front
      pins (0-5) on turn 0. */
  predicate SelectionOK(e: GameData)
    requires Shaped(e)
  {
    && Distinct(e.selectedPins)
    && |e.selectedPins| <= MaxSelectedPins
    && forall k :: 0 <= k < |e.selectedPins| ==>
         !Down(e.pins[e.selectedPins[k]]) && (e.turn == 0 ==> e.selectedPins[k] <= 5)
  }

  /** Turn 0 is the opening of a rack: nothing is down and the back row
      cannot be pressed. */
  predicate TurnOK(e: GameData)
    requires Shaped(e)
  {
    e.turn >= 0 && (e.turn == 0 ==> PinsDown(e.pins) == 0 && forall i :: 5 < i < PinCount ==> !e.pins[i].available)
  }

  /** The cards in play are drawn from the new deck. */
  predicate CardsOK(e: GameData)
    requires Shaped(e)
  {
    CardsOf(e) <= multiset(NewDeck())
  }

  /** The breakdown is the ledger's, entries are pin counts, and a
      remembered first roll is the last entry and no more than is down. */
  predicate LedgerOK(e: GameData)
    requires Shaped(e)
  {
    && e.frameScores == FrameScoresOf(e.scores)
    && (forall k :: 0 <= k < |e.scores| ==> 0 <= e.scores[k] <= PinCount)
    && (e.prevPinsDown.Some? ==>
          && 0 <= e.prevPinsDown.value <= PinsDown(e.pins) && e.prevPinsDown.value < PinCount
          && |e.scores| > 0 && e.scores[|e.scores| - 1] == e.prevPinsDown.value)
  }

  /** While the game runs: the counters are the ledger's position, some pin
      still stands, and prevPinsDown is set exactly between the two rolls
      of frames 1-9. */
  predicate Progress(e: GameData)
    requires Shaped(e)
  {
    !e.gameOver ==>
      && CurrentFrame(e.scores) == Position(e.frame, e.roll)
      && PinsDown(e.pins) < PinCount
      && (e.frame < 10 ==> (e.prevPinsDown.Some? <==> e.roll == 1))
      && (e.frame == 10 ==> e.roll <= 2 && (e.roll == 0 ==> e.prevPinsDown.None?))
  }

  /** Everything but the availability flags. */
  predicate Core(e: GameData) {
    && Shaped(e) && LabelledPins(e.pins)
    && SelectionOK(e) && TurnOK(e) && CardsOK(e) && LedgerOK(e) && Progress(e)
  }

  /** The invariant of the running game: Core, with the flags as
      updateAvailable leaves them. */
  predicate Inv(e: GameData) {
    Core(e) && UpdateAvailable(e) == e
  }

  /* ---------------------------------------------------------------------- */
  /* Helpers about pins and cards                                            */
  /* ---------------------------------------------------------------------- */

  /** Counting and collecting read only the pin values. */
  lemma {:induction false} SameValues(p: seq<Pin>, q: seq<Pin>)
    requires |p| == |q| && forall i :: 0 <= i < |p| ==> p[i].value == q[i].value
    ensures PinsDown(p) == PinsDown(q) && Standing(p) == Standing(q)
    decreases |p|
  {
    if |p| > 0 {
      SameValues(p[1..], q[1..]);
    }
  }

  lemma {:induction false} StandingHas(pins: seq<Pin>, i: int)
    requires 0 <= i < |pins| && !Down(pins[i])
    ensures pins[i].value in Standing(pins)
    decreases |pins|
  {
    if i > 0 {
      StandingHas(pins[1..], i - 1);
    }
  }

  /** Whatever is in play is a card. */
  lemma CardsAreCards(e: GameData)
    requires Shaped(e) && CardsOK(e)
    ensures AllCards(e.hand[0]) && AllCards(e.hand[1]) && AllCards(e.hand[2]) && AllCards(e.deck)
    ensures forall i :: 0 <= i < PinCount && !Down(e.pins[i]) ==> IsCard(e.pins[i].value)
  {
    NewDeckCounts();
    var all := CardsOf(e);
    assert forall x :: x in all ==> IsCard(x);
    forall h | 0 <= h < 3
      ensures AllCards(e.hand[h])
    {
      forall k | 0 <= k < |e.hand[h]|
        ensures IsCard(e.hand[h][k])
      {
        assert e.hand[h][k] in multiset(e.hand[h]);
      }
    }
    forall k | 0 <= k < |e.deck|
      ensures IsCard(e.deck[k])
    {
      assert e.deck[k] in multiset(e.deck);
    }
    forall i | 0 <= i < PinCount && !Down(e.pins[i])
      ensures IsCard(e.pins[i].value)
    {
      StandingHas(e.pins, i);
    }
  }

  /** Dropping pile tops only removes cards. */
  lemma DropTopsShrinks(hand: seq<seq<int>>)
    requires |hand| == 3
    ensures HandCards(DropTops(hand)) <= HandCards(hand)
  {
    var r := DropTops(hand);
    forall h | 0 <= h < 3
      ensures multiset(r[h]) <= multiset(hand[h])
    {
      if |hand[h]| > 0 {
        assert hand[h] == [hand[h][0]] + r[h];
      }
    }
  }

  /** Taking the top card off pile h. */
  lemma HandLosesTop(hand: seq<seq<int>>, h: int)
    requires |hand| == 3 && 0 <= h < 3 && |hand[h]| > 0
    ensures HandCards(hand[h := hand[h][1..]]) + multiset{hand[h][0]} == HandCards(hand)
  {
    assert hand[h] == [hand[h][0]] + hand[h][1..];
  }

  /** One card t moves from the piles to the table-and-deck side. */
  lemma MoveOne(s: multiset<int>, hd: multiset<int>, d: multiset<int>,
                s': multiset<int>, hd': multiset<int>, d': multiset<int>, t: int)
    requires s' + d' == s + (d + multiset{t}) && hd' + multiset{t} == hd
    ensures s' + hd' + d' == s + hd + d
  {
    forall x
      ensures (s' + hd' + d')[x] == (s + hd + d)[x]
    {
      assert (s' + d')[x] == (s + (d + multiset{t}))[x];
      assert (hd' + multiset{t})[x] == hd[x];
    }
    assert s' + hd' + d' == s + hd + d;
  }

  /** A successful discard moves the top card and the selected values onto
      the deck, and knocks every selected pin down. */
  lemma DiscardConserves(e: GameData, h: int)
    requires Shaped(e) && 0 <= h < 3 && |e.hand[h]| > 0
    requires SelectionOK(e)
    ensures CardsOf(Discard(e, h)) == CardsOf(e)
    ensures PinsDown(Discard(e, h).pins) == PinsDown(e.pins) + |e.selectedPins|
  {
    var top := e.hand[h][0];
    var d := Discard(e, h);
    var k := KnockFrom(e.deck + [top], e.pins, e.selectedPins);
    assert d.deck == k.0 && d.pins == k.1 && d.hand == e.hand[h := e.hand[h][1..]];
    KnockFromConserves(e.deck + [top], e.pins, e.selectedPins);
    assert multiset(e.deck + [top]) == multiset(e.deck) + multiset{top};
    HandLosesTop(e.hand, h);
    MoveOne(Standing(e.pins), HandCards(e.hand), multiset(e.deck),
            Standing(d.pins), HandCards(d.hand), multiset(d.deck), top);
  }

  /* ---------------------------------------------------------------------- */
  /* init                                                                    */
  /* ---------------------------------------------------------------------- */

  /** A fresh deal at a position the ledger agrees with satisfies Core. */
  lemma FreshDealCore(d: GameData)
    requires Shaped(d) && d.turn == 0 && d.selectedPins == [] && d.prevPinsDown == None
    requires PinsDown(d.pins) == 0 && CardsOf(d) == multiset(NewDeck())
    requires forall i :: 0 <= i < PinCount ==> d.pins[i].letter == Label(i) && !d.pins[i].available
    requires d.frameScores == FrameScoresOf(d.scores)
    requires forall k :: 0 <= k < |d.scores| ==> 0 <= d.scores[k] <= PinCount
    requires !d.gameOver ==>
      CurrentFrame(d.scores) == Position(d.frame, d.roll) && (d.frame < 10 ==> d.roll == 0) && d.roll <= 2
    ensures Core(d)
  {
  }

  /** init leaves the game running in the opening state. */
  lemma InitEstablishes(swaps: seq<int>)
    requires ValidSwaps(swaps, CardCount)
    ensures Inv(Init(swaps)) && !Init(swaps).gameOver
  {
    var d := NextFrame(Reset(), swaps);
    assert FrameScoresOf([]) == [];
    assert CurrentFrame([]) == Position(1, 0);
    FreshDealCore(d);
    UpdateAvailableKeeps(d);
  }

  /* ---------------------------------------------------------------------- */
  /* updateAvailable                                                         */
  /* ---------------------------------------------------------------------- */

  /** Recomputing the flags keeps Core and lands on the fixpoint. */
  lemma UpdateAvailableKeeps(e: GameData)
    requires Core(e)
    ensures Inv(UpdateAvailable(e))
  {
    var r := UpdateAvailable(e);
    SameValues(r.pins, e.pins);
    UpdateAvailableIdempotent(e);
    assert TurnOK(r);
  }

  /* ---------------------------------------------------------------------- */
  /* The pin loop                                                            */
  /* ---------------------------------------------------------------------- */

  /** An available pin can join the selection without breaking it. */
  lemma SelectableJoins(e: GameData, k: int)
    requires Inv(e) && IsPin(k) && e.pins[k].available && k !in e.selectedPins
    ensures !Down(e.pins[k]) && |e.selectedPins| < MaxSelectedPins && (e.turn == 0 ==> k <= 5)
  {
    if e.turn == 0 && |e.selectedPins| == 0 {
      assert UpdateAvailable(e).pins[k].available == e.pins[k].available;
    } else {
      assert UpdateAvailable(e).pins[k].available == IsPinAvailable(e, k);
    }
  }

  /** Appending a pin that may join keeps the selection legal. */
  lemma JoinKeepsSelection(e: GameData, k: int)
    requires Shaped(e) && SelectionOK(e) && IsPin(k) && k !in e.selectedPins
    requires !Down(e.pins[k]) && |e.selectedPins| < MaxSelectedPins && (e.turn == 0 ==> k <= 5)
    ensures SelectionOK(e.(selectedPins := e.selectedPins + [k]))
  {
    var sel := e.selectedPins + [k];
    assert forall j :: 0 <= j < |e.selectedPins| ==> sel[j] == e.selectedPins[j];
  }

  /** Pressing one pin keeps Core: it joins the selection or clears it. */
  lemma PressOneKeeps(e: GameData, key: char, k: int)
    requires Inv(e) && IsPin(k)
    ensures Core(Press(e, key, k))
  {
    if key == e.pins[k].letter && e.pins[k].available && k !in e.selectedPins {
      SelectableJoins(e, k);
      JoinKeepsSelection(e, k);
      SameSelectionCore(e, e.(selectedPins := e.selectedPins + [k]));
    } else if key == e.pins[k].letter && e.pins[k].available {
      SameSelectionCore(e, e.(selectedPins := []));
    }
  }

  /** Core reads the selection only through SelectionOK. */
  lemma SameSelectionCore(e: GameData, r: GameData)
    requires Core(e) && Shaped(r) && SelectionOK(r) && r == e.(selectedPins := r.selectedPins)
    ensures Core(r)
  {
  }

  /** The pin loop keeps Core. */
  lemma PressKeeps(e: GameData, key: char)
    requires Inv(e)
    ensures Core(PressFrom(e, key, 0))
  {
    PressFromOnly(e, key, 0);
    var k := key as int - 'A' as int;
    if 0 <= k < PinCount {
      PressOneKeeps(e, key, k);
    }
  }

  /** Pressing the label of a selected, pressable pin clears the whole
      selection (deselectPin empties it). */
  lemma PressSelectedClears(e: GameData, k: int)
    requires Shaped(e) && LabelledPins(e.pins) && IsPin(k)
    requires e.pins[k].available && k in e.selectedPins
    ensures PressFrom(e, Label(k), 0).selectedPins == []
  {
    PressFromOnly(e, Label(k), 0);
  }

  /** Pressing the label of a pressable pin that is not selected appends it. */
  lemma PressFreeAppends(e: GameData, k: int)
    requires Shaped(e) && LabelledPins(e.pins) && IsPin(k)
    requires e.pins[k].available && k !in e.selectedPins
    ensures PressFrom(e, Label(k), 0).selectedPins == e.selectedPins + [k]
  {
    PressFromOnly(e, Label(k), 0);
  }

  /** A pin that cannot be pressed ignores its key. */
  lemma PressUnavailableIgnored(e: GameData, k: int)
    requires Shaped(e) && LabelledPins(e.pins) && IsPin(k) && !e.pins[k].available
    ensures PressFrom(e, Label(k), 0) == e
  {
    PressFromOnly(e, Label(k), 0);
  }

  /** In a running game the selection sums to a digit. */
  lemma SelectedSumIsDigit(e: GameData)
    requires Core(e)
    ensures var s := GetSelectedPinSum(e);
      s == -1 || (0 <= s <= 9 && s == SelectedSum(e.pins, e.selectedPins) % 10)
    ensures GetSelectedPinSum(e) == -1 <==> |e.selectedPins| == 0
  {
    assert forall k :: 0 <= k < |e.selectedPins| ==> !Down(e.pins[e.selectedPins[k]]);
  }

  /* ---------------------------------------------------------------------- */
  /* playCard                                                                */
  /* ---------------------------------------------------------------------- */

  /** A matching card always knocks down at least one pin, and the play
      moves cards without losing any. */
  lemma PlayCardKnocks(e: GameData, h: int)
    requires Core(e) && 0 <= h < 3 && CardMatches(e, h)
    ensures |e.selectedPins| >= 1
    ensures CardsOf(Discard(e, h)) == CardsOf(e)
    ensures PinsDown(Discard(e, h).pins) == PinsDown(e.pins) + |e.selectedPins|
  {
    CardsAreCards(e);
    assert IsCard(e.hand[h][0]);
    DiscardConserves(e, h);
  }

  /** A play that leaves pins standing keeps Core. */
  lemma PlayLeavesPins(e: GameData, h: int)
    requires Core(e) && !e.gameOver && 0 <= h < 3 && CardMatches(e, h)
    requires PinsDown(NextTurn(Discard(e, h)).pins) < PinCount
    ensures Core(NextTurn(Discard(e, h)))
  {
    PlayCardKnocks(e, h);
    var r := NextTurn(Discard(e, h));
    assert LedgerOK(r);
    assert Progress(r);
  }

  /** The ledger after a cleared rack: the roll closes frames 1-9 and
      moves the tenth frame on by one roll. */
  lemma ClearedRackRecord(e: GameData)
    requires Shaped(e) && LedgerOK(e) && !e.gameOver && PinsDown(e.pins) == PinCount
    requires CurrentFrame(e.scores) == Position(e.frame, e.roll)
    requires e.frame < 10 ==> (e.prevPinsDown.Some? <==> e.roll == 1)
    ensures var u := UpdateFrameScore(e);
      && u.prevPinsDown == None
      && LedgerOK(u)
      && CurrentFrame(u.scores) == (if e.frame < 10 then Position(e.frame + 1, 0) else Position(10, e.roll + 1))
  {
    var u := UpdateFrameScore(e);
    var entry := RollEntry(PinsDown(e.pins), e.prevPinsDown);
    CurrentFrameAppend(e.scores, entry.0);
    assert forall k :: 0 <= k < |e.scores| ==> u.scores[k] == e.scores[k];
  }

  /** The state playCard records when the rack is cleared. */
  function ClearedRack(e: GameData, h: int): GameData
    requires Shaped(e) && 0 <= h < 3 && CardMatches(e, h)
  {
    UpdateFrameScore(NextTurn(Discard(e, h)))
  }

  /** What the recorded state keeps from a running game. */
  lemma ClearedRackFacts(e: GameData, h: int)
    requires Core(e) && !e.gameOver && 0 <= h < 3 && CardMatches(e, h)
    requires PinsDown(NextTurn(Discard(e, h)).pins) == PinCount
    ensures var u := ClearedRack(e, h);
      && Shaped(u) && LabelledPins(u.pins) && CardsOf(u) == CardsOf(e) && LedgerOK(u)
      && u.prevPinsDown == None && !u.gameOver && u.frame == e.frame && u.roll == e.roll
      && u.turn > 0 && u.selectedPins == []
      && CurrentFrame(u.scores) == (if e.frame < 10 then Position(e.frame + 1, 0) else Position(10, e.roll + 1))
  {
    PlayCardKnocks(e, h);
    var t := NextTurn(Discard(e, h));
    assert LedgerOK(t);
    ClearedRackRecord(t);
  }

  /** The state a cleared rack has been recorded in. */
  predicate Recorded(u: GameData) {
    && Shaped(u) && LabelledPins(u.pins) && CardsOK(u) && LedgerOK(u)
    && u.prevPinsDown == None && !u.gameOver && u.turn > 0 && u.selectedPins == []
    && 1 <= u.frame <= 10 && 0 <= u.roll <= 2
    && CurrentFrame(u.scores) == (if u.frame < 10 then Position(u.frame + 1, 0) else Position(10, u.roll + 1))
  }

  lemma ClearedRackRecorded(e: GameData, h: int)
    requires Core(e) && !e.gameOver && 0 <= h < 3 && CardMatches(e, h)
    requires PinsDown(NextTurn(Discard(e, h)).pins) == PinCount
    ensures Recorded(ClearedRack(e, h)) && ClearedRack(e, h).frame == e.frame
  {
    ClearedRackFacts(e, h);
  }

  /** The ledger half of LedgerOK, which a fresh deal keeps. */
  predicate LedgerKept(u: GameData) {
    && u.frameScores == FrameScoresOf(u.scores)
    && forall k :: 0 <= k < |u.scores| ==> 0 <= u.scores[k] <= PinCount
  }

  /** A deal at a position the ledger agrees with satisfies Core. */
  lemma DealAtCore(u: GameData, swaps: seq<int>, f: int, r: int)
    requires ValidSwaps(swaps, CardCount) && LedgerKept(u) && !u.gameOver
    requires CurrentFrame(u.scores) == Position(f, r) && (f < 10 ==> r == 0) && r <= 2
    ensures Core(NextFrame(u, swaps).(frame := f, roll := r))
  {
    FreshDealCore(NextFrame(u, swaps).(frame := f, roll := r));
  }

  /** After frames 1-9 the next frame is dealt. */
  lemma NextFrameCore(u: GameData, swaps: seq<int>)
    requires LedgerKept(u) && !u.gameOver && u.frame < 10 && ValidSwaps(swaps, CardCount)
    requires CurrentFrame(u.scores) == Position(u.frame + 1, 0)
    ensures Core(NextFrame(u, swaps))
  {
    var d := NextFrame(u, swaps);
    assert Shaped(d) && d.turn == 0 && d.selectedPins == [] && d.prevPinsDown == None;
    assert PinsDown(d.pins) == 0 && CardsOf(d) == multiset(NewDeck());
    assert forall i :: 0 <= i < PinCount ==> d.pins[i].letter == Label(i) && !d.pins[i].available;
    assert d.scores == u.scores && d.frameScores == u.frameScores;
    assert CurrentFrame(d.scores) == Position(d.frame, d.roll);
    FreshDealCore(d);
  }

  /** In the tenth frame a cleared rack before roll 2 is redealt for the
      next roll, and on roll 2 the game ends. */
  lemma TenthClearCore(u: GameData, swaps: seq<int>)
    requires Recorded(u) && u.frame == 10 && ValidSwaps(swaps, CardCount)
    ensures Core(HandleLastFrameStrikesAndSpares(u, swaps))
  {
    if u.roll == 0 || u.roll == 1 {
      TenthRedealCore(u, swaps);
    } else {
      EndedCore(u);
      assert HandleLastFrameStrikesAndSpares(u, swaps) == EndGame(u);
    }
  }

  /** A tenth-frame rack cleared on roll 0 or 1 is redealt for the next
      roll. */
  lemma TenthRedealCore(u: GameData, swaps: seq<int>)
    requires Recorded(u) && u.frame == 10 && (u.roll == 0 || u.roll == 1) && ValidSwaps(swaps, CardCount)
    ensures Core(HandleLastFrameStrikesAndSpares(u, swaps))
  {
    assert LedgerKept(u) && CurrentFrame(u.scores) == Position(10, u.roll + 1);
    DealAtCore(u, swaps, 10, u.roll + 1);
    TenthRedeal(u, swaps);
  }

  lemma TenthRedeal(u: GameData, swaps: seq<int>)
    requires u.roll == 0 || u.roll == 1
    requires ValidSwaps(swaps, CardCount)
    ensures HandleLastFrameStrikesAndSpares(u, swaps) == NextFrame(u, swaps).(frame := 10, roll := u.roll + 1)
  {
  }

  /** A cleared rack deals the next frame, or redeals for a tenth-frame
      bonus roll, or ends the game after the tenth frame's third roll;
      Core holds in each case. */
  lemma PlayClearsRack(e: GameData, h: int, swaps: seq<int>)
    requires Core(e) && !e.gameOver && 0 <= h < 3 && CardMatches(e, h) && ValidSwaps(swaps, CardCount)
    requires PinsDown(NextTurn(Discard(e, h)).pins) == PinCount
    ensures Core(PlayCard(e, h, swaps).0)
  {
    ClearedRackRecorded(e, h);
    var t := NextTurn(Discard(e, h));
    ClearRackCore(t, swaps);
    assert PlayCard(e, h, swaps).0 == ClearRack(t, swaps);
  }

  /** Clearing a rack whose roll records into a Recorded state keeps Core. */
  lemma ClearRackCore(t: GameData, swaps: seq<int>)
    requires Shaped(t) && ValidSwaps(swaps, CardCount) && Recorded(UpdateFrameScore(t))
    ensures Core(ClearRack(t, swaps))
  {
    var u := UpdateFrameScore(t);
    if u.frame < 10 {
      NextFrameCore(u, swaps);
      assert ClearRack(t, swaps) == NextFrame(u, swaps);
    } else {
      TenthClearCore(u, swaps);
      assert ClearRack(t, swaps) == HandleLastFrameStrikesAndSpares(u, swaps);
    }
  }

  /** Ending the game after the tenth frame's last roll keeps Core. */
  lemma EndedCore(u: GameData)
    requires Recorded(u)
    ensures Core(EndGame(u))
  {
  }

  /** playCard keeps Core. */
  lemma PlayCardKeeps(e: GameData, h: int, swaps: seq<int>)
    requires Core(e) && !e.gameOver && 0 <= h < 3 && ValidSwaps(swaps, CardCount)
    ensures Core(PlayCard(e, h, swaps).0)
  {
    if CardMatches(e, h) {
      if PinsDown(NextTurn(Discard(e, h)).pins) < PinCount {
        PlayLeavesPins(e, h);
      } else {
        PlayClearsRack(e, h, swaps);
      }
    }
  }

  /* ---------------------------------------------------------------------- */
  /* The space bar: updateFrameScore then nextRoll                           */
  /* ---------------------------------------------------------------------- */

  /** The ledger after ending a roll with pins standing. */
  lemma OpenRollRecord(e: GameData)
    requires Core(e) && !e.gameOver
    ensures var u := UpdateFrameScore(e);
      && LedgerOK(u)
      && CurrentFrame(u.scores) == Advance(Position(e.frame, e.roll), u.scores[|e.scores|])
      && u.scores[|e.scores|] < PinCount
      && (e.prevPinsDown.None? ==> u.prevPinsDown.Some?)
      && (e.prevPinsDown.Some? ==> u.prevPinsDown.None?)
  {
    var u := UpdateFrameScore(e);
    var entry := RollEntry(PinsDown(e.pins), e.prevPinsDown);
    CurrentFrameAppend(e.scores, entry.0);
    assert forall k :: 0 <= k < |e.scores| ==> u.scores[k] == e.scores[k];
  }

  /** Recording a roll leaves the table alone. */
  lemma RecordKeepsTable(e: GameData)
    requires Core(e)
    ensures var u := UpdateFrameScore(e);
      Shaped(u) && LabelledPins(u.pins) && TurnOK(u) && CardsOK(u) && u.gameOver == e.gameOver
  {
    var u := UpdateFrameScore(e);
    assert u.pins == e.pins && u.hand == e.hand && u.deck == e.deck && u.turn == e.turn;
  }

  /** Dropping the pile tops keeps Core, whether or not the game ends. */
  lemma DropTopsKeeps(u: GameData, r: GameData)
    requires Shaped(u) && LabelledPins(u.pins) && TurnOK(u) && CardsOK(u) && LedgerOK(u)
    requires r == u.(hand := DropTops(u.hand), selectedPins := [], roll := r.roll, gameOver := r.gameOver)
    requires !r.gameOver ==> Progress(r)
    ensures Core(r)
  {
    DropTopsShrinks(u.hand);
    assert CardsOf(r) <= CardsOf(u);
  }

  /** Ending the game after the tenth frame's third roll keeps Core. */
  lemma EndKeeps(u: GameData, r: GameData)
    requires Shaped(u) && LabelledPins(u.pins) && TurnOK(u) && CardsOK(u) && LedgerOK(u)
    requires r == u.(selectedPins := [], roll := r.roll, gameOver := true)
    ensures Core(r)
  {
    assert CardsOf(r) == CardsOf(u);
  }

  /** A roll that does not end the frame keeps the position facts. */
  lemma OpenRollProgress(e: GameData)
    requires Core(e) && !e.gameOver && e.roll + 1 <= 2 && !(e.roll + 1 > 1 && e.frame < 10)
    ensures var u := UpdateFrameScore(e);
      Progress(u.(selectedPins := [], roll := e.roll + 1, hand := DropTops(e.hand)))
  {
    OpenRollRecord(e);
  }

  /** The second roll of frames 1-9 reaches the next frame's position. */
  lemma SecondRollLedger(e: GameData)
    requires Core(e) && !e.gameOver && e.roll + 1 > 1 && e.frame < 10
    ensures var u := UpdateFrameScore(e);
      LedgerKept(u) && CurrentFrame(u.scores) == Position(e.frame + 1, 0)
  {
    OpenRollRecord(e);
  }

  /** The space bar keeps Core. */
  lemma SpaceKeeps(e: GameData, swaps: seq<int>)
    requires Core(e) && !e.gameOver && ValidSwaps(swaps, CardCount)
    ensures Core(NextRoll(UpdateFrameScore(e), swaps))
  {
    if e.roll + 1 > 1 && e.frame < 10 {
      SpaceDeals(e, swaps);
    } else if e.roll + 1 > 1 && e.frame == 10 && LastFrameOpen(UpdateFrameScore(e).frameScores) {
      SpaceEndsOpen(e, swaps);
    } else if e.roll + 1 > 2 {
      SpaceEndsThird(e, swaps);
    } else {
      SpaceOpenRoll(e, swaps);
    }
  }

  /** The second roll of frames 1-9 deals the next frame. */
  lemma SpaceDeals(e: GameData, swaps: seq<int>)
    requires Core(e) && !e.gameOver && ValidSwaps(swaps, CardCount)
    requires e.roll + 1 > 1 && e.frame < 10
    ensures Core(NextRoll(UpdateFrameScore(e), swaps))
  {
    OpenRollRecord(e);
    RecordKeepsTable(e);
    var u := UpdateFrameScore(e);
    var e' := u.(selectedPins := [], roll := u.roll + 1);
    SecondRollLedger(e);
    NextFrameCore(e', swaps);
    assert NextRoll(u, swaps) == NextFrame(e', swaps);
  }

  /** The tenth frame's second roll leaving pins ends the game and drops
      the pile tops. */
  lemma SpaceEndsOpen(e: GameData, swaps: seq<int>)
    requires Core(e) && !e.gameOver && ValidSwaps(swaps, CardCount)
    requires e.roll + 1 > 1 && e.frame == 10 && LastFrameOpen(UpdateFrameScore(e).frameScores)
    ensures Core(NextRoll(UpdateFrameScore(e), swaps))
  {
    OpenRollRecord(e);
    RecordKeepsTable(e);
    var u := UpdateFrameScore(e);
    var r := NextRoll(u, swaps);
    assert r == u.(hand := DropTops(u.hand), selectedPins := [], roll := r.roll, gameOver := r.gameOver);
    DropTopsKeeps(u, r);
  }

  /** The tenth frame's third roll ends the game. */
  lemma SpaceEndsThird(e: GameData, swaps: seq<int>)
    requires Core(e) && !e.gameOver && ValidSwaps(swaps, CardCount)
    requires e.roll + 1 > 2 && e.frame >= 10 && !(e.frame == 10 && LastFrameOpen(UpdateFrameScore(e).frameScores))
    ensures Core(NextRoll(UpdateFrameScore(e), swaps))
  {
    OpenRollRecord(e);
    RecordKeepsTable(e);
    var u := UpdateFrameScore(e);
    var r := NextRoll(u, swaps);
    assert r == u.(selectedPins := [], roll := r.roll, gameOver := true);
    EndKeeps(u, r);
  }

  /** A roll that stays in its frame drops the pile tops. */
  lemma SpaceOpenRoll(e: GameData, swaps: seq<int>)
    requires Core(e) && !e.gameOver && ValidSwaps(swaps, CardCount)
    requires !(e.roll + 1 > 1 && e.frame < 10) && e.roll + 1 <= 2
    requires !(e.roll + 1 > 1 && e.frame == 10 && LastFrameOpen(UpdateFrameScore(e).frameScores))
    ensures Core(NextRoll(UpdateFrameScore(e), swaps))
  {
    OpenRollRecord(e);
    RecordKeepsTable(e);
    var u := UpdateFrameScore(e);
    var r := NextRoll(u, swaps);
    OpenRollProgress(e);
    assert r == u.(hand := DropTops(u.hand), selectedPins := [], roll := r.roll, gameOver := r.gameOver);
    DropTopsKeeps(u, r);
  }

  /** When nextRoll reads the tenth frame's first two rolls, they exist:
      nextRoll's `frameScores[9].rolls[1]` is never missing. */
  lemma TenthFrameReadable(e: GameData)
    requires Core(e) && !e.gameOver && e.frame == 10 && e.roll >= 1
    ensures var fs := UpdateFrameScore(e).frameScores;
      |fs| == 10 && |fs[9].rolls| >= 2
  {
    OpenRollRecord(e);
    var u := UpdateFrameScore(e);
    FramesMatchPosition(u.scores);
  }

  /** How the space bar ends the game in the tenth frame: never after its
      first roll, after its second exactly when the two rolls leave pins
      standing, and always after its third. */
  lemma TenthFrameEnds(e: GameData, swaps: seq<int>)
    requires Core(e) && !e.gameOver && e.frame == 10 && ValidSwaps(swaps, CardCount)
    ensures var u := UpdateFrameScore(e);
      && (e.roll == 0 ==> !NextRoll(u, swaps).gameOver)
      && (e.roll == 1 ==>
            && |u.scores| >= 2
            && (NextRoll(u, swaps).gameOver <==> u.scores[|u.scores| - 2] + u.scores[|u.scores| - 1] < PinCount))
      && (e.roll == 2 ==> NextRoll(u, swaps).gameOver)
  {
    OpenRollRecord(e);
    var u := UpdateFrameScore(e);
    if e.roll == 1 {
      TenthFrameTail(u.scores);
    }
  }

  /* ---------------------------------------------------------------------- */
  /* processInput                                                            */
  /* ---------------------------------------------------------------------- */

  /** The key tests after the pin loop keep Core. */
  lemma CommandsKeep(e: GameData, key: char, swaps: seq<int>)
    requires Core(e) && !e.gameOver && ValidSwaps(swaps, CardCount)
    ensures Core(Commands(e, key, swaps))
  {
    if key == 'X' {
      PlayCardKeeps(e, 0, swaps);
    } else if key == 'Y' {
      PlayCardKeeps(e, 1, swaps);
    } else if key == 'Z' {
      PlayCardKeeps(e, 2, swaps);
    } else if key == ' ' {
      SpaceKeeps(e, swaps);
    }
  }

  /** Every key press of a running game keeps the invariant. */
  lemma ProcessInputKeeps(e: GameData, c: char, swaps: seq<int>)
    requires Inv(e) && !e.gameOver && ValidSwaps(swaps, CardCount)
    ensures Inv(ProcessInput(e, c, swaps))
  {
    var key := UpperKey(c);
    PressKeeps(e, key);
    var e1 := PressFrom(e, key, 0);
    CommandsKeep(e1, key, swaps);
    UpdateAvailableKeeps(Commands(e1, key, swaps));
  }
}
