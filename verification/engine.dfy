/**
 The round engine of Bowling Solitaire (GameData): ten pin cards in a
 triangle, three face-up piles to play from, and a deck that takes the
 discards. A card whose value equals the last digit of the sum of one to
 three adjacent pins knocks those pins down; ending a roll drops the top of
 every pile. The state is an immutable record and every operation returns
 the next state. Only player 0's score ledger is modelled.
 */
module RoundEngine {
  import opened Wrappers
  import opened Board
  import opened Cards
  import opened Scoring

  /** A pin card: its value (-1 once knocked down), its key label, and
      whether it may be pressed now. */
  datatype Pin = Pin(value: int, letter: char, available: bool)

  /** The fields of GameData. `hand` holds the three piles, top card first;
      `scores` is player 0's ledger; `prevPinsDown` is the pin count after
      the first roll of a frame, None for entryway.js's `false`. */
  datatype GameData = GameData(
    deck: seq<int>,
    pins: seq<Pin>,
    hand: seq<seq<int>>,
    scores: seq<int>,
    selectedPins: seq<int>,
    turn: int,
    roll: int,
    frame: int,
    prevPinsDown: Option<int>,
    frameScores: seq<FrameScore>,
    gameOver: bool)

  /** The shape of the state once `init` has dealt: ten pins, three piles,
      and a selection of pin indices. Every operation below reads pins and
      piles by index and needs it. */
  predicate Shaped(e: GameData) {
    && |e.pins| == PinCount
    && |e.hand| == 3
    && forall k :: 0 <= k < |e.selectedPins| ==> IsPin(e.selectedPins[k])
  }

  predicate Down(p: Pin) {
    p.value < 0
  }

  /* ---------------------------------------------------------------------- */
  /* getPinsDown and the cards still in play                                 */
  /* ---------------------------------------------------------------------- */

  /** getPinsDown: how many pins are down. */
  function PinsDown(pins: seq<Pin>): (n: int)
    ensures 0 <= n <= |pins|
    ensures n == 0 <==> forall i :: 0 <= i < |pins| ==> !Down(pins[i])
    ensures n == |pins| <==> forall i :: 0 <= i < |pins| ==> Down(pins[i])
  {
    if |pins| == 0 then 0
    else
      var rest := PinsDown(pins[1..]);
      assert forall i :: 1 <= i < |pins| ==> pins[i] == pins[1..][i - 1];
      (if Down(pins[0]) then 1 else 0) + rest
  }

  /** The values of the standing pins. */
  function Standing(pins: seq<Pin>): multiset<int> {
    if |pins| == 0 then multiset{}
    else (if Down(pins[0]) then multiset{} else multiset{pins[0].value}) + Standing(pins[1..])
  }

  /** The cards in the three piles. */
  function HandCards(hand: seq<seq<int>>): multiset<int>
    requires |hand| == 3
  {
    multiset(hand[0]) + (multiset(hand[1]) + multiset(hand[2]))
  }

  /** Every card on the table, in the piles and in the deck. */
  function CardsOf(e: GameData): multiset<int>
    requires |e.hand| == 3
  {
    Standing(e.pins) + HandCards(e.hand) + multiset(e.deck)
  }

  /** Knocking pin p down: it leaves the standing values, the count of
      down pins goes up by one if it was standing, and its label and flag
      stay. */
  function KnockPin(pins: seq<Pin>, p: int): (r: seq<Pin>)
    requires 0 <= p < |pins|
    ensures |r| == |pins| && r[p] == pins[p].(value := -1)
    ensures forall i :: 0 <= i < |pins| && i != p ==> r[i] == pins[i]
  {
    pins[p := pins[p].(value := -1)]
  }

  lemma {:induction false} KnockPinDown(pins: seq<Pin>, p: int)
    requires 0 <= p < |pins|
    ensures PinsDown(KnockPin(pins, p)) == PinsDown(pins) + (if Down(pins[p]) then 0 else 1)
    decreases |pins|
  {
    var r := KnockPin(pins, p);
    if p > 0 {
      assert r[1..] == KnockPin(pins[1..], p - 1);
      KnockPinDown(pins[1..], p - 1);
    } else {
      assert r[1..] == pins[1..];
    }
  }

  lemma {:induction false} KnockPinStanding(pins: seq<Pin>, p: int)
    requires 0 <= p < |pins|
    ensures Standing(KnockPin(pins, p)) + (if Down(pins[p]) then multiset{} else multiset{pins[p].value})
      == Standing(pins)
    decreases |pins|
  {
    var r := KnockPin(pins, p);
    if p > 0 {
      assert r[1..] == KnockPin(pins[1..], p - 1);
      KnockPinStanding(pins[1..], p - 1);
    } else {
      assert r[1..] == pins[1..];
    }
  }

  /* ---------------------------------------------------------------------- */
  /* Dealing: nextFrame, shuffleDeck, drawCards                              */
  /* ---------------------------------------------------------------------- */

  /** The pins drawn from `popped`, labelled A..J, none available yet. */
  function PinsFrom(popped: seq<int>): (pins: seq<Pin>)
    requires |popped| == PinCount
    ensures |pins| == PinCount
    ensures forall i :: 0 <= i < PinCount ==> pins[i] == Pin(popped[i], Label(i), false)
  {
    seq(PinCount, i requires 0 <= i < PinCount => Pin(popped[i], Label(i), false))
  }

  lemma {:induction false} StandingFrom(pins: seq<Pin>, values: seq<int>)
    requires |pins| == |values|
    requires forall i :: 0 <= i < |pins| ==> pins[i].value == values[i] && values[i] >= 0
    ensures Standing(pins) == multiset(values)
    ensures PinsDown(pins) == 0
    decreases |pins|
  {
    if |pins| > 0 {
      StandingFrom(pins[1..], values[1..]);
      assert values == [values[0]] + values[1..];
    }
  }

  /** Freshly drawn pins all stand, showing the drawn cards. */
  lemma PinsFromStanding(popped: seq<int>)
    requires |popped| == PinCount && AllCards(popped)
    ensures Standing(PinsFrom(popped)) == multiset(popped) && PinsDown(PinsFrom(popped)) == 0
  {
    var pins := PinsFrom(popped);
    assert forall i :: 0 <= i < |pins| ==> pins[i].value == popped[i];
    StandingFrom(pins, popped);
  }

  /** A fresh deal of the shuffled new deck: labelled pins, none available
      and none down, and piles of five, three and two; every card of the
      new deck is dealt. */
  function Deal(swaps: seq<int>): (r: (seq<Pin>, seq<seq<int>>))
    requires ValidSwaps(swaps, CardCount)
    ensures |r.0| == PinCount && |r.1| == 3 && PinsDown(r.0) == 0
    ensures forall i :: 0 <= i < PinCount ==>
      r.0[i].letter == Label(i) && IsCard(r.0[i].value) && !r.0[i].available
    ensures |r.1[0]| == 5 && |r.1[1]| == 3 && |r.1[2]| == 2
    ensures AllCards(r.1[0]) && AllCards(r.1[1]) && AllCards(r.1[2])
    ensures Standing(r.0) + HandCards(r.1) == multiset(NewDeck())
  {
    var deck := Shuffle(swaps);
    ShuffleCards(swaps);
    var d := DrawCards(deck);
    DrawCardsConserves(deck);
    DrawCardsAreCards(deck);
    var pins := PinsFrom(d.0);
    PinsFromStanding(d.0);
    (pins, d.1)
  }

  /** nextFrame: the next frame number, a fresh shuffled deal, and the
      per-frame counters cleared. */
  function NextFrame(e: GameData, swaps: seq<int>): (r: GameData)
    requires ValidSwaps(swaps, CardCount)
    ensures r.frame == e.frame + 1 && r.turn == 0 && r.roll == 0
    ensures r.selectedPins == [] && r.prevPinsDown == None && r.deck == []
    ensures Shaped(r) && PinsDown(r.pins) == 0
    ensures forall i :: 0 <= i < PinCount ==>
      r.pins[i].letter == Label(i) && IsCard(r.pins[i].value) && !r.pins[i].available
    ensures |r.hand[0]| == 5 && |r.hand[1]| == 3 && |r.hand[2]| == 2
    ensures AllCards(r.hand[0]) && AllCards(r.hand[1]) && AllCards(r.hand[2])
    ensures CardsOf(r) == multiset(NewDeck())
    ensures r.scores == e.scores && r.frameScores == e.frameScores && r.gameOver == e.gameOver
  {
    var d := Deal(swaps);
    e.(frame := e.frame + 1, deck := [], pins := d.0, hand := d.1, selectedPins := [],
       turn := 0, roll := 0, prevPinsDown := None)
  }

  /* ---------------------------------------------------------------------- */
  /* Availability: isPinAvailable, updateAvailable                           */
  /* ---------------------------------------------------------------------- */

  /** The neighbour a opens pin selection: it is down and nothing is
      selected yet, or it is selected and fewer than three are. */
  predicate Opens(e: GameData, a: int, total: int)
    requires Shaped(e) && IsPin(a)
  {
    (Down(e.pins[a]) && total == 0) || (a in e.selectedPins && total < MaxSelectedPins)
  }

  /** The loop over the neighbours in isPinAvailable. */
  function AnyOpens(e: GameData, adjacent: seq<int>, total: int): (r: bool)
    requires Shaped(e) && forall k :: 0 <= k < |adjacent| ==> IsPin(adjacent[k])
    ensures r <==> exists k :: 0 <= k < |adjacent| && Opens(e, adjacent[k], total)
  {
    if |adjacent| == 0 then false
    else
      var rest := AnyOpens(e, adjacent[1..], total);
      assert forall k :: 1 <= k < |adjacent| ==> adjacent[k] == adjacent[1..][k - 1];
      Opens(e, adjacent[0], total) || rest
  }

  /** isPinAvailable(pos): back pins never on turn 0, down pins never,
      selected pins always (to be deselected), otherwise when a neighbour
      opens the selection. */
  function IsPinAvailable(e: GameData, pos: int): (r: bool)
    requires Shaped(e) && IsPin(pos)
    ensures r ==> !Down(e.pins[pos]) && !(e.turn == 0 && pos > 5)
    ensures !Down(e.pins[pos]) && !(e.turn == 0 && pos > 5) && pos in e.selectedPins ==> r
    ensures r && pos !in e.selectedPins ==> |e.selectedPins| < MaxSelectedPins
    ensures r && pos !in e.selectedPins <==>
      && !Down(e.pins[pos]) && !(e.turn == 0 && pos > 5) && pos !in e.selectedPins
      && exists a :: a in PinAdjacency[pos] && IsPin(a) && Opens(e, a, |e.selectedPins|)
  {
    AdjacencyInRange();
    var total := |e.selectedPins|;
    if e.turn == 0 && pos > 5 then false
    else if Down(e.pins[pos]) then false
    else if pos in e.selectedPins then true
    else
      var r := AnyOpens(e, PinAdjacency[pos], total);
      assert r ==> exists a :: a in PinAdjacency[pos] && IsPin(a) && Opens(e, a, total);
      assert (exists a :: a in PinAdjacency[pos] && IsPin(a) && Opens(e, a, total)) ==> r by {
        if a :| a in PinAdjacency[pos] && IsPin(a) && Opens(e, a, total) {
          var k :| 0 <= k < |PinAdjacency[pos]| && PinAdjacency[pos][k] == a;
        }
      }
      r
  }

  /** The opening special case of updateAvailable: on turn 0 with nothing
      selected, pins 0-3 and 5 may be pressed and pin 4 may not; the back
      row keeps its flags. */
  function OpeningFlags(pins: seq<Pin>): (r: seq<Pin>)
    requires |pins| == PinCount
    ensures |r| == PinCount
    ensures forall i :: 0 <= i < PinCount ==>
      r[i] == (if i <= 5 then pins[i].(available := i != 4) else pins[i])
  {
    seq(PinCount, i requires 0 <= i < PinCount => if i <= 5 then pins[i].(available := i != 4) else pins[i])
  }

  /** Every flag set from isPinAvailable. */
  function ComputedFlags(e: GameData): (r: seq<Pin>)
    requires Shaped(e)
    ensures |r| == PinCount
    ensures forall i :: 0 <= i < PinCount ==> r[i] == e.pins[i].(available := IsPinAvailable(e, i))
  {
    seq(PinCount, i requires 0 <= i < PinCount => e.pins[i].(available := IsPinAvailable(e, i)))
  }

  /** updateAvailable: only the availability flags change. */
  function UpdateAvailable(e: GameData): (r: GameData)
    requires Shaped(e)
    ensures Shaped(r) && r.(pins := e.pins) == e
    ensures forall i :: 0 <= i < PinCount ==>
      r.pins[i].value == e.pins[i].value && r.pins[i].letter == e.pins[i].letter
    ensures e.turn == 0 && |e.selectedPins| == 0 ==>
      && (forall i :: 0 <= i <= 5 ==> r.pins[i].available == (i != 4))
      && (forall i :: 5 < i < PinCount ==> r.pins[i].available == e.pins[i].available)
    ensures !(e.turn == 0 && |e.selectedPins| == 0) ==>
      forall i :: 0 <= i < PinCount ==> r.pins[i].available == IsPinAvailable(e, i)
  {
    if e.turn == 0 && |e.selectedPins| == 0 then e.(pins := OpeningFlags(e.pins))
    else e.(pins := ComputedFlags(e))
  }

  /** isPinAvailable reads values, the selection and the turn, never the
      flags. */
  lemma AvailabilityIgnoresFlags(e: GameData, e': GameData, pos: int)
    requires Shaped(e) && Shaped(e') && IsPin(pos)
    requires e'.selectedPins == e.selectedPins && e'.turn == e.turn
    requires forall i :: 0 <= i < PinCount ==> e'.pins[i].value == e.pins[i].value
    ensures IsPinAvailable(e', pos) == IsPinAvailable(e, pos)
  {
    AdjacencyInRange();
    assert forall a :: IsPin(a) ==> (Opens(e', a, |e.selectedPins|) <==> Opens(e, a, |e.selectedPins|));
  }

  /** Recomputing the flags a second time changes nothing. */
  lemma UpdateAvailableIdempotent(e: GameData)
    requires Shaped(e)
    ensures UpdateAvailable(UpdateAvailable(e)) == UpdateAvailable(e)
  {
    var r := UpdateAvailable(e);
    var r2 := UpdateAvailable(r);
    forall i | 0 <= i < PinCount
      ensures r2.pins[i] == r.pins[i]
    {
      if !(e.turn == 0 && |e.selectedPins| == 0) {
        AvailabilityIgnoresFlags(e, r, i);
      }
    }
    assert r2.pins == r.pins;
  }

  /* ---------------------------------------------------------------------- */
  /* Selection: processInput's pin loop, deselectPin, getSelectedPinSum      */
  /* ---------------------------------------------------------------------- */

  /** `String.fromCharCode(keyCode).toUpperCase()` for the characters that
      can reach a pin label, a pile key or the space bar: ASCII letters and
      the dotless i, whose upper case is I. */
  function UpperKey(c: char): (k: char)
    ensures 'a' <= c <= 'z' ==> k as int == c as int - 32
    ensures c == 'ı' ==> k == 'I'
    ensures !('a' <= c <= 'z') && c != 'ı' ==> k == c
  {
    if 'a' <= c <= 'z' then (c as int - 32) as char
    else if c == 'ı' then 'I'
    else c
  }

  /** deselectPin: every pin is deselected, not just `pos`. */
  function DeselectPin(e: GameData, pos: int): (r: GameData)
    ensures r.selectedPins == [] && r.(selectedPins := e.selectedPins) == e
  {
    e.(selectedPins := [])
  }

  /** One iteration of the pin loop: pressing pin i's label while it is
      available selects it, or clears the selection if it was selected. */
  function Press(e: GameData, key: char, i: int): GameData
    requires Shaped(e) && IsPin(i)
  {
    if key == e.pins[i].letter && e.pins[i].available then
      if i !in e.selectedPins then e.(selectedPins := e.selectedPins + [i]) else DeselectPin(e, i)
    else e
  }

  /** The pin loop of processInput from index i. */
  function PressFrom(e: GameData, key: char, i: nat): (r: GameData)
    requires Shaped(e) && i <= PinCount
    ensures Shaped(r) && r.(selectedPins := e.selectedPins) == e
    decreases PinCount - i
  {
    if i == PinCount then e else PressFrom(Press(e, key, i), key, i + 1)
  }

  predicate LabelledPins(pins: seq<Pin>) {
    |pins| == PinCount && forall i :: 0 <= i < PinCount ==> pins[i].letter == Label(i)
  }

  /** Since labels are distinct, the loop acts on the one pin whose label is
      the key, if any. */
  lemma {:induction false} PressFromOnly(e: GameData, key: char, i: nat)
    requires Shaped(e) && i <= PinCount
    ensures var k := key as int - 'A' as int;
      LabelledPins(e.pins) ==> PressFrom(e, key, i) == if i <= k < PinCount then Press(e, key, k) else e
    decreases PinCount - i
  {
    var k := key as int - 'A' as int;
    if i < PinCount && LabelledPins(e.pins) {
      var e' := Press(e, key, i);
      if i == k {
        PressFromOnly(e', key, i + 1);
        assert PressFrom(e', key, i + 1) == e';
      } else {
        assert key != Label(i);
        assert e' == e;
        PressFromOnly(e, key, i + 1);
      }
    }
  }

  /** The sum of the selected pins' values. */
  function SelectedSum(pins: seq<Pin>, sel: seq<int>): int
    requires forall k :: 0 <= k < |sel| ==> 0 <= sel[k] < |pins|
  {
    if |sel| == 0 then 0 else pins[sel[0]].value + SelectedSum(pins, sel[1..])
  }

  lemma {:induction false} SelectedSumRange(pins: seq<Pin>, sel: seq<int>)
    requires forall k :: 0 <= k < |sel| ==> 0 <= sel[k] < |pins|
    ensures (forall k :: 0 <= k < |sel| ==> !Down(pins[sel[k]])) ==> SelectedSum(pins, sel) >= 0
    decreases |sel|
  {
    if |sel| > 0 {
      SelectedSumRange(pins, sel[1..]);
    }
  }

  /** JavaScript's `a % 10`, whose result takes the sign of a. */
  function JsRem10(a: int): (r: int)
    ensures -10 < r < 10 && (a - r) % 10 == 0
    ensures a >= 0 ==> 0 <= r && r == a % 10
    ensures a < 0 ==> r <= 0
  {
    if a >= 0 then a % 10
    else
      var m := (-a) % 10;
      assert -a == 10 * ((-a) / 10) + m;
      assert a + m == 10 * (-((-a) / 10));
      -m
  }

  /** getSelectedPinSum: -1 with nothing selected, otherwise the last digit
      of the selected values' sum. */
  function GetSelectedPinSum(e: GameData): (r: int)
    requires Shaped(e)
    ensures |e.selectedPins| == 0 ==> r == -1
    ensures |e.selectedPins| > 0 ==> -10 < r < 10 && (SelectedSum(e.pins, e.selectedPins) - r) % 10 == 0
    ensures |e.selectedPins| > 0 && (forall k :: 0 <= k < |e.selectedPins| ==> !Down(e.pins[e.selectedPins[k]])) ==>
      0 <= r <= 9 && r == SelectedSum(e.pins, e.selectedPins) % 10
  {
    if |e.selectedPins| < 1 then -1
    else
      var sum := SelectedSum(e.pins, e.selectedPins);
      SelectedSumRange(e.pins, e.selectedPins);
      JsRem10(sum)
  }

  /* ---------------------------------------------------------------------- */
  /* Playing a card: playCard, nextTurn                                      */
  /* ---------------------------------------------------------------------- */

  /** The loop of playCard over the selection: each selected pin's value
      goes onto the deck and the pin goes down. */
  function KnockFrom(deck: seq<int>, pins: seq<Pin>, sel: seq<int>): (r: (seq<int>, seq<Pin>))
    requires forall k :: 0 <= k < |sel| ==> 0 <= sel[k] < |pins|
    ensures |r.0| == |deck| + |sel| && r.0[..|deck|] == deck && |r.1| == |pins|
    ensures forall i :: 0 <= i < |pins| ==>
      r.1[i] == if i in sel then pins[i].(value := -1) else pins[i]
    decreases |sel|
  {
    if |sel| == 0 then (deck, pins)
    else
      var r := KnockFrom(deck + [pins[sel[0]].value], KnockPin(pins, sel[0]), sel[1..]);
      assert forall i :: i in sel <==> i == sel[0] || i in sel[1..];
      assert r.0[..|deck|] == (deck + [pins[sel[0]].value])[..|deck|];
      r
  }

  predicate Distinct(sel: seq<int>) {
    forall a, b :: 0 <= a < b < |sel| ==> sel[a] != sel[b]
  }

  /** The value the loop pushes for the k-th selected pin: its card, or -1
      when an earlier entry of the selection already knocked that pin. */
  function PushedValue(pins: seq<Pin>, sel: seq<int>, k: int): int
    requires 0 <= k < |sel| && 0 <= sel[k] < |pins|
  {
    if sel[k] in sel[..k] then -1 else pins[sel[k]].value
  }

  /** The loop pushes one value per selected pin, in selection order, after
      the old deck. */
  lemma {:induction false} KnockFromPushes(deck: seq<int>, pins: seq<Pin>, sel: seq<int>)
    requires forall k :: 0 <= k < |sel| ==> 0 <= sel[k] < |pins|
    ensures forall k :: 0 <= k < |sel| ==>
      KnockFrom(deck, pins, sel).0[|deck| + k] == PushedValue(pins, sel, k)
    decreases |sel|
  {
    if |sel| > 0 {
      var p := sel[0];
      var deck' := deck + [pins[p].value];
      var pins' := KnockPin(pins, p);
      KnockFromPushes(deck', pins', sel[1..]);
      var r := KnockFrom(deck, pins, sel);
      assert r == KnockFrom(deck', pins', sel[1..]);
      forall k | 0 <= k < |sel|
        ensures r.0[|deck| + k] == PushedValue(pins, sel, k)
      {
        if k == 0 {
          assert r.0[..|deck'|] == deck';
          assert r.0[|deck|] == deck'[|deck|];
        } else {
          assert r.0[|deck'| + (k - 1)] == PushedValue(pins', sel[1..], k - 1);
          assert sel[1..][k - 1] == sel[k];
          assert sel[..k] == [p] + sel[1..][..k - 1];
        }
      }
    }
  }

  /** With a selection of distinct pins, the k-th pushed value is the k-th
      selected pin's card. */
  lemma KnockFromPushesCards(deck: seq<int>, pins: seq<Pin>, sel: seq<int>)
    requires forall k :: 0 <= k < |sel| ==> 0 <= sel[k] < |pins|
    requires Distinct(sel)
    ensures forall k :: 0 <= k < |sel| ==> KnockFrom(deck, pins, sel).0[|deck| + k] == pins[sel[k]].value
  {
    KnockFromPushes(deck, pins, sel);
    forall k | 0 <= k < |sel|
      ensures PushedValue(pins, sel, k) == pins[sel[k]].value
    {
      assert forall a :: 0 <= a < k ==> sel[..k][a] == sel[a] != sel[k];
    }
  }

  /** Knocking down distinct standing pins moves their values to the deck
      and counts each of them down. */
  lemma {:induction false} KnockFromConserves(deck: seq<int>, pins: seq<Pin>, sel: seq<int>)
    requires forall k :: 0 <= k < |sel| ==> 0 <= sel[k] < |pins| && !Down(pins[sel[k]])
    requires Distinct(sel)
    ensures var r := KnockFrom(deck, pins, sel);
      && Standing(r.1) + multiset(r.0) == Standing(pins) + multiset(deck)
      && PinsDown(r.1) == PinsDown(pins) + |sel|
    decreases |sel|
  {
    if |sel| > 0 {
      var p := sel[0];
      var pins' := KnockPin(pins, p);
      KnockPinDown(pins, p);
      KnockPinStanding(pins, p);
      assert forall k :: 0 <= k < |sel[1..]| ==> sel[1..][k] == sel[k + 1] && sel[k + 1] != p;
      KnockFromConserves(deck + [pins[p].value], pins', sel[1..]);
      assert multiset(deck + [pins[p].value]) == multiset(deck) + multiset{pins[p].value};
    }
  }

  /** The first half of a successful playCard: the pile's top card and
      then the selected pins' values go onto the deck, and those pins
      go down. */
  function Discard(e: GameData, h: int): (r: GameData)
    requires Shaped(e) && 0 <= h < 3 && |e.hand[h]| > 0
    ensures Shaped(r)
    ensures r.hand == e.hand[h := e.hand[h][1..]]
    ensures |r.deck| == |e.deck| + 1 + |e.selectedPins| && r.deck[..|e.deck|] == e.deck
    ensures r.deck[|e.deck|] == e.hand[h][0]
    ensures forall k :: 0 <= k < |e.selectedPins| ==>
      r.deck[|e.deck| + 1 + k] == PushedValue(e.pins, e.selectedPins, k)
    ensures forall i :: 0 <= i < PinCount ==>
      r.pins[i] == if i in e.selectedPins then e.pins[i].(value := -1) else e.pins[i]
    ensures r.(deck := e.deck, pins := e.pins, hand := e.hand) == e
  {
    var top := e.hand[h][0];
    var k := KnockFrom(e.deck + [top], e.pins, e.selectedPins);
    assert k.0[..|e.deck|] == (e.deck + [top])[..|e.deck|];
    KnockFromPushes(e.deck + [top], e.pins, e.selectedPins);
    e.(hand := e.hand[h := e.hand[h][1..]], deck := k.0, pins := k.1)
  }

  /** nextTurn. */
  function NextTurn(e: GameData): (r: GameData)
    ensures r.turn == e.turn + 1 && r.selectedPins == []
    ensures r.(turn := e.turn, selectedPins := e.selectedPins) == e
  {
    e.(turn := e.turn + 1, selectedPins := [])
  }

  /** endGame. */
  function EndGame(e: GameData): (r: GameData)
    ensures r.gameOver && r.(gameOver := e.gameOver) == e
  {
    e.(gameOver := true)
  }

  /** playCard's test: the pile has a top card and it equals the selected
      sum (an empty pile's `undefined` never does). */
  predicate CardMatches(e: GameData, h: int)
    requires Shaped(e) && 0 <= h < 3
  {
    |e.hand[h]| > 0 && e.hand[h][0] == GetSelectedPinSum(e)
  }

  /** The end of playCard once the last pin fell: record the roll, then
      deal the next frame, or in the tenth frame go through
      handleLastFrameStrikesAndSpares. */
  function ClearRack(e: GameData, swaps: seq<int>): (r: GameData)
    requires Shaped(e) && ValidSwaps(swaps, CardCount)
    ensures Shaped(r) && r.scores == UpdateFrameScore(e).scores
    ensures r.gameOver <==> e.gameOver || (e.frame == 10 && e.roll != 0 && e.roll != 1)
    ensures !(e.frame == 10 && e.roll != 0 && e.roll != 1) ==> PinsDown(r.pins) == 0 && r.selectedPins == []
  {
    var recorded := UpdateFrameScore(e);
    if recorded.frame == 10 then HandleLastFrameStrikesAndSpares(recorded, swaps)
    else NextFrame(recorded, swaps)
  }

  /** playCard(h): on a match, discard and knock down, start the next turn,
      and when the last pin fell clear the rack. A mismatch, or an empty
      pile, changes nothing. */
  function PlayCard(e: GameData, h: int, swaps: seq<int>): (r: (GameData, bool))
    requires Shaped(e) && 0 <= h < 3 && ValidSwaps(swaps, CardCount)
    ensures Shaped(r.0)
    ensures r.1 <==> CardMatches(e, h)
    ensures !r.1 ==> r.0 == e
    ensures r.1 && !r.0.gameOver ==> r.0.selectedPins == []
  {
    if !CardMatches(e, h) then (e, false)
    else
      var e' := NextTurn(Discard(e, h));
      if PinsDown(e'.pins) == PinCount then (ClearRack(e', swaps), true)
      else (e', true)
  }

  /** handleLastFrameStrikesAndSpares: a cleared rack in the tenth frame
      redeals for a bonus roll (roll 1 after a strike on roll 0, roll 2
      after a strike or spare on roll 1) and ends the game on roll 2. */
  function HandleLastFrameStrikesAndSpares(e: GameData, swaps: seq<int>): (r: GameData)
    requires ValidSwaps(swaps, CardCount)
    ensures e.roll == 0 || e.roll == 1 ==>
      && r.frame == 10 && r.roll == e.roll + 1 && r.turn == 0
      && PinsDown(r.pins) == 0 && r.selectedPins == [] && r.prevPinsDown == None
    ensures e.roll != 0 && e.roll != 1 ==> r == EndGame(e)
    ensures r.scores == e.scores
    ensures r.gameOver <==> e.gameOver || (e.roll != 0 && e.roll != 1)
    ensures Shaped(e) ==> Shaped(r)
  {
    // handleLastFrameStrikesAndSpares' branches for roll 0 and roll 1 differ only in the roll they set
    if e.roll == 0 || e.roll == 1 then NextFrame(e, swaps).(roll := e.roll + 1, frame := 10)
    else EndGame(e)
  }

  /* ---------------------------------------------------------------------- */
  /* Recording and ending a roll: updateFrameScore, nextRoll                 */
  /* ---------------------------------------------------------------------- */

  /** The ledger entry updateFrameScore appends and the new prevPinsDown:
      the pins down on a first roll (remembered unless all ten fell), or
      the pins added since the first roll. */
  function RollEntry(pinsDown: int, prev: Option<int>): (r: (int, Option<int>))
    ensures prev.None? ==> r.0 == pinsDown && (r.1 == if pinsDown < PinCount then Some(pinsDown) else None)
    ensures prev.Some? ==> r.0 == pinsDown - prev.value && r.1 == None
  {
    match prev
    case None => (pinsDown, if pinsDown < PinCount then Some(pinsDown) else None)
    case Some(p) => (pinsDown - p, None)
  }

  /** updateFrameScore: append exactly one ledger entry and recompute the
      frame breakdown from the ledger. */
  function UpdateFrameScore(e: GameData): (r: GameData)
    ensures var entry := RollEntry(PinsDown(e.pins), e.prevPinsDown);
      && r.scores == e.scores + [entry.0]
      && r.prevPinsDown == entry.1
      && r.frameScores == FrameScoresOf(r.scores)
    ensures r.deck == e.deck && r.pins == e.pins && r.hand == e.hand && r.selectedPins == e.selectedPins
    ensures r.turn == e.turn && r.roll == e.roll && r.frame == e.frame && r.gameOver == e.gameOver
    ensures |r.scores| == |e.scores| + 1 && r.scores[..|e.scores|] == e.scores
    ensures e.prevPinsDown.Some? && |e.scores| > 0 && e.scores[|e.scores| - 1] == e.prevPinsDown.value ==>
      r.scores[|e.scores| - 1] + r.scores[|e.scores|] == PinsDown(e.pins)
  {
    var entry := RollEntry(PinsDown(e.pins), e.prevPinsDown);
    var scores := UpdateRoll(e.scores, entry.0).0;
    assert scores[..|e.scores|] == e.scores;
    e.(scores := scores, prevPinsDown := entry.1, frameScores := FrameScoresOf(scores))
  }

  /** nextRoll's test on the tenth frame: its first two rolls leave pins
      standing. GameData.nextRoll reads `frameScores[9].rolls[0] + rolls[1]`; a
      missing second roll makes the sum NaN and the test false, and a
      missing tenth entry (which nextRoll would not survive) is read as
      false too. */
  predicate LastFrameOpen(fs: seq<FrameScore>) {
    |fs| >= 10 && |fs[9].rolls| >= 2 && fs[9].rolls[0] + fs[9].rolls[1] < PinCount
  }

  /** The loop at the end of nextRoll: each non-empty pile loses its top
      card, which does not go onto the deck. */
  function DropTops(hand: seq<seq<int>>): (r: seq<seq<int>>)
    ensures |r| == |hand|
    ensures forall i :: 0 <= i < |hand| ==> r[i] == if |hand[i]| > 0 then hand[i][1..] else hand[i]
  {
    seq(|hand|, i requires 0 <= i < |hand| => if |hand[i]| > 0 then hand[i][1..] else hand[i])
  }

  /** nextRoll: clear the selection and count the roll; the second roll of
      frames 1-9 deals the next frame; in the tenth frame the game ends
      after roll 2 when the first two rolls left pins standing (the piles
      are still dropped), or after roll 3; otherwise the pile tops drop. */
  function NextRoll(e: GameData, swaps: seq<int>): (r: GameData)
    requires ValidSwaps(swaps, CardCount)
    ensures r.selectedPins == [] && r.scores == e.scores && r.frameScores == e.frameScores
    ensures e.roll + 1 > 1 && e.frame < 10 ==>
      && r.frame == e.frame + 1 && r.roll == 0 && r.turn == 0 && r.prevPinsDown == None
      && Shaped(r) && PinsDown(r.pins) == 0 && r.deck == [] && CardsOf(r) == multiset(NewDeck())
    ensures !(e.roll + 1 > 1 && e.frame < 10) ==>
      && r.frame == e.frame && r.roll == e.roll + 1 && r.turn == e.turn && r.prevPinsDown == e.prevPinsDown
      && r.pins == e.pins && r.deck == e.deck
    ensures r.gameOver <==>
      || e.gameOver
      || (e.frame >= 10 && e.roll + 1 > 2)
      || (e.frame == 10 && e.roll + 1 > 1 && LastFrameOpen(e.frameScores))
    ensures !(e.roll + 1 > 1 && e.frame < 10) && !(e.roll + 1 > 2 && !(e.frame == 10 && LastFrameOpen(e.frameScores))) ==>
      r.hand == DropTops(e.hand)
    ensures e.roll + 1 > 2 && e.frame >= 10 && !(e.frame == 10 && LastFrameOpen(e.frameScores)) ==>
      r.hand == e.hand
    ensures Shaped(e) ==> Shaped(r)
  {
    var e' := e.(selectedPins := [], roll := e.roll + 1);
    if e'.roll > 1 && e'.frame < 10 then NextFrame(e', swaps)
    else if e'.roll > 1 && e'.frame == 10 && LastFrameOpen(e'.frameScores) then
      EndGame(e').(hand := DropTops(e'.hand))
    else if e'.roll > 2 then EndGame(e')
    else e'.(hand := DropTops(e'.hand))
  }

  /* ---------------------------------------------------------------------- */
  /* init and processInput                                                   */
  /* ---------------------------------------------------------------------- */

  /** The state `init` resets before dealing the first frame. */
  function Reset(): GameData {
    GameData([], [], [], [], [], 0, 0, 0, None, [], false)
  }

  /** init: reset, deal frame 1, and set the opening flags. */
  function Init(swaps: seq<int>): (r: GameData)
    requires ValidSwaps(swaps, CardCount)
    ensures Shaped(r) && r.frame == 1 && r.roll == 0 && r.turn == 0 && !r.gameOver
    ensures r.scores == [] && r.frameScores == [] && r.selectedPins == [] && r.prevPinsDown == None
    ensures forall i :: 0 <= i < PinCount ==> r.pins[i].available == (i <= 5 && i != 4)
  {
    UpdateAvailable(NextFrame(Reset(), swaps))
  }

  /** The key tests of processInput after the pin loop: the piles X, Y and
      Z, then the space bar, which records the roll and ends it. processInput
      tests them one after another, but a key passes at most one test, so
      they form a chain. A key that is none of these changes nothing. */
  function Commands(e: GameData, key: char, swaps: seq<int>): (r: GameData)
    requires Shaped(e) && ValidSwaps(swaps, CardCount)
    ensures Shaped(r)
    ensures key == 'X' ==> r == PlayCard(e, 0, swaps).0
    ensures key == 'Y' ==> r == PlayCard(e, 1, swaps).0
    ensures key == 'Z' ==> r == PlayCard(e, 2, swaps).0
    ensures key == ' ' ==> r == NextRoll(UpdateFrameScore(e), swaps)
    ensures key != 'X' && key != 'Y' && key != 'Z' && key != ' ' ==> r == e
  {
    if key == 'X' then PlayCard(e, 0, swaps).0
    else if key == 'Y' then PlayCard(e, 1, swaps).0
    else if key == 'Z' then PlayCard(e, 2, swaps).0
    else if key == ' ' then NextRoll(UpdateFrameScore(e), swaps)
    else e
  }

  /** processInput(key): the pin loop, then the pile keys X, Y and Z, then
      the space bar (record the roll and end it), then the flags. */
  function ProcessInput(e: GameData, keyChar: char, swaps: seq<int>): (r: GameData)
    requires Shaped(e) && ValidSwaps(swaps, CardCount)
    ensures Shaped(r)
    ensures var key := UpperKey(keyChar);
      !('A' <= key <= 'J') && key != 'X' && key != 'Y' && key != 'Z' && key != ' ' && LabelledPins(e.pins) ==>
        r == UpdateAvailable(e)
  {
    var key := UpperKey(keyChar);
    PressFromOnly(e, key, 0);
    UpdateAvailable(Commands(PressFrom(e, key, 0), key, swaps))
  }

  /** A command key selects no pin: X, Y and Z play piles 0, 1 and 2, and
      the space bar records the roll and ends it, before the flags are
      refreshed. */
  lemma ProcessInputCommands(e: GameData, c: char, swaps: seq<int>)
    requires Shaped(e) && LabelledPins(e.pins) && ValidSwaps(swaps, CardCount)
    ensures UpperKey(c) == 'X' ==> ProcessInput(e, c, swaps) == UpdateAvailable(PlayCard(e, 0, swaps).0)
    ensures UpperKey(c) == 'Y' ==> ProcessInput(e, c, swaps) == UpdateAvailable(PlayCard(e, 1, swaps).0)
    ensures UpperKey(c) == 'Z' ==> ProcessInput(e, c, swaps) == UpdateAvailable(PlayCard(e, 2, swaps).0)
    ensures UpperKey(c) == ' ' ==>
      ProcessInput(e, c, swaps) == UpdateAvailable(NextRoll(UpdateFrameScore(e), swaps))
  {
    var key := UpperKey(c);
    PressFromOnly(e, key, 0);
    if key == 'X' || key == 'Y' || key == 'Z' || key == ' ' {
      assert PressFrom(e, key, 0) == e;
    }
  }
}
