/**
 The twenty cards of a deal: two of each digit. shuffleDeck builds them in
 order and shuffles by swaps; drawCards pops cards off the end of the deck.
 */
module Cards {
  import opened Board

  /** The deck before shuffling: card i shows (i + 1) % 10. */
  function NewDeck(): (d: seq<int>)
    ensures |d| == CardCount
    ensures forall i :: 0 <= i < |d| ==> d[i] == (i + 1) % 10
  {
    seq(CardCount, i => (i + 1) % 10)
  }

  predicate IsCard(c: int) {
    0 <= c <= 9
  }

  predicate AllCards(s: seq<int>) {
    forall i :: 0 <= i < |s| ==> IsCard(s[i])
  }

  /** How often c occurs in s from index i on. */
  function CountFrom(s: seq<int>, c: int, i: nat): nat
    requires i <= |s|
    decreases |s| - i
  {
    if i == |s| then 0 else (if s[i] == c then 1 else 0) + CountFrom(s, c, i + 1)
  }

  lemma {:induction false} CountFromMultiplicity(s: seq<int>, c: int, i: nat)
    requires i <= |s|
    ensures multiset(s[i..])[c] == CountFrom(s, c, i)
    decreases |s| - i
  {
    if i < |s| {
      assert s[i..] == [s[i]] + s[i + 1..];
      CountFromMultiplicity(s, c, i + 1);
    }
  }

  /** The first position of digit c in the new deck, which is (c + 9) % 10. */
  function Slot(c: int): int {
    if c == 0 then 9 else c - 1
  }

  lemma NewDeckAt(i: int)
    requires 0 <= i < CardCount
    ensures NewDeck()[i] == if i == 9 || i == 19 then 0 else if i < 9 then i + 1 else i - 9
  {
  }

  /** Digit c sits at positions Slot(c) and Slot(c) + 10 only. */
  lemma {:induction false} NewDeckCountFrom(c: int, i: nat)
    requires i <= CardCount
    ensures CountFrom(NewDeck(), c, i) ==
      if IsCard(c) then (if i <= Slot(c) then 1 else 0) + (if i <= Slot(c) + 10 then 1 else 0)
      else 0
    decreases CardCount - i
  {
    if i < CardCount {
      NewDeckCountFrom(c, i + 1);
      NewDeckAt(i);
      assert NewDeck()[i] == c <==> IsCard(c) && (i == Slot(c) || i == Slot(c) + 10);
    }
  }

  /** The new deck holds every digit exactly twice, and nothing else. */
  lemma NewDeckCounts()
    ensures AllCards(NewDeck())
    ensures forall c :: multiset(NewDeck())[c] == if IsCard(c) then 2 else 0
  {
    forall c
      ensures multiset(NewDeck())[c] == if IsCard(c) then 2 else 0
    {
      CountFromMultiplicity(NewDeck(), c, 0);
      NewDeckCountFrom(c, 0);
      assert NewDeck()[0..] == NewDeck();
    }
  }

  /** Exchange the cards at i and j. */
  function Swap(s: seq<int>, i: int, j: int): (r: seq<int>)
    requires 0 <= i < |s| && 0 <= j < |s|
    ensures |r| == |s| && r[i] == s[j] && r[j] == s[i]
    ensures forall k :: 0 <= k < |s| && k != i && k != j ==> r[k] == s[k]
    ensures multiset(r) == multiset(s)
  {
    var r := s[i := s[j]][j := s[i]];
    assert multiset(s[i := s[j]]) == multiset(s) - multiset{s[i]} + multiset{s[j]};
    r
  }

  /** The random indices of one shuffle of n cards: the k-th swap (for
      position n - 1 - k, counting down to 1) picks an index at most that
      position, as `Math.floor(Math.random() * (i + 1))` does. */
  predicate ValidSwaps(swaps: seq<int>, n: nat) {
    n > 0 && |swaps| == n - 1 && forall k :: 0 <= k < |swaps| ==> 0 <= swaps[k] <= n - 1 - k
  }

  /** The shuffle loop from position i down to 1. */
  function ShuffleFrom(deck: seq<int>, swaps: seq<int>, i: nat): (r: seq<int>)
    requires ValidSwaps(swaps, |deck|) && i < |deck|
    ensures |r| == |deck| && multiset(r) == multiset(deck)
    decreases i
  {
    if i == 0 then deck
    else ShuffleFrom(Swap(deck, i, swaps[|deck| - 1 - i]), swaps, i - 1)
  }

  /** shuffleDeck: the new deck, shuffled by the given swaps. */
  function Shuffle(swaps: seq<int>): (r: seq<int>)
    requires ValidSwaps(swaps, CardCount)
    ensures |r| == CardCount && multiset(r) == multiset(NewDeck())
  {
    ShuffleFrom(NewDeck(), swaps, CardCount - 1)
  }

  function Reverse(s: seq<int>): (r: seq<int>)
    ensures |r| == |s|
  {
    if |s| == 0 then [] else [s[|s| - 1]] + Reverse(s[..|s| - 1])
  }

  /** The k-th card of the reversal is the k-th card from the end. */
  lemma {:induction false} ReverseAt(s: seq<int>)
    ensures forall k :: 0 <= k < |s| ==> Reverse(s)[k] == s[|s| - 1 - k]
    decreases |s|
  {
    if |s| > 0 {
      ReverseAt(s[..|s| - 1]);
    }
  }

  lemma {:induction false} ReverseMultiset(s: seq<int>)
    ensures multiset(Reverse(s)) == multiset(s)
    decreases |s|
  {
    if |s| > 0 {
      ReverseMultiset(s[..|s| - 1]);
      assert s == s[..|s| - 1] + [s[|s| - 1]];
    }
  }

  /** n calls of `deck.pop()`: the cards popped, in order, and what remains. */
  function PopMany(deck: seq<int>, n: nat): (r: (seq<int>, seq<int>))
    requires n <= |deck|
    ensures r.0 == Reverse(deck[|deck| - n..]) && r.1 == deck[..|deck| - n]
    decreases n
  {
    if n == 0 then ([], deck)
    else
      var top := deck[|deck| - 1];
      var rest := PopMany(deck[..|deck| - 1], n - 1);
      assert deck[..|deck| - 1][|deck| - 1 - (n - 1)..] == deck[|deck| - n..|deck| - 1];
      assert deck[|deck| - n..][..n - 1] == deck[|deck| - n..|deck| - 1];
      ([top] + rest.0, rest.1)
  }

  /** Popping moves cards without losing or inventing any. */
  lemma PopManyConserves(deck: seq<int>, n: nat)
    requires n <= |deck|
    ensures multiset(PopMany(deck, n).0) + multiset(PopMany(deck, n).1) == multiset(deck)
  {
    ReverseMultiset(deck[|deck| - n..]);
    assert deck == deck[..|deck| - n] + deck[|deck| - n..];
  }

  lemma Slices(s: seq<int>, a: nat, b: nat)
    requires a <= b <= |s|
    ensures s[..b][a..] == s[a..b] && s[..b][..a] == s[..a]
  {
  }

  /** drawCards' pops on a full deck: ten cards for the pins, then five,
      three and two for the piles. */
  function DrawCards(deck: seq<int>): (r: (seq<int>, seq<seq<int>>))
    requires |deck| == CardCount
    ensures |r.0| == PinCount && |r.1| == 3 && |r.1[0]| == 5 && |r.1[1]| == 3 && |r.1[2]| == 2
  {
    var p := PopMany(deck, 10);
    var h0 := PopMany(p.1, 5);
    var h1 := PopMany(h0.1, 3);
    var h2 := PopMany(h1.1, 2);
    assert |p.1| == 10 && |h0.1| == 5 && |h1.1| == 2;
    (p.0, [h0.0, h1.0, h2.0])
  }

  /** The pins get the top ten cards, last card first, and the piles the
      next five, three and two, each in the order popped. */
  lemma DrawCardsOrder(deck: seq<int>)
    requires |deck| == CardCount
    ensures var r := DrawCards(deck);
      && r.0 == Reverse(deck[10..])
      && r.1[0] == Reverse(deck[5..10]) && r.1[1] == Reverse(deck[2..5]) && r.1[2] == Reverse(deck[..2])
  {
    Slices(deck, 5, 10);
    Slices(deck, 2, 5);
    Slices(deck, 0, 2);
  }

  /** The draw hands out exactly the cards of the deck. */
  lemma DrawCardsConserves(deck: seq<int>)
    requires |deck| == CardCount
    ensures var r := DrawCards(deck);
      multiset(r.0) + (multiset(r.1[0]) + (multiset(r.1[1]) + multiset(r.1[2]))) == multiset(deck)
  {
    DrawCardsOrder(deck);
    ReversedQuarters(deck);
  }

  /** The four reversed slices the draw hands out hold the deck's cards. */
  lemma ReversedQuarters(deck: seq<int>)
    requires |deck| == CardCount
    ensures multiset(Reverse(deck[10..])) + (multiset(Reverse(deck[5..10])) +
              (multiset(Reverse(deck[2..5])) + multiset(Reverse(deck[..2])))) == multiset(deck)
  {
    var a, b, c, d := deck[10..], deck[5..10], deck[2..5], deck[..2];
    assert deck == d + c + b + a;
    assert multiset(deck) == multiset(d) + multiset(c) + multiset(b) + multiset(a);
    ReverseMultiset(a);
    ReverseMultiset(b);
    ReverseMultiset(c);
    ReverseMultiset(d);
  }

  /** A shuffled deck holds cards only. */
  lemma ShuffleCards(swaps: seq<int>)
    requires ValidSwaps(swaps, CardCount)
    ensures AllCards(Shuffle(swaps))
  {
    var deck := Shuffle(swaps);
    NewDeckCounts();
    forall i | 0 <= i < |deck|
      ensures IsCard(deck[i])
    {
      assert deck[i] in multiset(NewDeck());
    }
  }

  /** Drawing from a deck of cards hands out cards only. */
  lemma DrawCardsAreCards(deck: seq<int>)
    requires |deck| == CardCount && AllCards(deck)
    ensures var r := DrawCards(deck);
      AllCards(r.0) && AllCards(r.1[0]) && AllCards(r.1[1]) && AllCards(r.1[2])
  {
    DrawCardsOrder(deck);
    ReverseAt(deck[10..]);
    ReverseAt(deck[5..10]);
    ReverseAt(deck[2..5]);
    ReverseAt(deck[..2]);
  }
}
