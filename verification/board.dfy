/**
 The pin triangle: ten pins, indexed 0 to 9 and labelled A to J, front pin
 first, and which pins touch which.
 */
module Board {

  const PinCount := 10
  const CardCount := 20
  const MaxSelectedPins := 3

  /** The neighbours of each pin, by index. */
  const PinAdjacency: seq<seq<int>> := [
    [1, 2],
    [0, 2, 3, 4],
    [0, 1, 4, 5],
    [1, 4, 6, 7],
    [1, 2, 3, 5, 7, 8],
    [2, 4, 8, 9],
    [3, 7],
    [3, 4, 6, 8],
    [4, 5, 7, 9],
    [5, 8]
  ]

  predicate IsPin(p: int) {
    0 <= p < PinCount
  }

  /** The label of pin p: 'A' for the front pin up to 'J'. */
  function Label(p: int): (c: char)
    requires IsPin(p)
    ensures 'A' <= c <= 'J' && c as int - 'A' as int == p
  {
    ('A' as int + p) as char
  }

  predicate Adjacent(a: int, b: int)
    requires IsPin(a)
  {
    b in PinAdjacency[a]
  }

  /** Every neighbour is a pin and no pin touches itself. */
  lemma AdjacencyInRange()
    ensures |PinAdjacency| == PinCount
    ensures forall a, k :: IsPin(a) && 0 <= k < |PinAdjacency[a]| ==> IsPin(PinAdjacency[a][k])
    ensures forall a :: IsPin(a) ==> !Adjacent(a, a)
  {
  }

  /** Each neighbour of pin a lists a among its own neighbours. */
  predicate MutualAt(a: int)
    requires IsPin(a)
  {
    forall k :: 0 <= k < |PinAdjacency[a]| ==>
      IsPin(PinAdjacency[a][k]) && a in PinAdjacency[PinAdjacency[a][k]]
  }

  lemma MutualFront()
    ensures MutualAt(0) && MutualAt(1) && MutualAt(2)
  {
  }

  lemma MutualMiddle()
    ensures MutualAt(3) && MutualAt(4) && MutualAt(5)
  {
  }

  lemma MutualBack()
    ensures MutualAt(6) && MutualAt(7) && MutualAt(8) && MutualAt(9)
  {
  }

  /** Touching is mutual. */
  lemma AdjacencySymmetric()
    ensures forall a, b :: IsPin(a) && IsPin(b) ==> (Adjacent(a, b) <==> Adjacent(b, a))
  {
    MutualFront();
    MutualMiddle();
    MutualBack();
    forall a, b | IsPin(a) && IsPin(b) && Adjacent(a, b)
      ensures Adjacent(b, a)
    {
      assert MutualAt(a);
      var k :| 0 <= k < |PinAdjacency[a]| && PinAdjacency[a][k] == b;
    }
  }

  /** The labels tell the pins apart. */
  lemma LabelsDistinct()
    ensures forall p, q :: IsPin(p) && IsPin(q) && Label(p) == Label(q) ==> p == q
  {
  }
}
