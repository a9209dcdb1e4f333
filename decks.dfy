/** The deck: a list of cards that is built, shuffled and then dealt from its head. */
module Decks {
  import opened Wrappers
  import opened Cards

  /** `s` with the entries at positions i and j exchanged, as `swap` on two vector slots does. */
  function Swapped(s: seq<Card>, i: nat, j: nat): seq<Card>
    requires i < |s| && j < |s|
  {
    seq(|s|, n requires 0 <= n < |s| => if n == j then s[i] else if n == i then s[j] else s[n])
  }

  /** The slot a pass exchanges with: the `rand()` value reduced modulo the deck size. */
  function Pick(roll: nat, size: nat): (r: nat)
    requires size > 0
    ensures r < size
  {
    roll % size
  }

  /** The order after the first k passes of the shuffle loop: pass i exchanges position i with
      position `rolls[i] % |s|`, where `rolls[i]` is the value `rand()` returned on that pass. */
  function ShufflePrefix(s: seq<Card>, rolls: seq<nat>, k: nat): (r: seq<Card>)
    requires k <= |s| && k <= |rolls|
    ensures |r| == |s|
  {
    if k == 0 then s
    else Swapped(ShufflePrefix(s, rolls, k - 1), k - 1, Pick(rolls[k - 1], |s|))
  }

  /** The order `shuffleDeck` leaves, given the `rand()` values of its passes. */
  function Shuffled(s: seq<Card>, rolls: seq<nat>): seq<Card>
    requires |rolls| == |s|
  {
    ShufflePrefix(s, rolls, |s|)
  }

  /** Whatever `rand()` returns, every pass only exchanges two entries, so the shuffle is a
      permutation of its input. */
  lemma {:induction false} ShufflePermutes(s: seq<Card>, rolls: seq<nat>, k: nat)
    requires k <= |s| && k <= |rolls|
    ensures multiset(ShufflePrefix(s, rolls, k)) == multiset(s)
  {
    if k > 0 {
      var p := ShufflePrefix(s, rolls, k - 1);
      var j := Pick(rolls[k - 1], |s|);
      calc {
        multiset(ShufflePrefix(s, rolls, k));
        multiset(Swapped(p, k - 1, j));
        { SwapPermutes(p, k - 1, j); }
        multiset(p);
        { ShufflePermutes(s, rolls, k - 1); }
        multiset(s);
      }
    }
  }

  lemma SwapPermutes(s: seq<Card>, i: nat, j: nat)
    requires i < |s| && j < |s|
    ensures multiset(Swapped(s, i, j)) == multiset(s)
  {
    var t := s[i := s[j]];
    assert Swapped(s, i, j) == t[j := s[i]];
    assert multiset(t) == multiset(s) - multiset{s[i]} + multiset{s[j]};
    assert multiset(t[j := s[i]]) == multiset(t) - multiset{t[j]} + multiset{s[i]};
  }

  class Deck {
    /** The cards from head to tail. */
    var cards: seq<Card>

    constructor ()
      ensures cards == []
    {
      cards := [];
    }

    /** Appends a face-down card at the tail. */
    method AddCard(suit: SuitIndex, rank: RankIndex)
      modifies this
      ensures cards == old(cards) + [Card(suit, rank, false)]
    {
      cards := cards + [Card(suit, rank, false)];
    }

    /** Appends the 52 cards, suit by suit and rank by rank. */
    method CreateDeck()
      modifies this
      ensures cards == old(cards) + FullDeck()
    {
      for s := 0 to 4
        invariant cards == old(cards) + FullDeck()[..13 * s]
      {
        for r := 0 to 13
          invariant cards == old(cards) + FullDeck()[..13 * s + r]
        {
          DeckPosition(s, r);
          assert FullDeck()[..13 * s + r + 1] == FullDeck()[..13 * s + r] + [Card(s, r, false)];
          AddCard(s, r);
        }
      }
    }

    /** Copies the list into a vector, swaps each position with a random one, and relinks the
        list in the new order. `rolls` stands for the values `rand()` returns, one per pass. */
    method ShuffleDeck(rolls: seq<nat>)
      requires |cards| > 0 && |rolls| == |cards|
      modifies this
      ensures cards == Shuffled(old(cards), rolls)
      ensures multiset(cards) == multiset(old(cards))
    {
      var original := cards;
      var n := |original|;
      var list := new Card[n](i requires 0 <= i < n => original[i]);
      for i := 0 to n
        invariant list[..] == ShufflePrefix(original, rolls, i)
      {
        var j := rolls[i] % n;
        list[i], list[j] := list[j], list[i];
      }
      cards := list[..];
      ShufflePermutes(original, rolls, n);
    }

    /** Removes and returns the head card, or nothing when the list is empty. */
    method DealCard() returns (c: Option<Card>)
      modifies this
      ensures old(cards) == [] ==> c == None && cards == []
      ensures old(cards) != [] ==> c == Some(old(cards)[0]) && cards == old(cards)[1..]
    {
      if cards == [] {
        c := None;
      } else {
        c := Some(cards[0]);
        cards := cards[1..];
      }
    }
  }
}
