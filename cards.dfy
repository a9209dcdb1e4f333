/** Cards and the standard 52-card deck as `createDeck` builds it. */
module Cards {
  /** Index into the suits of `createDeck`, in its order: 0 spades, 1 hearts, 2 diamonds, 3 clubs. */
  type SuitIndex = s: nat | s < 4

  /** Index into the ranks of `createDeck`, in its order: 0 "A", 1 "2", ..., 9 "10", 10 "J",
      11 "Q", 12 "K". */
  type RankIndex = r: nat | r < 13

  /** A card: suit and rank never change; `faceUp` says whether it has been turned over. */
  datatype Card = Card(suit: SuitIndex, rank: RankIndex, faceUp: bool)

  /** What makes a card the card it is, whichever way up it lies. */
  datatype Identity = Identity(suit: SuitIndex, rank: RankIndex)

  function Id(c: Card): Identity {
    Identity(c.suit, c.rank)
  }

  /** The identities of a sequence of cards, position by position. */
  function Ids(cards: seq<Card>): seq<Identity> {
    seq(|cards|, i requires 0 <= i < |cards| => Id(cards[i]))
  }

  lemma IdsAppend(a: seq<Card>, b: seq<Card>)
    ensures Ids(a + b) == Ids(a) + Ids(b)
  {
    assert forall i :: 0 <= i < |a + b| ==> Ids(a + b)[i] == (Ids(a) + Ids(b))[i];
  }

  /** Taking card k out of a sequence takes its identity out of the identities. */
  lemma IdsRemove(b: seq<Card>, k: nat)
    requires k < |b|
    ensures multiset(Ids(b)) == multiset(Ids(b[..k] + b[k + 1..])) + multiset{Id(b[k])}
  {
    assert b == b[..k] + [b[k]] + b[k + 1..];
    IdsAppend(b[..k] + [b[k]], b[k + 1..]);
    IdsAppend(b[..k], [b[k]]);
    IdsAppend(b[..k], b[k + 1..]);
  }

  /** Taking the element at k out of a sequence takes one occurrence out of its multiset. */
  lemma RemoveAt<T>(b: seq<T>, k: nat)
    requires k < |b|
    ensures multiset(b) == multiset(b[..k] + b[k + 1..]) + multiset{b[k]}
  {
    assert b == b[..k] + [b[k]] + b[k + 1..];
  }

  lemma CancelOne<T>(m: multiset<T>, n: multiset<T>, x: T)
    requires m + multiset{x} == n + multiset{x}
    ensures m == n
  {
    forall y ensures m[y] == n[y] {
      assert (m + multiset{x})[y] == (n + multiset{x})[y];
    }
  }

  lemma IdsRemoveFirst(a: seq<Card>)
    requires a != []
    ensures multiset(Ids(a)) == multiset(Ids(a[1..])) + multiset{Id(a[0])}
  {
    assert a == [a[0]] + a[1..];
    IdsAppend([a[0]], a[1..]);
  }

  /** Two arrangements of the same cards have the same identities, counted with multiplicity. */
  lemma {:induction false} IdsPermutation(a: seq<Card>, b: seq<Card>)
    requires multiset(a) == multiset(b)
    ensures multiset(Ids(a)) == multiset(Ids(b))
    decreases |a|
  {
    if a == [] {
      assert |b| == |multiset(b)| == 0;
    } else {
      var x := a[0];
      assert x in multiset(b);
      var k :| 0 <= k < |b| && b[k] == x;
      var rest := b[..k] + b[k + 1..];
      RemoveAt(a, 0);
      RemoveAt(b, k);
      assert a[..0] + a[1..] == a[1..];
      CancelOne(multiset(a[1..]), multiset(rest), x);
      IdsPermutation(a[1..], rest);
      IdsRemove(b, k);
      IdsRemoveFirst(a);
    }
  }

  /** The deck `createDeck` appends: suit-major, rank-minor, all face down. */
  function FullDeck(): (d: seq<Card>)
    ensures |d| == 52
  {
    seq(52, i requires 0 <= i < 52 => Card(i / 13, i % 13, false))
  }

  /** Card `r` of suit `s` sits at position 13 * s + r of the full deck. */
  lemma DeckPosition(s: SuitIndex, r: RankIndex)
    ensures (13 * s + r) / 13 == s && (13 * s + r) % 13 == r
    ensures FullDeck()[13 * s + r] == Card(s, r, false)
  {
  }

  /** Suit-major, rank-minor order on card identities. */
  predicate Precedes(a: Identity, b: Identity) {
    a.suit < b.suit || (a.suit == b.suit && a.rank < b.rank)
  }

  /** The full deck lies face down, in strictly increasing suit-major, rank-minor order, and
      holds every (suit, rank) pair; so no pair appears twice. */
  lemma FullDeckOrder()
    ensures forall c :: c in FullDeck() ==> !c.faceUp
    ensures forall i, j :: 0 <= i < j < 52 ==> Precedes(Id(FullDeck()[i]), Id(FullDeck()[j]))
    ensures forall s: SuitIndex, r: RankIndex :: Card(s, r, false) in FullDeck()
    ensures forall i, j :: 0 <= i < j < 52 ==> Id(FullDeck()[i]) != Id(FullDeck()[j])
  {
    forall s: SuitIndex, r: RankIndex ensures Card(s, r, false) in FullDeck() {
      DeckPosition(s, r);
    }
    forall i, j | 0 <= i < j < 52 ensures Precedes(Id(FullDeck()[i]), Id(FullDeck()[j])) {
      assert i == 13 * (i / 13) + i % 13 && j == 13 * (j / 13) + j % 13;
    }
  }

  /** A sequence in which no value repeats holds each of its values once. */
  lemma {:induction false} CountDistinct(xs: seq<Identity>, x: Identity)
    requires forall i, j :: 0 <= i < j < |xs| ==> xs[i] != xs[j]
    ensures multiset(xs)[x] == if x in xs then 1 else 0
  {
    if xs != [] {
      var rest := xs[1..];
      CountDistinct(rest, x);
      assert xs == [xs[0]] + rest;
      assert forall k :: 0 <= k < |rest| ==> rest[k] == xs[k + 1];
    }
  }

  /** The full deck holds each of the 52 (suit, rank) pairs exactly once. */
  lemma FullDeckIdentities()
    ensures |Ids(FullDeck())| == 52
    ensures forall s: SuitIndex, r: RankIndex :: multiset(Ids(FullDeck()))[Identity(s, r)] == 1
  {
    var ids := Ids(FullDeck());
    FullDeckOrder();
    forall s: SuitIndex, r: RankIndex ensures multiset(ids)[Identity(s, r)] == 1 {
      CountDistinct(ids, Identity(s, r));
      DeckPosition(s, r);
      assert ids[13 * s + r] == Identity(s, r);
    }
  }
}
