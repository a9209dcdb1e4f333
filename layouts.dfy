/** The thirteen piles of a game: seven columns, four foundations, the waste and the stock.
    Each pile is a stack whose top is its last element. */
module Layouts {
  import opened Cards

  type ColumnIndex = i: nat | i < 7
  type FoundationIndex = i: nat | i < 4

  /** Which pile a pointer returned by `getStack` designates. */
  datatype PileId = Waste | Stock | Foundation(f: FoundationIndex) | Column(c: ColumnIndex)

  /** A stack of cards, bottom first: the top card is the last element. */
  type Pile = seq<Card>

  /** The thirteen piles in the order the game declares them: columns 1 to 7 at positions 0 to
      6, foundations 1 to 4 at 7 to 10, then the waste at 11 and the stock at 12. */
  type Layout = s: seq<Pile> | |s| == 13
    witness [[], [], [], [], [], [], [], [], [], [], [], [], []]

  /** Thirteen empty piles: a new game before anything is dealt. */
  function EmptyLayout(): (l: Layout)
    ensures forall k :: 0 <= k < 13 ==> l[k] == []
  {
    seq(13, _ => [])
  }

  /** The position of a pile in the layout. */
  function Index(id: PileId): (k: nat)
    ensures k < 13
  {
    match id
    case Column(c) => c
    case Foundation(f) => 7 + f
    case Waste => 11
    case Stock => 12
  }

  /** Distinct piles sit at distinct positions. */
  lemma IndexInjective()
    ensures forall a, b :: Index(a) == Index(b) ==> a == b
  {
  }

  /** The pile at a position of the layout. */
  function PileAt(k: nat): (id: PileId)
    requires k < 13
    ensures Index(id) == k
  {
    if k < 7 then Column(k) else if k < 11 then Foundation(k - 7) else if k == 11 then Waste else Stock
  }

  function Get(l: Layout, id: PileId): Pile {
    l[Index(id)]
  }

  /** The layout with pile `id` replaced by `p`. */
  function Set(l: Layout, id: PileId, p: Pile): Layout {
    l[Index(id) := p]
  }

  /** Replacing a pile changes that pile and no other. */
  lemma SetShape(l: Layout, id: PileId, p: Pile)
    ensures Get(Set(l, id, p), id) == p
    ensures forall o :: o != id ==> Get(Set(l, id, p), o) == Get(l, o)
  {
    IndexInjective();
  }

  /** Putting a pile back where it was changes nothing. */
  lemma SetUnchanged(l: Layout, id: PileId)
    ensures Set(l, id, Get(l, id)) == l
  {
  }

  /** Of two replacements of the same pile, the later one wins. */
  lemma SetTwice(l: Layout, id: PileId, p: Pile, q: Pile)
    ensures Set(Set(l, id, p), id, q) == Set(l, id, q)
  {
  }

  /** A layout is determined by its thirteen piles. */
  lemma Extensionality(a: Layout, b: Layout)
    requires forall id :: Get(a, id) == Get(b, id)
    ensures a == b
  {
    forall k | 0 <= k < 13 ensures a[k] == b[k] {
      assert Get(a, PileAt(k)) == Get(b, PileAt(k));
    }
  }

  /** The cards of a list of piles, pile after pile. */
  function Flatten(ps: seq<Pile>): seq<Card> {
    if ps == [] then [] else ps[0] + Flatten(ps[1..])
  }

  /** Every card on the table, pile after pile. */
  function AllCards(l: Layout): seq<Card> {
    Flatten(l)
  }

  lemma {:induction false} FlattenUpdate(ps: seq<Pile>, i: nat, p: Pile)
    requires i < |ps|
    ensures multiset(Flatten(ps[i := p])) + multiset(ps[i]) == multiset(Flatten(ps)) + multiset(p)
  {
    var q := ps[i := p];
    if i == 0 {
      assert q[1..] == ps[1..];
    } else {
      assert q[0] == ps[0] && q[1..] == ps[1..][i - 1 := p];
      FlattenUpdate(ps[1..], i - 1, p);
      calc {
        multiset(Flatten(q)) + multiset(ps[i]);
        multiset(ps[0]) + (multiset(Flatten(ps[1..][i - 1 := p])) + multiset(ps[1..][i - 1]));
        multiset(ps[0]) + (multiset(Flatten(ps[1..])) + multiset(p));
        multiset(Flatten(ps)) + multiset(p);
      }
    }
  }

  /** Replacing one pile takes its old cards off the table and puts the new ones on. */
  lemma SetConserves(l: Layout, id: PileId, p: Pile)
    ensures multiset(AllCards(Set(l, id, p))) + multiset(Get(l, id))
         == multiset(AllCards(l)) + multiset(p)
  {
    FlattenUpdate(l, Index(id), p);
  }

  /** No pile holds more cards than the whole table. */
  lemma PileWithinTable(l: Layout, id: PileId)
    ensures |Get(l, id)| <= |AllCards(l)|
  {
    SetConserves(l, id, []);
    var rest := multiset(AllCards(Set(l, id, [])));
    assert |rest + multiset(Get(l, id))| == |multiset(AllCards(l))|;
  }

  /** The cards of a pile in the order a stack gives them up: top first. */
  function Reversed(p: Pile): (r: Pile)
    ensures |r| == |p|
  {
    seq(|p|, i requires 0 <= i < |p| => p[|p| - 1 - i])
  }

  /** Popping a whole stack onto another and then back restores the order. */
  lemma ReversedTwice(p: Pile)
    ensures Reversed(Reversed(p)) == p
  {
  }

  /** Moves the top n cards of `src` onto `dst` as one block, keeping their order: pop them
      into a temporary stack, then pop that stack onto `dst`. */
  function Transfer(l: Layout, src: PileId, dst: PileId, n: nat): Layout
    requires n <= |Get(l, src)|
  {
    var s := Get(l, src);
    var lifted := Set(l, src, s[..|s| - n]);
    Set(lifted, dst, Get(lifted, dst) + s[|s| - n..])
  }

  /** What a transfer leaves: the source without its top n cards, the destination with those
      cards on top in their order, a pile moved onto itself unchanged, every other pile alone. */
  lemma TransferShape(l: Layout, src: PileId, dst: PileId, n: nat)
    requires n <= |Get(l, src)|
    ensures var r := Transfer(l, src, dst, n);
      && (src != dst ==> Get(r, src) == Get(l, src)[..|Get(l, src)| - n])
      && (src != dst ==> Get(r, dst) == Get(l, dst) + Get(l, src)[|Get(l, src)| - n..])
      && (src == dst ==> Get(r, src) == Get(l, src))
      && (forall o :: o != src && o != dst ==> Get(r, o) == Get(l, o))
  {
    var s := Get(l, src);
    var k := |s| - n;
    var lifted := Set(l, src, s[..k]);
    SetShape(l, src, s[..k]);
    SetShape(lifted, dst, Get(lifted, dst) + s[k..]);
    assert s[..k] + s[k..] == s;
  }

  /** Moving a block from a pile onto itself changes nothing. */
  lemma TransferOntoItself(l: Layout, p: PileId, n: nat)
    requires n <= |Get(l, p)|
    ensures Transfer(l, p, p, n) == l
  {
    TransferShape(l, p, p, n);
    Extensionality(Transfer(l, p, p, n), l);
  }

  /** The block arrives on top of the destination in the order it had on the source. */
  lemma BlockKeepsOrder(l: Layout, src: PileId, dst: PileId, n: nat)
    requires n <= |Get(l, src)|
    ensures var moved := Get(Transfer(l, src, dst, n), dst);
      n <= |moved| && moved[|moved| - n..] == Get(l, src)[|Get(l, src)| - n..]
  {
    TransferShape(l, src, dst, n);
  }

  /** A transfer neither creates nor destroys cards. */
  lemma TransferConserves(l: Layout, src: PileId, dst: PileId, n: nat)
    requires n <= |Get(l, src)|
    ensures multiset(AllCards(Transfer(l, src, dst, n))) == multiset(AllCards(l))
  {
    var s := Get(l, src);
    var k := |s| - n;
    var lifted := Set(l, src, s[..k]);
    var below := Get(lifted, dst);
    var r := Transfer(l, src, dst, n);
    SetConserves(l, src, s[..k]);
    SetConserves(lifted, dst, below + s[k..]);
    assert s == s[..k] + s[k..];
    forall x ensures multiset(AllCards(r))[x] == multiset(AllCards(l))[x] {
      assert (multiset(AllCards(r)) + multiset(below))[x]
          == (multiset(AllCards(lifted)) + multiset(below + s[k..]))[x];
      assert (multiset(AllCards(lifted)) + multiset(s))[x]
          == (multiset(AllCards(l)) + multiset(s[..k]))[x];
      assert multiset(below + s[k..])[x] == multiset(below)[x] + multiset(s[k..])[x];
      assert multiset(s)[x] == multiset(s[..k])[x] + multiset(s[k..])[x];
    }
  }

  /** Moving the same number of cards back from the destination to the source restores the
      layout exactly. */
  lemma TransferUndone(l: Layout, src: PileId, dst: PileId, n: nat)
    requires n <= |Get(l, src)|
    ensures n <= |Get(Transfer(l, src, dst, n), dst)|
    ensures Transfer(Transfer(l, src, dst, n), dst, src, n) == l
  {
    if src == dst {
      TransferOntoItself(l, src, n);
    } else {
      TransferUndoneApart(l, src, dst, n);
    }
  }

  lemma TransferUndoneApart(l: Layout, src: PileId, dst: PileId, n: nat)
    requires src != dst && n <= |Get(l, src)|
    ensures n <= |Get(Transfer(l, src, dst, n), dst)|
    ensures Transfer(Transfer(l, src, dst, n), dst, src, n) == l
  {
    var s, d := Get(l, src), Get(l, dst);
    var k := |s| - n;
    var there := Transfer(l, src, dst, n);
    TransferShape(l, src, dst, n);
    assert Get(there, src) == s[..k];
    assert Get(there, dst) == d + s[k..];
    var back := Transfer(there, dst, src, n);
    TransferShape(there, dst, src, n);
    assert (d + s[k..])[..|d|] == d;
    assert (d + s[k..])[|d|..] == s[k..];
    assert Get(back, dst) == d;
    assert Get(back, src) == s[..k] + s[k..] == s;
    Extensionality(back, l);
  }


  /** Where column i's cards start in the dealt deck: column i takes i + 1 cards, so column i
      starts after 1 + 2 + ... + i of them and the columns use 28 in all. */
  function Start(i: nat): (r: nat)
    requires i <= 7
    ensures r <= 28
  {
    [0, 1, 3, 6, 10, 15, 21, 28][i]
  }

  lemma StartStep(i: ColumnIndex)
    ensures Start(i + 1) == Start(i) + i + 1
  {
  }

  /** A run of dealt cards with its last card turned face up. */
  function TopTurned(p: Pile): Pile
    requires p != []
  {
    p[..|p| - 1] + [p[|p| - 1].(faceUp := true)]
  }

  /** Column i after the deal: its i + 1 cards from the deck, with the last one turned face up. */
  function DealtColumn(d: seq<Card>, i: ColumnIndex): Pile
    requires |d| >= 28
  {
    StartStep(i);
    TopTurned(d[Start(i)..Start(i + 1)])
  }

  /** The layout `dealToColumns` leaves: each column receives its cards on top of what it held,
      and the rest of the deck goes onto the stock in deck order. */
  function Dealt(l: Layout, d: seq<Card>): Layout
    requires |d| >= 28
  {
    seq(13, k requires 0 <= k < 13 =>
      if k < 7 then l[k] + DealtColumn(d, k)
      else if k == Index(Stock) then l[k] + d[28..]
      else l[k])
  }

  /** The columns of a fresh deal: column i holds i + 1 cards of the deck, in deck order, with
      only its top card turned face up. */
  lemma DealColumns(d: seq<Card>)
    requires |d| >= 28
    ensures forall i: ColumnIndex :: Start(i) + i < 28
    ensures forall i: ColumnIndex :: |Get(Dealt(EmptyLayout(), d), Column(i))| == i + 1
    ensures forall i: ColumnIndex, j :: 0 <= j <= i ==>
      Get(Dealt(EmptyLayout(), d), Column(i))[j] == d[Start(i) + j].(faceUp := j == i || d[Start(i) + j].faceUp)
  {
    forall i: ColumnIndex
      ensures Start(i) + i < 28
      ensures |Get(Dealt(EmptyLayout(), d), Column(i))| == i + 1
      ensures forall j :: 0 <= j <= i ==>
        Get(Dealt(EmptyLayout(), d), Column(i))[j] == d[Start(i) + j].(faceUp := j == i || d[Start(i) + j].faceUp)
    {
      DealtColumnAt(d, i);
    }
  }

  lemma DealtColumnAt(d: seq<Card>, i: ColumnIndex)
    requires |d| >= 28
    ensures Start(i) + i < 28
    ensures |Get(Dealt(EmptyLayout(), d), Column(i))| == i + 1
    ensures forall j :: 0 <= j <= i ==>
      Get(Dealt(EmptyLayout(), d), Column(i))[j] == d[Start(i) + j].(faceUp := j == i || d[Start(i) + j].faceUp)
  {
    DealtAt(d, i);
    assert Get(Dealt(EmptyLayout(), d), Column(i)) == DealtColumn(d, i);
    DealtColumnShape(d, i);
  }


  /** The rest of a fresh deal: the stock holds the other cards in deck order, so the deck's last
      card is on top, and the waste and the foundations are empty. */
  lemma DealRest(d: seq<Card>)
    requires |d| >= 28
    ensures Get(Dealt(EmptyLayout(), d), Stock) == d[28..]
    ensures Get(Dealt(EmptyLayout(), d), Waste) == []
    ensures forall f: FoundationIndex :: Get(Dealt(EmptyLayout(), d), Foundation(f)) == []
  {
    forall f: FoundationIndex ensures Get(Dealt(EmptyLayout(), d), Foundation(f)) == [] {
      DealtAt(d, 7 + f);
    }
    DealtAt(d, 11);
    DealtAt(d, 12);
  }

  /** The deal only moves cards and turns some over: the table holds the deck's cards. */
  lemma DealKeepsCards(d: seq<Card>)
    requires |d| >= 28
    ensures Ids(AllCards(Dealt(EmptyLayout(), d))) == Ids(d)
  {
    DealtIds(d, 0);
    assert Dealt(EmptyLayout(), d)[0..] == Dealt(EmptyLayout(), d);
  }

  lemma DealtColumnShape(d: seq<Card>, i: ColumnIndex)
    requires |d| >= 28
    ensures Start(i) + i < 28
    ensures |DealtColumn(d, i)| == i + 1
    ensures forall j :: 0 <= j <= i ==>
      DealtColumn(d, i)[j] == d[Start(i) + j].(faceUp := j == i || d[Start(i) + j].faceUp)
  {
    StartStep(i);
  }

  /** Turning a card over does not change which card it is. */
  lemma DealtColumnIds(d: seq<Card>, i: ColumnIndex)
    requires |d| >= 28
    ensures Start(i + 1) <= 28
    ensures Ids(DealtColumn(d, i)) == Ids(d[Start(i)..Start(i + 1)])
  {
    StartStep(i);
    var a, b := Start(i), Start(i + 1);
    var c := DealtColumn(d, i);
    assert |c| == b - a;
    forall j | 0 <= j < b - a ensures Id(c[j]) == Id(d[a..b][j]) {
    }
  }

  lemma DealtAt(d: seq<Card>, k: nat)
    requires |d| >= 28 && k < 13
    ensures Dealt(EmptyLayout(), d)[k] == if k < 7 then DealtColumn(d, k) else if k == 12 then d[28..] else []
  {
    assert Index(Stock) == 12 && EmptyLayout()[k] == [];
  }

  /** Past the columns, a fresh deal holds only the stock. */
  lemma {:induction false} DealtTail(d: seq<Card>, k: nat)
    requires |d| >= 28 && 7 <= k <= 13
    ensures Flatten(Dealt(EmptyLayout(), d)[k..]) == if k == 13 then [] else d[28..]
    decreases 13 - k
  {
    var t := Dealt(EmptyLayout(), d);
    if k < 13 {
      DealtTail(d, k + 1);
      FlattenFrom(t, k);
      DealtAt(d, k);
    } else {
      assert t[k..] == [];
    }
  }

  lemma FlattenFrom(ps: seq<Pile>, k: nat)
    requires k < |ps|
    ensures Flatten(ps[k..]) == ps[k] + Flatten(ps[k + 1..])
  {
    assert ps[k..][0] == ps[k] && ps[k..][1..] == ps[k + 1..];
  }

  lemma {:induction false} DealtIds(d: seq<Card>, k: nat)
    requires |d| >= 28 && k <= 7
    ensures Ids(Flatten(Dealt(EmptyLayout(), d)[k..])) == Ids(d[Start(k)..])
    decreases 7 - k
  {
    var t := Dealt(EmptyLayout(), d);
    if k == 7 {
      DealtTail(d, 7);
    } else {
      StartStep(k);
      var a, b := Start(k), Start(k + 1);
      calc {
        Ids(Flatten(t[k..]));
        { FlattenFrom(t, k); }
        Ids(t[k] + Flatten(t[k + 1..]));
        { IdsAppend(t[k], Flatten(t[k + 1..])); }
        Ids(t[k]) + Ids(Flatten(t[k + 1..]));
        { DealtAt(d, k); DealtColumnIds(d, k); DealtIds(d, k + 1); }
        Ids(d[a..b]) + Ids(d[b..]);
        { IdsAppend(d[a..b], d[b..]); assert d[a..b] + d[b..] == d[a..]; }
        Ids(d[a..]);
      }
    }
  }
}
