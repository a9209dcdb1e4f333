/** The game object: thirteen piles, the undo records and the move history as fields that the
    commands change in place, one card at a time, as the stacks of the game are pushed and
    popped. Each method is proved to do what the matching function of `Engine` says. */
module Game {
  import opened Ints
  import opened Cards
  import opened Decks
  import opened Layouts
  import opened Labels
  import opened Engine

  class SolitaireGame {
    const deck: Deck
    /** `columns[i]` is the column labelled "c<i + 1>". */
    const columns: array<Pile>
    /** `foundations[f]` is the foundation labelled "f<f + 1>". */
    const foundations: array<Pile>
    var waste: Pile
    var stock: Pile
    var moveHistory: seq<string>
    /** The undo records, the most recent last. */
    var undoStack: seq<Move>

    /** The pile arrays have the sizes the game declares. */
    predicate Shaped()
      reads this
    {
      columns.Length == 7 && foundations.Length == 4 && columns != foundations
    }

    /** The thirteen piles, in the order of `Layouts.Layout`. */
    function Piles(): (l: Layout)
      requires Shaped()
      reads this, columns, foundations
    {
      var l: seq<Pile> := columns[..] + foundations[..] + [waste, stock];
      assert |l| == 13;
      l
    }

    /** The whole state of the game as a value. */
    function Snapshot(): Engine.State
      requires Shaped()
      reads this, columns, foundations
    {
      Engine.State(Piles(), undoStack, moveHistory)
    }

    /** The pile that a pointer returned by `getStack` points to. */
    function PileOf(id: PileId): (p: Pile)
      requires Shaped()
      reads this, columns, foundations
      ensures p == Get(Piles(), id)
    {
      match id
      case Waste => waste
      case Stock => stock
      case Foundation(f) => foundations[f]
      case Column(c) => columns[c]
    }

    /** Between commands: the arrays have their sizes, the table holds every card once, and
        every undo record has its history entry (`Engine.Sound`). */
    ghost predicate Valid()
      reads this, columns, foundations
    {
      Shaped() && Sound(Snapshot())
    }

    /** Builds the deck, shuffles it with the given `rand()` values and deals it. */
    constructor (rolls: seq<nat>)
      requires |rolls| == 52
      ensures Valid()
      ensures Snapshot() == NewGame(rolls)
    {
      deck := new Deck();
      columns := new Pile[7](_ => []);
      foundations := new Pile[4](_ => []);
      waste, stock := [], [];
      moveHistory, undoStack := [], [];
      new;
      deck.CreateDeck();
      assert deck.cards == FullDeck();
      deck.ShuffleDeck(rolls);
      Extensionality(Piles(), EmptyLayout());
      DealToColumns();
      NewGameInvariant(rolls);
    }

    /** Deals column i its i + 1 cards from the head of the deck, in order, turning the last of
        them face up: one pass of the outer loop of `dealToColumns`. The deck must hold them:
        the program uses the dealt pointer without testing it for null. */
    method DealColumn(i: ColumnIndex)
      requires Shaped() && |deck.cards| > i
      modifies columns, deck
      ensures columns[i] == old(columns[i]) + TopTurned(old(deck.cards)[..i + 1])
      ensures forall k :: 0 <= k < 7 && k != i ==> columns[k] == old(columns[k])
      ensures deck.cards == old(deck.cards)[i + 1..]
    {
      ghost var d := old(deck.cards);
      ghost var dealt := TopTurned(d[..i + 1]);
      for j := 0 to i + 1
        invariant deck.cards == d[j..]
        invariant columns[i] == old(columns[i]) + dealt[..j]
        invariant forall k :: 0 <= k < 7 && k != i ==> columns[k] == old(columns[k])
      {
        var next := deck.DealCard();
        var card := next.value;
        if j == i {
          card := card.(faceUp := true);
        }
        assert dealt[..j + 1] == dealt[..j] + [card];
        columns[i] := columns[i] + [card];
      }
      assert dealt[..i + 1] == dealt;
    }

    /** `dealToColumns`: column i receives i + 1 cards from the head of the deck with the last
        of them face up, and the rest of the deck goes onto the stock in deck order. The deck
        must hold the 28 cards the columns take. */
    method DealToColumns()
      requires Shaped() && |deck.cards| >= 28
      modifies this, columns, deck
      ensures Shaped()
      ensures Piles() == Dealt(old(Piles()), old(deck.cards))
      ensures deck.cards == []
      ensures undoStack == old(undoStack) && moveHistory == old(moveHistory)
    {
      ghost var d := deck.cards;
      ghost var before := Piles();
      DealAllColumns();
      DealToStock();
      forall k | 0 <= k < 13 ensures Piles()[k] == Dealt(before, d)[k] {
        assert Index(Stock) == 12;
      }
    }

    /** The first loop of `dealToColumns`: column i, for i from 0 to 6, receives its i + 1
        cards. */
    method DealAllColumns()
      requires Shaped() && |deck.cards| >= 28
      modifies columns, deck
      ensures forall k :: 0 <= k < 7 ==> columns[k] == old(columns[k]) + DealtColumn(old(deck.cards), k)
      ensures deck.cards == old(deck.cards)[28..]
    {
      ghost var d := deck.cards;
      for i := 0 to 7
        invariant deck.cards == d[Start(i)..]
        invariant forall k :: 0 <= k < i ==> columns[k] == old(columns[k]) + DealtColumn(d, k)
        invariant forall k :: i <= k < 7 ==> columns[k] == old(columns[k])
      {
        StartStep(i);
        ghost var a, b := Start(i), Start(i + 1);
        assert d[a..][..i + 1] == d[a..b];
        assert d[a..][i + 1..] == d[b..];
        assert TopTurned(d[a..b]) == DealtColumn(d, i);
        DealColumn(i);
      }
    }

    /** The second loop of `dealToColumns`: the cards left in the deck are pushed onto the
        stock in the order they are dealt. */
    method DealToStock()
      modifies this, deck
      ensures stock == old(stock) + old(deck.cards) && deck.cards == []
      ensures waste == old(waste)
      ensures undoStack == old(undoStack) && moveHistory == old(moveHistory)
    {
      ghost var d := deck.cards;
      var dealt := deck.DealCard();
      while dealt.Some?
        invariant stock + (if dealt.Some? then [dealt.value] else []) + deck.cards == old(stock) + d
        invariant dealt.None? ==> deck.cards == []
        invariant waste == old(waste)
        invariant undoStack == old(undoStack) && moveHistory == old(moveHistory)
        decreases |deck.cards| + (if dealt.Some? then 1 else 0)
      {
        stock := stock + [dealt.value];
        dealt := deck.DealCard();
      }
    }

    /** Replaces one pile: the pile that a `getStack` pointer designates, written through. */
    method SetPile(id: PileId, p: Pile)
      requires Shaped()
      modifies this, columns, foundations
      ensures Shaped()
      ensures Piles() == Set(old(Piles()), id, p)
      ensures undoStack == old(undoStack) && moveHistory == old(moveHistory)
    {
      match id {
        case Waste => waste := p;
        case Stock => stock := p;
        case Foundation(f) => foundations[f] := p;
        case Column(c) => columns[c] := p;
      }
      SetShape(old(Piles()), id, p);
      Extensionality(Piles(), Set(old(Piles()), id, p));
    }

    /** `push` on one of the piles. */
    method Push(id: PileId, c: Card)
      requires Shaped()
      modifies this, columns, foundations
      ensures Shaped()
      ensures Piles() == Set(old(Piles()), id, old(PileOf(id)) + [c])
      ensures undoStack == old(undoStack) && moveHistory == old(moveHistory)
    {
      SetPile(id, PileOf(id) + [c]);
    }

    /** `top` followed by `pop` on a pile that is not empty. */
    method Pop(id: PileId) returns (top: Card)
      requires Shaped() && PileOf(id) != []
      modifies this, columns, foundations
      ensures Shaped()
      ensures var p := old(PileOf(id)); top == p[|p| - 1] && Piles() == Set(old(Piles()), id, p[..|p| - 1])
      ensures undoStack == old(undoStack) && moveHistory == old(moveHistory)
    {
      var p := PileOf(id);
      top := p[|p| - 1];
      SetPile(id, p[..|p| - 1]);
    }

    /** The first loop of a transfer: moves the top n cards of `src`, one at a time, onto a
        temporary stack, where they end up in reverse order. */
    method PopBlock(src: PileId, n: nat) returns (temp: Pile)
      requires Shaped() && n <= |PileOf(src)|
      modifies this, columns, foundations
      ensures Shaped()
      ensures var s := old(PileOf(src));
        Piles() == Set(old(Piles()), src, s[..|s| - n]) && temp == Reversed(s[|s| - n..])
      ensures undoStack == old(undoStack) && moveHistory == old(moveHistory)
    {
      ghost var l := Piles();
      ghost var s := PileOf(src);
      temp := [];
      assert s[..|s|] == s;
      SetUnchanged(l, src);
      for i := 0 to n
        invariant Shaped()
        invariant Piles() == Set(l, src, s[..|s| - i])
        invariant |temp| == i && forall t :: 0 <= t < i ==> temp[t] == s[|s| - 1 - t]
        invariant undoStack == old(undoStack) && moveHistory == old(moveHistory)
      {
        ghost var left := s[..|s| - i];
        var top := Pop(src);
        temp := temp + [top];
        assert left[..|left| - 1] == s[..|s| - (i + 1)];
        SetTwice(l, src, left, s[..|s| - (i + 1)]);
      }
      assert temp == Reversed(s[|s| - n..]);
    }

    /** The second loop of a transfer: pops the temporary stack onto `dst`, which puts the
        cards back in their original order. */
    method PushBlock(dst: PileId, temp: Pile)
      requires Shaped()
      modifies this, columns, foundations
      ensures Shaped()
      ensures Piles() == Set(old(Piles()), dst, old(PileOf(dst)) + Reversed(temp))
      ensures undoStack == old(undoStack) && moveHistory == old(moveHistory)
    {
      ghost var l := Piles();
      ghost var below := PileOf(dst);
      ghost var block := Reversed(temp);
      ghost var n := |temp|;
      var rest := temp;
      assert below + block[..0] == below;
      SetUnchanged(l, dst);
      while rest != []
        invariant Shaped()
        invariant |rest| <= n && rest == temp[..|rest|]
        invariant Piles() == Set(l, dst, below + block[..n - |rest|])
        invariant undoStack == old(undoStack) && moveHistory == old(moveHistory)
        decreases |rest|
      {
        ghost var done := n - |rest|;
        var top := rest[|rest| - 1];
        assert top == block[done];
        Push(dst, top);
        assert below + block[..done] + [top] == below + block[..done + 1];
        SetTwice(l, dst, below + block[..done], below + block[..done + 1]);
        rest := rest[..|rest| - 1];
      }
      assert block[..n] == block;
    }

    /** Moves the top n cards of `src` onto `dst` through a temporary stack, as `moveCard` and
        `undoLastMove` both do: popping them onto the temporary stack reverses them, and popping
        that stack onto the destination reverses them back. */
    method TransferBlock(src: PileId, dst: PileId, n: nat)
      requires Shaped() && n <= |PileOf(src)|
      modifies this, columns, foundations
      ensures Shaped()
      ensures Piles() == Transfer(old(Piles()), src, dst, n)
      ensures undoStack == old(undoStack) && moveHistory == old(moveHistory)
    {
      ghost var s := PileOf(src);
      var temp := PopBlock(src, n);
      PushBlock(dst, temp);
      ReversedTwice(s[|s| - n..]);
    }

    /** `drawCardFromStock`. */
    method DrawCardFromStock() returns (outcome: Outcome)
      requires Valid()
      modifies this, columns, foundations
      ensures Valid()
      ensures Reply(outcome, Snapshot()) == DrawCard(old(Snapshot()))
    {
      ghost var st := Snapshot();
      if stock != [] {
        var card := stock[|stock| - 1];
        SetPile(Stock, stock[..|stock| - 1]);
        SetPile(Waste, waste + [card]);
        moveHistory := moveHistory + ["draw"];
        undoStack := undoStack + [Move("stock", "waste", 1)];
        outcome := Ok;
      } else {
        outcome := StockEmpty;
      }
      StepKeepsSound(st, Draw);
    }

    /** `moveCard`. Both labels are resolved before anything is tested; the size test is the
        program's `srcStack->size() < num`, with `num` converted to `size_t`. */
    method MoveCard(source: string, destination: string, num: int32) returns (outcome: Outcome)
      requires Valid()
      modifies this, columns, foundations
      ensures Valid()
      ensures Reply(outcome, Snapshot()) == Engine.MoveCard(old(Snapshot()), source, destination, num)
    {
      ghost var st := Snapshot();
      StepKeepsSound(st, MoveCards(source, destination, num));
      var from := GetStack(source);
      var to := GetStack(destination);
      if from.Thrown? || to.Thrown? {
        return LabelError;
      }
      if from.Missing? || to.Missing? {
        return InvalidMove;
      }
      SoundBoundsPiles(st, from.id);
      SizeComparison(|PileOf(from.id)|, num);
      if |PileOf(from.id)| < AsSizeT(num) {
        return InvalidMove;
      }
      TransferBlock(from.id, to.id, num as nat);
      undoStack := undoStack + [Move(source, destination, num)];
      moveHistory := moveHistory + ["move " + source + " to " + destination];
      outcome := Ok;
    }

    /** `undoLastMove`: the record is popped before its labels are resolved again, so a record
        whose transfer cannot be reversed is lost all the same. */
    method UndoLastMove() returns (outcome: Outcome)
      requires Valid()
      modifies this, columns, foundations
      ensures Valid()
      ensures Reply(outcome, Snapshot()) == Engine.UndoLastMove(old(Snapshot()))
    {
      ghost var st := Snapshot();
      StepKeepsSound(st, Undo);
      if undoStack == [] {
        return NothingToUndo;
      }
      var last := undoStack[|undoStack| - 1];
      undoStack := undoStack[..|undoStack| - 1];
      outcome := ReverseLastMove(last);
    }

    /** The rest of `undoLastMove` once the record `last` is popped, with the size test on
        `size_t` as the program writes it. */
    method ReverseLastMove(last: Move) returns (outcome: Outcome)
      requires Shaped() && FullTable(Piles()) && |undoStack| < |moveHistory|
      modifies this, columns, foundations
      ensures Shaped()
      ensures Reply(outcome, Snapshot()) == ReverseMove(old(Snapshot()), last)
    {
      ghost var st := Snapshot();
      var from := GetStack(last.destination);
      var to := GetStack(last.source);
      if from.Thrown? || to.Thrown? {
        return LabelError;
      }
      if from.Missing? || to.Missing? {
        return UndoFailed;
      }
      SoundBoundsPiles(st, from.id);
      SizeComparison(|PileOf(from.id)|, last.num);
      if |PileOf(from.id)| < AsSizeT(last.num) {
        return UndoFailed;
      }
      TransferBlock(from.id, to.id, last.num as nat);
      moveHistory := moveHistory[..|moveHistory| - 1];
      outcome := Ok;
    }

    /** The dispatch of `handleCommand`: "s", "m <source> <destination> <num>" and "z". */
    method HandleCommand(c: Command) returns (outcome: Outcome)
      requires Valid()
      modifies this, columns, foundations
      ensures Valid()
      ensures Reply(outcome, Snapshot()) == Step(old(Snapshot()), c)
    {
      match c
      case Draw => outcome := DrawCardFromStock();
      case MoveCards(source, destination, num) => outcome := MoveCard(source, destination, num);
      case Undo => outcome := UndoLastMove();
      case Other => outcome := UnknownCommand;
    }
  }
}
