/** The game's state machine as values: what `moveCard`, `drawCardFromStock` and `undoLastMove`
    do to the piles, the undo records and the move history, and what each reports. */
module Engine {
  import opened Ints
  import opened Cards
  import opened Decks
  import opened Layouts
  import opened Labels

  /** An undo record: the labels as the player typed them and the number of cards. */
  datatype Move = Move(source: string, destination: string, num: int32)

  datatype State = State(layout: Layout, undoStack: seq<Move>, moveHistory: seq<string>)

  /** What an operation reports; each failure stands for one message the game prints, and
      `LabelError` for the exception `stoi` throws, which ends the program. */
  datatype Outcome =
    | Ok             // a move, draw or undo that went through
    | InvalidMove    // "Invalid move!"
    | StockEmpty     // "Stock is empty!"
    | NothingToUndo  // "No moves to undo!"
    | UndoFailed     // "Undo failed!"
    | LabelError     // std::invalid_argument or std::out_of_range out of getStack
    | UnknownCommand // "Invalid command"

  datatype Reply = Reply(outcome: Outcome, next: State)

  /** The three commands the game reads, and anything else. */
  datatype Command = Draw | MoveCards(source: string, destination: string, num: int32) | Undo | Other

  /** The bookkeeping `pop_back` on the history relies on: every undo record has its history
      entry. */
  predicate Bookkeeping(st: State) {
    |st.undoStack| <= |st.moveHistory|
  }

  /** `drawCardFromStock`: the stock's top card goes onto the waste, with its orientation. */
  function DrawCard(st: State): (r: Reply)
    requires Bookkeeping(st)
    ensures Bookkeeping(r.next)
  {
    var stock := Get(st.layout, Stock);
    if stock == [] then Reply(StockEmpty, st)
    else
      var card := stock[|stock| - 1];
      var lifted := Set(st.layout, Stock, stock[..|stock| - 1]);
      var dropped := Set(lifted, Waste, Get(lifted, Waste) + [card]);
      Reply(Ok, State(dropped, st.undoStack + [Move("stock", "waste", 1)], st.moveHistory + ["draw"]))
  }

  /** `moveCard`: both labels are resolved first, then the move is refused when either names no
      pile or the source holds fewer than `num` cards; a negative `num` is refused because it
      compares as a huge `size_t` (see `Ints.SizeComparison`). */
  function MoveCard(st: State, source: string, destination: string, num: int32): (r: Reply)
    requires Bookkeeping(st)
    ensures Bookkeeping(r.next)
  {
    var from := GetStack(source);
    var to := GetStack(destination);
    if from.Thrown? || to.Thrown? then Reply(LabelError, st)
    else if from.Missing? || to.Missing? || num < 0 || num as int > |Get(st.layout, from.id)| then
      Reply(InvalidMove, st)
    else
      Reply(Ok, State(Transfer(st.layout, from.id, to.id, num as nat),
                      st.undoStack + [Move(source, destination, num)],
                      st.moveHistory + ["move " + source + " to " + destination]))
  }

  /** `undoLastMove`: pops the top record before anything else, then reverses it. */
  function UndoLastMove(st: State): (r: Reply)
    requires Bookkeeping(st)
    ensures Bookkeeping(r.next)
    ensures st.undoStack == [] ==> r == Reply(NothingToUndo, st)
    ensures st.undoStack != [] ==> r.next.undoStack == st.undoStack[..|st.undoStack| - 1]
    ensures st.undoStack != [] && r.outcome != Ok ==>
      r.next == st.(undoStack := st.undoStack[..|st.undoStack| - 1])
    ensures st.undoStack != [] ==>
      var last := st.undoStack[|st.undoStack| - 1];
      var from, to := GetStack(last.destination), GetStack(last.source);
      && (r.outcome == Ok <==> from.Found? && to.Found? && 0 <= last.num as int <= |Get(st.layout, from.id)|)
      && (r.outcome == Ok ==>
            r.next.layout == Transfer(st.layout, from.id, to.id, last.num as nat)
            && r.next.moveHistory == st.moveHistory[..|st.moveHistory| - 1])
  {
    if st.undoStack == [] then Reply(NothingToUndo, st)
    else
      ReverseMove(st.(undoStack := st.undoStack[..|st.undoStack| - 1]), st.undoStack[|st.undoStack| - 1])
  }

  /** The rest of `undoLastMove`, once the record `last` is popped: its labels are resolved
      again and `num` cards go back from the destination to the source; only a successful undo
      drops the last history entry, and a failed one changes nothing more. */
  function ReverseMove(st: State, last: Move): (r: Reply)
    requires |st.undoStack| < |st.moveHistory|
    ensures Bookkeeping(r.next) && r.next.undoStack == st.undoStack
    ensures r.outcome != Ok ==> r.next == st
    ensures var from, to := GetStack(last.destination), GetStack(last.source);
      && (r.outcome == Ok <==> from.Found? && to.Found? && 0 <= last.num as int <= |Get(st.layout, from.id)|)
      && (r.outcome == LabelError <==> from.Thrown? || to.Thrown?)
      && (r.outcome == Ok ==>
            r.next.layout == Transfer(st.layout, from.id, to.id, last.num as nat)
            && r.next.moveHistory == st.moveHistory[..|st.moveHistory| - 1])
  {
    var from := GetStack(last.destination);
    var to := GetStack(last.source);
    if from.Thrown? || to.Thrown? then Reply(LabelError, st)
    else if from.Missing? || to.Missing? || last.num < 0 || last.num as int > |Get(st.layout, from.id)| then
      Reply(UndoFailed, st)
    else
      Reply(Ok, State(Transfer(st.layout, from.id, to.id, last.num as nat),
                      st.undoStack,
                      st.moveHistory[..|st.moveHistory| - 1]))
  }

  /** The dispatch of `handleCommand`. */
  function Step(st: State, c: Command): (r: Reply)
    requires Bookkeeping(st)
    ensures Bookkeeping(r.next)
  {
    match c
    case Draw => DrawCard(st)
    case MoveCards(source, destination, num) => MoveCard(st, source, destination, num)
    case Undo => UndoLastMove(st)
    case Other => Reply(UnknownCommand, st)
  }

  /** The state after a sequence of commands, one after the other. */
  function Run(st: State, cmds: seq<Command>): (r: State)
    requires Bookkeeping(st)
    ensures Bookkeeping(r)
  {
    if cmds == [] then st else Step(Run(st, cmds[..|cmds| - 1]), cmds[|cmds| - 1]).next
  }

  /** The state after k undo commands in a row. */
  function UndoTimes(st: State, k: nat): State
    requires Bookkeeping(st)
    decreases k
  {
    if k == 0 then st else UndoTimes(UndoLastMove(st).next, k - 1)
  }

  /** Every record on the undo stack can be undone in turn: undoing the top one succeeds and
      leaves a state with the same property. */
  ghost predicate Reversible(st: State)
    requires Bookkeeping(st)
    decreases |st.undoStack|
  {
    st.undoStack == [] ||
    (UndoLastMove(st).outcome == Ok && Reversible(UndoLastMove(st).next))
  }

  /** The table holds 52 cards and each of the 52 (suit, rank) pairs exactly once, whichever
      way up the card lies. */
  ghost predicate FullTable(l: Layout) {
    |AllCards(l)| == 52 &&
    forall s: SuitIndex, r: RankIndex :: multiset(Ids(AllCards(l)))[Identity(s, r)] == 1
  }

  /** What every command keeps, whatever the undo records say. */
  ghost predicate Sound(st: State) {
    Bookkeeping(st) && FullTable(st.layout)
  }

  /** The invariant of every state a game goes through. */
  ghost predicate Invariant(st: State) {
    Sound(st) && Reversible(st)
  }

  /** A new game: the full deck, shuffled with the given `rand()` values and dealt, no undo
      records and no history. */
  function NewGame(rolls: seq<nat>): State
    requires |rolls| == 52
  {
    State(Dealt(EmptyLayout(), Shuffled(FullDeck(), rolls)), [], [])
  }

  // ---------------------------------------------------------------------------------------
  // Lemmas

  /** A draw takes the stock's top card onto the waste and records it, and an empty stock
      changes nothing. */
  lemma DrawIsTransfer(st: State)
    requires Bookkeeping(st)
    ensures Get(st.layout, Stock) == [] ==> DrawCard(st) == Reply(StockEmpty, st)
    ensures Get(st.layout, Stock) != [] ==>
      DrawCard(st).outcome == Ok
      && DrawCard(st).next.layout == Transfer(st.layout, Stock, Waste, 1)
      && DrawCard(st).next.undoStack == st.undoStack + [Move("stock", "waste", 1)]
      && DrawCard(st).next.moveHistory == st.moveHistory + ["draw"]
  {
    var stock := Get(st.layout, Stock);
    if stock != [] {
      var lifted := Set(st.layout, Stock, stock[..|stock| - 1]);
      SetShape(st.layout, Stock, stock[..|stock| - 1]);
      SetShape(lifted, Waste, Get(lifted, Waste) + [stock[|stock| - 1]]);
      TransferShape(st.layout, Stock, Waste, 1);
      Extensionality(DrawCard(st).next.layout, Transfer(st.layout, Stock, Waste, 1));
    }
  }

  /** A refused move changes nothing: a null pile or too few cards (any negative count
      included) gives `InvalidMove`, and a label `stoi` cannot read gives `LabelError`. */
  lemma MoveRefused(st: State, source: string, destination: string, num: int32)
    requires Bookkeeping(st)
    ensures var r := MoveCard(st, source, destination, num);
      (r.outcome == LabelError <==> GetStack(source).Thrown? || GetStack(destination).Thrown?)
      && (r.outcome == InvalidMove <==>
            !GetStack(source).Thrown? && !GetStack(destination).Thrown?
            && (GetStack(source).Missing? || GetStack(destination).Missing?
                || num < 0 || num as int > |Get(st.layout, GetStack(source).id)|))
      && (r.outcome != Ok ==> r.next == st)
  {
  }

  /** A move that goes through takes the top `num` cards of the source onto the destination
      in the same order, leaves every other pile alone, keeps every card, and pushes one undo
      record and one history entry. */
  lemma MoveApplied(st: State, source: string, destination: string, num: int32)
    requires Bookkeeping(st)
    requires MoveCard(st, source, destination, num).outcome == Ok
    ensures GetStack(source).Found? && GetStack(destination).Found? && num >= 0
    ensures var src, dst := GetStack(source).id, GetStack(destination).id;
      var before, after := st.layout, MoveCard(st, source, destination, num).next.layout;
      var moved := Get(after, dst);
      num as int <= |Get(before, src)| && num as int <= |moved|
      && moved[|moved| - num as int..] == Get(before, src)[|Get(before, src)| - num as int..]
      && (src != dst ==> Get(after, src) == Get(before, src)[..|Get(before, src)| - num as int])
      && (src != dst ==> Get(after, dst) == Get(before, dst) + Get(before, src)[|Get(before, src)| - num as int..])
      && (src == dst ==> after == before)
      && (forall o :: o != src && o != dst ==> Get(after, o) == Get(before, o))
      && multiset(AllCards(after)) == multiset(AllCards(before))
      && after == Transfer(before, src, dst, num as nat)
    ensures MoveCard(st, source, destination, num).next.undoStack
      == st.undoStack + [Move(source, destination, num)]
    ensures MoveCard(st, source, destination, num).next.moveHistory
      == st.moveHistory + ["move " + source + " to " + destination]
  {
    var src, dst := GetStack(source).id, GetStack(destination).id;
    TransferShape(st.layout, src, dst, num as nat);
    BlockKeepsOrder(st.layout, src, dst, num as nat);
    TransferConserves(st.layout, src, dst, num as nat);
    if src == dst {
      TransferOntoItself(st.layout, src, num as nat);
    }
  }

  /** A move of zero cards between two real piles goes through, moves nothing and is
      recorded. */
  lemma MoveNothing(st: State, source: string, destination: string)
    requires Bookkeeping(st)
    requires GetStack(source).Found? && GetStack(destination).Found?
    ensures var r := MoveCard(st, source, destination, 0);
      r.outcome == Ok && r.next.layout == st.layout
      && r.next.undoStack == st.undoStack + [Move(source, destination, 0)]
  {
    var src, dst := GetStack(source).id, GetStack(destination).id;
    var after := Transfer(st.layout, src, dst, 0);
    TransferShape(st.layout, src, dst, 0);
    assert Get(st.layout, src)[|Get(st.layout, src)|..] == [];
    Extensionality(after, st.layout);
  }

  /** No command creates or destroys a card. */
  lemma StepConservesCards(st: State, c: Command)
    requires Bookkeeping(st)
    ensures multiset(AllCards(Step(st, c).next.layout)) == multiset(AllCards(st.layout))
  {
    match c
    case Draw =>
      DrawIsTransfer(st);
      if Get(st.layout, Stock) != [] {
        TransferConserves(st.layout, Stock, Waste, 1);
      }
    case MoveCards(source, destination, num) =>
      if MoveCard(st, source, destination, num).outcome == Ok {
        MoveApplied(st, source, destination, num);
      }
    case Undo =>
      if st.undoStack != [] {
        var last := st.undoStack[|st.undoStack| - 1];
        var from, to := GetStack(last.destination), GetStack(last.source);
        if UndoLastMove(st).outcome == Ok {
          TransferConserves(st.layout, from.id, to.id, last.num as nat);
        }
      }
    case Other =>
  }

  /** Undo right after a move or a draw that went through gives back the state before it
      exactly: both piles, the undo stack and the history. */
  lemma UndoInvertsStep(st: State, c: Command)
    requires Bookkeeping(st)
    requires c.Draw? || c.MoveCards?
    requires Step(st, c).outcome == Ok
    ensures UndoLastMove(Step(st, c).next) == Reply(Ok, st)
  {
    var next := Step(st, c).next;
    match c
    case Draw =>
      DrawIsTransfer(st);
      LabelRoundTrip(Waste);
      LabelRoundTrip(Stock);
      TransferUndone(st.layout, Stock, Waste, 1);
      assert next.moveHistory[..|next.moveHistory| - 1] == st.moveHistory;
    case MoveCards(source, destination, num) =>
      var src, dst := GetStack(source).id, GetStack(destination).id;
      MoveApplied(st, source, destination, num);
      TransferUndone(st.layout, src, dst, num as nat);
      assert next.moveHistory[..|next.moveHistory| - 1] == st.moveHistory;
  }

  /** Commands keep every record undoable: a move or draw pushes a record that undoes it, an
      undo consumes one, and a refused command changes nothing. */
  lemma StepKeepsReversible(st: State, c: Command)
    requires Bookkeeping(st) && Reversible(st)
    ensures Reversible(Step(st, c).next)
  {
    if (c.Draw? || c.MoveCards?) && Step(st, c).outcome == Ok {
      UndoInvertsStep(st, c);
    } else if c.Draw? {
      DrawIsTransfer(st);
    } else if c.MoveCards? {
      MoveRefused(st, c.source, c.destination, c.num);
    }
  }

  /** With only records that can be undone, an undo never reports "Undo failed!" and never
      throws. */
  lemma UndoNeverFails(st: State)
    requires Bookkeeping(st) && Reversible(st)
    ensures UndoLastMove(st).outcome == Ok || UndoLastMove(st).outcome == NothingToUndo
  {
  }

  /** Every command keeps the table full and the bookkeeping right. */
  lemma StepKeepsSound(st: State, c: Command)
    requires Sound(st)
    ensures Sound(Step(st, c).next)
  {
    var before, after := AllCards(st.layout), AllCards(Step(st, c).next.layout);
    StepConservesCards(st, c);
    IdsPermutation(after, before);
    assert |after| == |multiset(after)| == |multiset(before)| == |before|;
  }

  /** Every command keeps the invariant. */
  lemma StepKeepsInvariant(st: State, c: Command)
    requires Invariant(st)
    ensures Invariant(Step(st, c).next)
  {
    StepKeepsReversible(st, c);
    StepKeepsSound(st, c);
  }

  /** A new game satisfies the invariant. */
  lemma NewGameInvariant(rolls: seq<nat>)
    requires |rolls| == 52
    ensures Invariant(NewGame(rolls))
  {
    var deck := Shuffled(FullDeck(), rolls);
    var cards := AllCards(NewGame(rolls).layout);
    ShufflePermutes(FullDeck(), rolls, 52);
    DealKeepsCards(deck);
    IdsPermutation(deck, FullDeck());
    FullDeckIdentities();
    assert |cards| == |Ids(cards)| == |Ids(deck)| == 52;
  }

  /** A new game: column i holds i + 1 cards with only the top one face up, the stock holds
      the other 24 cards face down in deck order (the deck's last card on top), and the waste
      and the foundations are empty. */
  lemma NewGameLayout(rolls: seq<nat>)
    requires |rolls| == 52
    ensures var l, d := NewGame(rolls).layout, Shuffled(FullDeck(), rolls);
      && (forall i: ColumnIndex :: |Get(l, Column(i))| == i + 1)
      && (forall i: ColumnIndex, j :: 0 <= j <= i ==> (Get(l, Column(i))[j].faceUp <==> j == i))
      && Get(l, Stock) == d[28..] && |Get(l, Stock)| == 24
      && (forall c :: c in Get(l, Stock) ==> !c.faceUp)
      && Get(l, Waste) == []
      && (forall f: FoundationIndex :: Get(l, Foundation(f)) == [])
  {
    var d := Shuffled(FullDeck(), rolls);
    ShufflePermutes(FullDeck(), rolls, 52);
    FullDeckOrder();
    forall k | 0 <= k < 52 ensures !d[k].faceUp {
      assert d[k] in multiset(FullDeck());
    }
    DealColumns(d);
    DealRest(d);
  }

  /** From a new game, whatever commands are played, the invariant holds; in particular the
      next undo cannot fail and no pile holds more than the 52 cards. */
  lemma {:induction false} RunKeepsInvariant(rolls: seq<nat>, cmds: seq<Command>)
    requires |rolls| == 52
    ensures Invariant(Run(NewGame(rolls), cmds))
  {
    if cmds == [] {
      NewGameInvariant(rolls);
    } else {
      RunKeepsInvariant(rolls, cmds[..|cmds| - 1]);
      StepKeepsInvariant(Run(NewGame(rolls), cmds[..|cmds| - 1]), cmds[|cmds| - 1]);
    }
  }

  /** In a game started from a new deal, whatever commands were played, the next undo neither
      reports "Undo failed!" nor throws. */
  lemma GameUndoNeverFails(rolls: seq<nat>, cmds: seq<Command>)
    requires |rolls| == 52
    ensures UndoLastMove(Run(NewGame(rolls), cmds)).outcome in {Ok, NothingToUndo}
  {
    RunKeepsInvariant(rolls, cmds);
    UndoNeverFails(Run(NewGame(rolls), cmds));
  }

  /** With the table full no pile holds more than 52 cards. */
  lemma SoundBoundsPiles(st: State, id: PileId)
    requires Sound(st)
    ensures |Get(st.layout, id)| <= 52
  {
    PileWithinTable(st.layout, id);
  }

  predicate Forward(cmds: seq<Command>) {
    forall i :: 0 <= i < |cmds| ==> cmds[i].Draw? || cmds[i].MoveCards?
  }

  /** One move or draw either goes through, pushing exactly one record whose undo restores the
      state, or changes nothing. */
  lemma ForwardStep(st: State, c: Command)
    requires Bookkeeping(st)
    requires c.Draw? || c.MoveCards?
    ensures Step(st, c).outcome == Ok ==>
      |Step(st, c).next.undoStack| == |st.undoStack| + 1 && UndoLastMove(Step(st, c).next) == Reply(Ok, st)
    ensures Step(st, c).outcome != Ok ==> Step(st, c).next == st
  {
    if Step(st, c).outcome == Ok {
      UndoInvertsStep(st, c);
    } else if c.Draw? {
      DrawIsTransfer(st);
    } else {
      MoveRefused(st, c.source, c.destination, c.num);
    }
  }

  /** Undoing once per record that `a` holds beyond those of `st` gives back `st`. */
  ghost predicate UndoesBackTo(a: State, st: State)
    requires Bookkeeping(a)
  {
    |a.undoStack| >= |st.undoStack| && UndoTimes(a, |a.undoStack| - |st.undoStack|) == st
  }

  /** A state whose top record undoes back to a state that undoes back to `st` undoes back to
      `st` too. */
  lemma UndoOneMore(st: State, before: State, next: State)
    requires Bookkeeping(before) && Bookkeeping(next)
    requires UndoLastMove(next) == Reply(Ok, before)
    ensures UndoesBackTo(before, st) ==> UndoesBackTo(next, st)
  {
    if UndoesBackTo(before, st) {
      var m := |before.undoStack| - |st.undoStack|;
      var undone := UndoLastMove(next);
      assert UndoTimes(next, m + 1) == UndoTimes(undone.next, m);
    }
  }

  /** The last command of a run of moves and draws either pushed one record that undoes it or
      changed nothing. */
  lemma ForwardRun(st: State, cmds: seq<Command>) returns (pushed: bool)
    requires Bookkeeping(st) && cmds != [] && Forward(cmds)
    ensures var before, next := Run(st, cmds[..|cmds| - 1]), Run(st, cmds);
      && (!pushed ==> next == before)
      && (pushed ==> |next.undoStack| == |before.undoStack| + 1 && UndoLastMove(next) == Reply(Ok, before))
  {
    var before := Run(st, cmds[..|cmds| - 1]);
    var c := cmds[|cmds| - 1];
    assert Run(st, cmds) == Step(before, c).next;
    ForwardStep(before, c);
    pushed := Step(before, c).outcome == Ok;
  }

  lemma ForwardPrefix(cmds: seq<Command>)
    requires cmds != [] && Forward(cmds)
    ensures Forward(cmds[..|cmds| - 1])
  {
    var init := cmds[..|cmds| - 1];
    forall i | 0 <= i < |init| ensures init[i].Draw? || init[i].MoveCards? {
      assert init[i] == cmds[i];
    }
  }

  /** Undo is last in, first out: after any moves and draws, undoing as many times as records
      were pushed gives back the state before them. */
  lemma {:induction false} UndoRun(st: State, cmds: seq<Command>)
    requires Bookkeeping(st) && Forward(cmds)
    ensures UndoesBackTo(Run(st, cmds), st)
  {
    if cmds != [] {
      var init := cmds[..|cmds| - 1];
      ForwardPrefix(cmds);
      UndoRun(st, init);
      var pushed := ForwardRun(st, cmds);
      if pushed {
        UndoOneMore(st, Run(st, init), Run(st, cmds));
      }
    }
  }
}
