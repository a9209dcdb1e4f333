# Solitaire engine in Dafny

A model of the card engine of `Solitaire.cpp`, a terminal Klondike-like game. The model covers
these parts:

- The deck: built in suit-major, rank-minor order, shuffled by a swap loop, and dealt from its head.
- The thirteen card stacks: seven columns, four foundations, the waste and the stock.
- The label lookup `getStack`, including the `std::stoi` it calls on column labels.
- The three commands: `drawCardFromStock`, `moveCard` and `undoLastMove`, with their undo
  records and move history.

The model is written in two layers:

- `Engine` describes each command as a function from state to reply, and proves the game's
  promises about it.
- `Game.SolitaireGame` is a class with the game's fields. It has the program's push/pop loops
  through a temporary stack. Each of its methods is proved to leave exactly the state the
  matching `Engine` function describes, so every `Engine` lemma applies to the class.

Modules:

- `Ints`: the C++ `int` as `int32`, and its conversion to the 64-bit `size_t` in a size
  comparison.
- `Cards`: cards as (suit index, rank index, face up), card identities, and the 52-card deck.
- `Decks`: the `Deck` class (`createDeck`, `addCard`, `shuffleDeck`, `dealCard`) and the
  shuffle as a function of the `rand()` values.
- `Layouts`: the thirteen piles as a value; replacing a pile; moving a block of cards; the
  initial deal.
- `Labels`: `getStack` and `std::stoi`.
- `Engine`: the state machine and its invariants.
- `Game`: the `SolitaireGame` class.

Two behaviours of the code are easy to miss. The model follows the code:

- Undo has many levels. `undoStack` is a `stack<Move>`, and every successful move or draw
  pushes onto it. A new move does not replace the previous record. `Engine.UndoRun` proves that
  undoing as many times as records were pushed restores the earlier state, in last-in,
  first-out order.
- A failed undo is not a no-op. The record is popped before the undo is checked, so a failed
  undo loses its record. `Engine.UndoLastMove` models this. `Engine.GameUndoNeverFails` shows
  that in a game started from a new deal, after any commands, an undo never fails.

## Model

| member | source | states |
|---|---|---|
| Cards.FullDeckOrder | Solitaire.cpp:28-37 | the built deck lies face down in strictly increasing suit-major, rank-minor order and contains every (suit, rank) pair, none twice |
| Cards.FullDeckIdentities | Solitaire.cpp:28-37 | the built deck has 52 cards, and each of the 52 (suit, rank) pairs occurs in it exactly once |
| Cards.IdsPermutation | Solitaire.cpp:11-17 | rearranging cards keeps their identities with multiplicity: the basis of "every card exactly once" surviving moves and the shuffle |
| Decks.Deck.AddCard | Solitaire.cpp:40-50 | appends one face-down card of the given suit and rank at the tail |
| Decks.Deck.CreateDeck | Solitaire.cpp:28-37 | appends the 52 cards of the full deck, suit by suit and rank by rank |
| Decks.Deck.ShuffleDeck | Solitaire.cpp:53-76 | the loop swaps position i with `rand() % size` for every i; the result is the order `Shuffled` gives for the same `rand()` values, and a permutation of the old deck |
| Decks.ShufflePermutes | Solitaire.cpp:60-63 | for any `rand()` values, every prefix of the swap loop permutes the deck (same multiset of cards) |
| Decks.SwapPermutes | Solitaire.cpp:62 | one swap of two vector entries keeps the multiset of cards |
| Decks.Deck.DealCard | Solitaire.cpp:79-85 | an empty deck gives nothing and stays empty; otherwise the head card is returned and removed |
| Layouts.DealColumns | Solitaire.cpp:118-126 | after the deal, column i holds i + 1 cards from the deck in deck order, and the last one is turned face up |
| Layouts.DealRest | Solitaire.cpp:129-131 | after the deal, the stock holds the remaining cards in deck order (the deck's last card on top), and the waste and the foundations are empty |
| Layouts.DealKeepsCards | Solitaire.cpp:117-132 | the deal neither loses nor duplicates a card: the table holds the deck's cards, identity by identity |
| Layouts.TransferShape | Solitaire.cpp:260-269 | moving a block changes only the source and the destination: the source loses its top n cards and the destination gains them |
| Layouts.BlockKeepsOrder | Solitaire.cpp:260-269 | the moved block sits on top of the destination in the order it had on the source |
| Layouts.TransferConserves | Solitaire.cpp:260-269 | moving a block keeps the multiset of all cards on the table |
| Layouts.TransferOntoItself | Solitaire.cpp:260-269 | moving a block from a pile onto the same pile leaves the table as it was |
| Layouts.TransferUndone | Solitaire.cpp:294-303 | moving n cards back from the destination to the source restores the table exactly |
| Ints.AsSizeT | Solitaire.cpp:255 | an `int` converted to `size_t` keeps non-negative values and wraps negative ones modulo 2^64 |
| Ints.SizeComparison | Solitaire.cpp:255 | `size < num` with `num` converted to `size_t` holds exactly when num is negative or above the size |
| Labels.StoiDecimal | Solitaire.cpp:318 | `stoi` reads back the decimal numeral of every non-negative `int` |
| Labels.StoiDigits | Solitaire.cpp:318 | `stoi` on a run of digits gives their value when it fits in an `int` |
| Labels.GetStackFixed | Solitaire.cpp:311-316 | the six fixed labels, and only they, name the waste, the stock and the foundations |
| Labels.GetStackColumn | Solitaire.cpp:317-320 | a label names column k exactly when it starts with 'c' and `stoi` reads k + 1 after the 'c' |
| Labels.GetStackThrows | Solitaire.cpp:317-318 | the lookup throws exactly when the label starts with 'c' and `stoi` throws on the rest |
| Labels.GetStackMissing | Solitaire.cpp:321 | exactly the other labels give a null pointer |
| Labels.LabelRoundTrip | Solitaire.cpp:310-322 | every pile is found by its own label |
| Labels.ColumnLabelRoundTrip | Solitaire.cpp:317-320 | "c1" to "c7" find columns 0 to 6 |
| Labels.RejectedLabels | Solitaire.cpp:317-321 | "c0", "c8", "zz" and the empty label give a null pointer |
| Labels.ThrowingLabels | Solitaire.cpp:318 | "c" and "cx" make `stoi` throw |
| Labels.LeadingZeroLabel | Solitaire.cpp:318 | "c01" names the first column |
| Labels.SignedLabel | Solitaire.cpp:318 | "c+3" names the third column |
| Labels.TrailingTextLabel | Solitaire.cpp:318 | "c1abc" names the first column |
| Engine.UndoLastMove | Solitaire.cpp:276-307 | with no record, nothing changes; otherwise the top record is removed whatever follows, and the undo succeeds exactly when its destination and source labels name piles and the destination holds at least `num` cards (num not negative); then `num` cards go from the destination back onto the source in order and the last history entry is dropped; a failed undo changes nothing else; the history keeps at least as many entries as there are records |
| Engine.ReverseMove | Solitaire.cpp:286-306 | reversing a popped record succeeds exactly when both labels name piles and the record's destination holds at least `num` cards, and throws exactly when a label makes `stoi` throw; a success moves `num` cards from the destination back onto the source (`Layouts.Transfer`) and drops the last history entry; the undo stack is kept, and a failure changes nothing |
| Engine.DrawIsTransfer | Solitaire.cpp:237-248 | an empty stock changes nothing and reports it; otherwise the stock's top card goes onto the waste, and `{stock, waste, 1}` and "draw" are recorded |
| Engine.MoveRefused | Solitaire.cpp:251-258 | a move is refused exactly when a label gives a null pointer or the source has fewer than num cards (any negative num included), and a label `stoi` cannot read throws; a refused move changes nothing |
| Engine.MoveApplied | Solitaire.cpp:260-273 | a move that goes through gives the table `Layouts.Transfer` describes: the source loses its top num cards and the destination keeps its own cards with that block on top in the same order; a move onto the same pile changes nothing; every other pile is left alone, every card is kept, `{source, destination, num}` is pushed, and "move <source> to <destination>" is appended to the history, which keeps its old entries |
| Engine.MoveNothing | Solitaire.cpp:251-273 | a move of zero cards between two named piles goes through, moves nothing and pushes a record |
| Engine.StepConservesCards | Solitaire.cpp:212-307 | no command creates or destroys a card |
| Engine.UndoInvertsStep | Solitaire.cpp:276-307 | undo right after a move or draw that went through restores the piles, the undo stack and the history exactly |
| Engine.StepKeepsReversible | Solitaire.cpp:276-307 | every command leaves each record on the undo stack undoable in turn |
| Engine.UndoNeverFails | Solitaire.cpp:289-291 | when every record is undoable, an undo reports neither "Undo failed!" nor an exception |
| Engine.GameUndoNeverFails | Solitaire.cpp:276-307 | in a game started from a new deal, after any commands, the next undo either succeeds or finds nothing to undo |
| Engine.StepKeepsSound | Solitaire.cpp:212-307 | every command keeps all 52 cards on the table, each (suit, rank) once, and keeps at least as many history entries as undo records, so `pop_back` never meets an empty history |
| Engine.StepKeepsInvariant | Solitaire.cpp:212-307 | every command keeps the full table, the bookkeeping and the undoability of every record |
| Engine.NewGameInvariant | Solitaire.cpp:106-132 | a new game holds each of the 52 cards once and has no undo records |
| Engine.NewGameLayout | Solitaire.cpp:106-132 | in a new game column i holds i + 1 cards with only the top one face up, the stock holds the other 24 face down in deck order, and the waste and the foundations are empty |
| Engine.RunKeepsInvariant | Solitaire.cpp:212-307 | from a new game, after any commands, the invariant holds |
| Engine.SoundBoundsPiles | Solitaire.cpp:255 | with all 52 cards on the table no pile holds more than 52, so the `size_t` comparison is the plain one |
| Engine.ForwardStep | Solitaire.cpp:237-273 | a move or draw either pushes exactly one record whose undo restores the state, or changes nothing |
| Engine.UndoOneMore | Solitaire.cpp:276-307 | a state whose top record undoes to a state that undoes back to `st` undoes back to `st` too, with one more undo |
| Engine.UndoRun | Solitaire.cpp:276-307 | after any moves and draws, the undo stack has grown, and undoing once per pushed record gives back the state before them: undo is last in, first out |
| Game.SolitaireGame.constructor | Solitaire.cpp:107-114 | builds, shuffles and deals: the state is the new game for the given `rand()` values, and the class invariant holds |
| Game.SolitaireGame.DealColumn | Solitaire.cpp:119-125 | column i receives the next i + 1 cards of the deck, the last turned face up; no other column changes |
| Game.SolitaireGame.DealAllColumns | Solitaire.cpp:118-126 | each column i receives its cards of the deal, and the first 28 cards leave the deck |
| Game.SolitaireGame.DealToStock | Solitaire.cpp:129-131 | the rest of the deck goes onto the stock in deal order, and the deck is left empty |
| Game.SolitaireGame.DealToColumns | Solitaire.cpp:117-132 | the table becomes the dealt layout of the deck |
| Game.SolitaireGame.Push | Solitaire.cpp:267 | `push` adds the card on top of one pile and changes no other |
| Game.SolitaireGame.Pop | Solitaire.cpp:262-263 | `top` and `pop` take the top card off one pile and change no other |
| Game.SolitaireGame.PopBlock | Solitaire.cpp:260-264 | the first loop leaves the source without its top n cards, and the temporary stack holds them reversed |
| Game.SolitaireGame.PushBlock | Solitaire.cpp:266-269 | the second loop puts the temporary stack onto the destination reversed again |
| Game.SolitaireGame.TransferBlock | Solitaire.cpp:260-269 | the two loops together give the table that `Layouts.Transfer` describes, source equal to destination included |
| Game.SolitaireGame.DrawCardFromStock | Solitaire.cpp:237-248 | the fields and the reply are those of `Engine.DrawCard` on the old state, and the class invariant holds |
| Game.SolitaireGame.MoveCard | Solitaire.cpp:251-273 | with the size test written on `size_t`, the fields and the reply are those of `Engine.MoveCard`, and the class invariant holds |
| Game.SolitaireGame.UndoLastMove | Solitaire.cpp:276-307 | the fields and the reply are those of `Engine.UndoLastMove`, and the class invariant holds |
| Game.SolitaireGame.ReverseLastMove | Solitaire.cpp:286-306 | after the record is popped, the fields and the reply are those of `Engine.ReverseMove` |
| Game.SolitaireGame.HandleCommand | Solitaire.cpp:217-231 | "s", "m" and "z" reach the three commands, and anything else changes nothing |

## Left out

- Display (`displayGame`, `printStockAndWaste`, `printFoundations`, `printColumns`,
  `printStack`): these only write to the terminal and change no state.
- `main`'s read loop and the tokenizing in `handleCommand`: these are I/O. A command is given
  as a `Command` value. A missing count is not modelled; it leaves `num` at whatever the
  stream gives.
- `srand(time(0))` and `rand()`: the values `rand()` returns are a parameter (`rolls`) of the
  shuffle and of the constructor.
- The `prev`/`next` pointers of the deck's linked list, and the `new`-allocated cards: the deck
  is a sequence of card values. Sharing of a `Card*` between piles cannot happen in the
  program, so cards are values.
- Suit and rank strings ("♠", "A", ...): a card holds the index of its suit and rank in the
  program's arrays.
- The `cout` messages: each becomes an `Outcome`. An exception thrown by `stoi` becomes
  `LabelError` and the state is kept as it was at the throw. What happens after the throw
  (the program ends) is not modelled.
- Labels.ColumnLookup: for a label such as "c-2147483648" the program computes
  `stoi(...) - 1` on the least `int`, a signed overflow with undefined behaviour. The model
  subtracts without overflow and answers a null pointer, as a wrap-around to a large positive
  number would.
- `moveHistory` entries are the strings the program builds. Nothing reads them except
  `pop_back`.
- `Game.SolitaireGame.Valid` holds the full-table and bookkeeping parts of the invariant. The
  undoability of every record is proved on the `Engine` state (`Engine.RunKeepsInvariant`),
  which the class methods are proved to follow step for step.
