# FreeCell rule engine

A Dafny model of the rule engine behind the browser FreeCell game in
`game.js`. The model covers:

- building the 52-card deck, the Fisher–Yates shuffle and the 7/7/7/7/6/6/6/6 deal;
- the run detector that runs when a tableau card is picked up;
- the free-capacity formula (1 + empty free cells) × 2^(empty columns);
- the two move validators: `canMoveSequence`, used on drop, and `canMove`, used by the hint;
- the single-card and sequence move executors;
- the bounded undo history, which keeps ten snapshots;
- the win check and the foundation hint;
- the pick-up / drop dispatch of a click.

The model is purely functional. A `Board` value holds the tableau, the free
cells, the foundations and the move counter, and it is also the snapshot
that the history stores. A `Game` adds the history and the second move tally.
A `Ui` adds the current selection. Random choices are a parameter (`picks`),
and a click is an abstract `Click` value.

The model keeps the code's behaviour where it departs from FreeCell's usual
rules, and states each such case as a lemma:

- A drop onto a free cell or a foundation accepts any single card. It checks neither occupancy nor suit.
- A drop onto an occupied free cell overwrites the card that was there.
- Picking up a tableau card has no top-card check. A single buried card moves, but the column's real top card is popped.
- A one-card drop saves two snapshots.
- A multi-card move bumps an uninitialised counter and leaves `moveCount` unchanged.
- The empty-column count includes the target column.

Modules, in dependency order: `Wrappers`, `Cards`, `Deck`, `Layout`,
`Rules`, `Moves`, `Evaluate`, `Clicks`, `Setup`.

## Model

| member | source | states |
|---|---|---|
| Cards.Card.Value | game.js:33 | a card's value lies in 1..13, and the rank sits at position value − 1 of the rank list |
| Cards.Card.Color | game.js:34 | a card is red exactly when its suit is hearts or diamonds |
| Deck.FullDeckComplete | game.js:26-38 | every (suit, rank) pair occurs in the built deck |
| Deck.FullDeckDistinct | game.js:26-38 | no two positions of the built deck hold the same card |
| Deck.FullDeckOnce | game.js:26-38 | every one of the 52 cards occurs in the deck exactly once |
| Deck.CreateDeck | game.js:26-38 | the nested suit/rank loops build the 52-card table (suit `i / 13`, rank `i % 13`), which has no repeats and holds every card |
| Deck.Swap | game.js:43 | a swap exchanges two positions, leaves every other position alone and keeps the deck's cards |
| Deck.ShuffleDeck | game.js:40-45 | the shuffle keeps the deck's length and its cards; the last position ends up with the card the first random choice named |
| Setup.DealColumn | game.js:51-53 | the inner dealing loop takes the next `height` cards of the deck, in order |
| Setup.DealCards | game.js:47-55 | eight columns, four of 7 cards then four of 6; column `c` holds the deck's next slice; the columns laid end to end give back the deck |
| Setup.NewGame | game.js:395-410 | a new game has a well-formed board and no selection, history or moves; free cells and foundations are empty; the columns have heights 7,7,7,7,6,6,6,6; every card is on the board exactly once; the game is not won |
| Setup.FreshBoardHoldsDeck | game.js:395-408 | a board whose columns hold a shuffled full deck, with empty free cells and foundations, holds each card once and is not won |
| Layout.Pop | game.js:293 | popping a non-empty pile drops exactly its top card; popping an empty pile leaves it empty |
| Layout.Accessible | game.js:172-181 | a location offers a card exactly when it is non-empty, and the card offered is its top: a free cell's card, a foundation's last card, and likewise a column's last card as the hint reads it |
| Layout.Take | game.js:291-301 | taking pops the source column or pile, or clears the source cell, and changes no other location or the move counter |
| Layout.Place | game.js:304-314 | placing pushes onto a column or pile, or sets a cell and replaces its occupant; the card becomes the target's top; nothing else changes |
| Layout.TakeConserves | game.js:291-301 | taking from a non-empty location removes exactly the offered card from the board's multiset of cards |
| Layout.PlaceConserves | game.js:304-314 | placing onto a column, a pile or an empty cell adds exactly that card to the board |
| Rules.RunEnd | game.js:205-216 | the scan from a row stops at the first card that does not follow its predecessor, or at the column's end |
| Rules.GetValidSequence | game.js:199-219 | the picked-up run is empty exactly when the row is past the column's end; otherwise it is the slice of the column from that row, it is a run, and the card after it (if any) does not follow it |
| Rules.ValidSequenceIsLongest | game.js:199-219 | a slice starting at the clicked row is a run exactly when it is no longer than the detected run, so the detected run is the longest one |
| Rules.CountWhereExtremes | game.js:223-224 | a filter count is zero exactly when no element qualifies, and full exactly when all do |
| Rules.CountWhereUpdate | game.js:223-224 | turning one non-qualifying element into a qualifying one raises the filter count by one |
| Rules.MaxMovable | game.js:222-228 | the capacity lies between 1 and 5 × 2^8 |
| Rules.EmptyColumnDoublesCapacity | game.js:222-228 | emptying a non-empty column exactly doubles the capacity |
| Rules.FreeCellRaisesCapacity | game.js:222-228 | freeing an occupied cell adds 2^(empty columns) to the capacity |
| Rules.CapacityExample | game.js:226-227 | two empty cells and one empty column give a capacity of 6 |
| Rules.EmptyTargetCounted | game.js:222-248 | because empty columns are counted on the board as it stands, a drop onto an empty column is allowed at least 2 × (1 + empty cells) cards |
| Rules.CanMoveSequence | game.js:231-253 | an empty run is refused; a cell or foundation target accepts exactly a one-card run; a column target refuses runs longer than the capacity and otherwise accepts exactly when the column is empty or the run's first card follows its top |
| Rules.CanMove | game.js:255-282 | a foundation accepts an Ace when empty, otherwise the same suit one rank up; a column accepts any card when empty, otherwise one rank down in the other colour; a free cell accepts exactly when it is empty |
| Rules.RankStep | game.js:265 | a value one above another's is exactly the next rank in the rank list |
| Rules.CanMoveImpliesDropAccepted | game.js:231-282 | every single-card move `canMove` allows is also accepted on drop |
| Rules.ValidatorsAgreeOnColumns | game.js:245-252 | on column targets the two validators agree about single cards |
| Rules.DropIgnoresOccupiedCell | game.js:235-237 | a drop onto an occupied free cell is accepted, though `canMove` refuses it |
| Rules.DropIgnoresFoundationRule | game.js:235-237 | a King dropped onto an empty foundation is accepted, though `canMove` refuses it |
| Moves.SaveState | game.js:348-359 | a save appends the snapshot, grows the history by one until it reaches ten, then drops the oldest entry, and never lets it exceed ten |
| Moves.HistoryKeepsLastTen | game.js:348-359 | after any series of saves, the history is exactly the last (at most ten) of all the snapshots, oldest first |
| Moves.EleventhSaveEvictsFirst | game.js:356-358 | the save that brings the total to eleven loses the first snapshot |
| Moves.MakeMove | game.js:284-318 | a one-card move saves one snapshot, bumps `moveCount`, pops the source when it differs from the target, leaves the card on top of the target (popping the target first when it is also the source, or replacing a cell's occupant), and changes no other location |
| Moves.TakeThenPlace | game.js:290-314 | removal then placement changes exactly the source and the target, as the move executor describes |
| Moves.PopN | game.js:334-336 | popping n times leaves the first max(length − n, 0) cards |
| Moves.MakeSequenceMove | game.js:320-346 | a one-card run goes through the single-card move after a second snapshot; a longer run between columns pops that many cards, appends the run to the target (onto the popped column when source and target coincide), marks the tally NaN and keeps `moveCount`; any other longer run only saves a snapshot |
| Moves.Undo | game.js:361-371 | undo restores the last snapshot, move counter included, and drops it from the history; with no history it does nothing |
| Moves.UndoRevertsMove | game.js:320-371 | an undo right after any drop restores the board as it was before the drop |
| Moves.SingleCardMoveSnapshotsTwice | game.js:321-327 | after a one-card drop the first and the second undo both restore the pre-move board |
| Moves.MakeMoveCardFlow | game.js:284-318 | a one-card move removes the source's top card (if any) and the target cell's occupant (if any), and adds the moved card |
| Moves.OverwriteCell | game.js:309 | setting an occupied cell swaps its occupant for the new card |
| Moves.ColumnMoveFlow | game.js:292-306 | a one-card move out of a non-empty column onto a column pops that column's real top card and adds the moved card, whichever card was picked |
| Moves.MakeMoveConserves | game.js:284-318 | a move of the source's top card onto a column, a pile or an empty cell keeps the board's cards |
| Moves.SequenceMoveConserves | game.js:332-345 | a multi-card move whose run is the source column's top keeps the board's cards |
| Moves.ColumnTransfer | game.js:334-341 | popping a column's top run and appending it to a column keeps the tableau's cards |
| Moves.PopRun | game.js:334-336 | popping the run off a column removes exactly the run's cards |
| Moves.PushRun | game.js:339-341 | appending the run to a column adds exactly the run's cards |
| Moves.OccupiedCellDropLosesCard | game.js:308-310 | a move onto an occupied free cell loses the occupant from the board |
| Evaluate.IsWon | game.js:373-378 | the win check holds exactly when the foundations hold 52 cards between them |
| Evaluate.FoundationTotal | game.js:374 | the per-pile sum equals the number of cards on the foundations |
| Evaluate.WonIffTableauAndCellsEmpty | game.js:373-378 | on a board holding the whole deck, the win check holds exactly when every column and every free cell is empty |
| Evaluate.ScanSource | game.js:506-530 | each scan position names a valid location: columns 0–7, then cells 0–3 |
| Evaluate.FirstFoundation | game.js:509-515 | the first foundation index from `f` on that accepts the card, or none of them does |
| Evaluate.HintAt | game.js:507-516 | a source whose card some foundation accepts is the answer, otherwise the answer from the next source |
| Evaluate.FoundHere | game.js:509-514 | a source with an accepting foundation is the scan's answer, paired with the first such foundation |
| Evaluate.Skip | game.js:506-530 | a source no foundation accepts does not change the scan's answer |
| Evaluate.ScanCells | game.js:519-530 | the free-cell half of the scan finds the first qualifying (cell, foundation) pair |
| Evaluate.ScanColumns | game.js:506-517 | the column half of the scan finds the first qualifying (column, foundation) pair, otherwise the free-cell half's answer |
| Evaluate.ShowHint | game.js:504-533 | there is no hint exactly when no (source, foundation) pair qualifies; a hint names the offered card, where it lies and a foundation that accepts it, and no pair earlier in scan order qualifies |
| Clicks.DropTarget | game.js:111-153 | a click on a card, cell, pile or column is dropped there; a click elsewhere has no target |
| Clicks.IsTopCard | game.js:185-196 | a free-cell or foundation card is on top exactly when that location holds a card; a tableau card is on top exactly when its row is the column's last |
| Clicks.PickUp | game.js:87-105 | a tableau click always selects the run detected from that row; a cell or foundation click selects its one card exactly when there is one |
| Clicks.Drop | game.js:78-85 | a drop runs the move exactly when `canMoveSequence` accepts it, and otherwise leaves the game alone |
| Clicks.DropSingle | game.js:320-329 | an accepted one-card drop leaves exactly the board a single-card move leaves |
| Clicks.HandleClick | game.js:66-160 | with no selection, a click changes no game state and picks up only a card; with a selection, every click clears it; the game changes only through an accepted drop |
| Clicks.CancelIsIdempotent | game.js:155-159 | a click on nothing clears the selection, leaves the game alone, and doing it twice is the same as once |
| Clicks.TopRunColumnDropConserves | game.js:87-97 | picking up a run that reaches the column's top and dropping it on a column keeps the board's cards |
| Clicks.BuriedCardDropSwapsTop | game.js:87-97 | picking up a single buried card and dropping it on another column pops the column's real top: that card leaves the board and the picked card appears twice |

## Left out

- Rendering, the DOM, event listeners and the timer (game.js:57-64, 412-502) are not modelled. A click is an abstract `Click`, and resolving the element under the pointer (game.js:67-70, 162-183) becomes `SpotLocation`.
- `Math.random` in the shuffle is replaced by caller-supplied `picks`. `ValidPicks` says which picks a Fisher–Yates pass can draw.
- The hint's and the win modal's texts (alerts, elapsed time) are not modelled. `ShowHint` returns the card, its location and the foundation index.
- The win modal opened by `checkWin` after a move is not modelled. `IsWon` is the check itself, and the executors do not evaluate it.
- JSON deep copies and card object identity are not modelled. Boards are values, so a snapshot cannot alias the live board. The card-identity test in the selection highlight belongs to rendering.
- A selection keeps only the source location and the run. The anchor card and the clicked row are used only by highlighting.
- `this.moves` is never initialised, so its first increment yields NaN, and it is shown in place of `moveCount`. It is modelled as `Tally`: `Unset` or `NotANumber`.
- The `canMove` source argument is unused by the code, so the model omits it.
- Moves.SingleCardMoveSnapshotsTwice: the claim about the history left after the first undo is stated only when the history has room for both snapshots (at most eight entries before the drop). With a full history, the second save evicts an older entry.
- Moves.SequenceMoveConserves: stated only when the run is the source column's top. A tableau pick-up has no top-card check, and `Clicks.BuriedCardDropSwapsTop` describes what a buried pick-up does instead.
- Moves.MakeMoveConserves: stated only for a target that is not an occupied free cell. `Moves.OccupiedCellDropLosesCard` covers the occupied case.
