/**
  The pick-up / drop dispatch of a click, over abstract click targets instead
  of page elements. With nothing selected, a click on a card picks it up; with
  a selection, any click drops it (moving only if `CanMoveSequence` accepts)
  and clears it.
 */
module Clicks {
  import opened Wrappers
  import opened Layout
  import opened Rules
  import opened Moves

  /** A card on screen: a tableau card by column and row, a free-cell card, a foundation top. */
  datatype Spot = InColumn(column: nat, row: nat) | InCell(index: nat) | OnPile(index: nat)

  /** What a click landed on; a card inside a cell, pile or column counts as the card. */
  datatype Click = OnCard(spot: Spot) | OnCell(index: nat) | OnFoundation(index: nat) | OnColumn(column: nat) | Elsewhere

  datatype Ui = Ui(game: Game, selected: Option<Selection>)

  function SpotLocation(spot: Spot): (r: Location) {
    match spot
    case InColumn(c, _) => Tableau(c)
    case InCell(i) => FreeCell(i)
    case OnPile(i) => Foundation(i)
  }

  predicate ValidClick(click: Click) {
    match click
    case OnCard(spot) => ValidLocation(SpotLocation(spot))
    case OnCell(i) => i < CellCount
    case OnFoundation(i) => i < FoundationCount
    case OnColumn(c) => c < ColumnCount
    case Elsewhere => true
  }

  predicate ValidSelection(sel: Option<Selection>) {
    sel.None? || ValidLocation(sel.value.source)
  }

  /** Where a selection is dropped: the clicked card's pile, or the clicked cell, pile or column. */
  function DropTarget(click: Click): (t: Option<Location>)
    ensures ValidClick(click) && t.Some? ==> ValidLocation(t.value)
  {
    match click
    case OnCard(spot) => Some(SpotLocation(spot))
    case OnCell(i) => Some(FreeCell(i))
    case OnFoundation(i) => Some(Foundation(i))
    case OnColumn(c) => Some(Tableau(c))
    case Elsewhere => None
  }

  /** Whether the card at a spot is at its pile's accessible end. */
  function IsTopCard(b: Board, spot: Spot): (top: bool)
    requires WellFormed(b) && ValidLocation(SpotLocation(spot))
    ensures !spot.InColumn? ==> (top <==> Accessible(b, SpotLocation(spot)).Some?)
    ensures spot.InColumn? ==>
      (top <==> Accessible(b, SpotLocation(spot)).Some? && spot.row + 1 == |b.tableau[spot.column]|)
  {
    match spot
    case InColumn(c, row) => row == |b.tableau[c]| - 1
    case InCell(i) => b.freeCells[i] != None
    case OnPile(i) => |b.foundations[i]| > 0
  }

  /**
    Picking up: a tableau card selects the run detected from its row, with no
    top-card check; a free-cell or foundation card is selected alone, and only
    if it is there.
   */
  function PickUp(b: Board, spot: Spot): (s: Option<Selection>)
    requires WellFormed(b) && ValidLocation(SpotLocation(spot))
    ensures s.Some? ==> s.value.source == SpotLocation(spot)
    ensures spot.InColumn? ==> s.Some? && s.value.run == GetValidSequence(b.tableau[spot.column], spot.row)
    ensures !spot.InColumn? ==> (s.Some? <==> Accessible(b, SpotLocation(spot)).Some?)
    ensures !spot.InColumn? && s.Some? ==> s.value.run == [Accessible(b, SpotLocation(spot)).value]
  {
    match spot
    case InColumn(c, row) => Some(Selection(Tableau(c), GetValidSequence(b.tableau[c], row)))
    case InCell(i) => if IsTopCard(b, spot) then Some(Selection(FreeCell(i), [b.freeCells[i].value])) else None
    case OnPile(i) => if IsTopCard(b, spot) then Some(Selection(Foundation(i), [Top(b.foundations[i])])) else None
  }

  /** A drop: validate with `CanMoveSequence`, execute only if accepted. */
  function Drop(g: Game, sel: Selection, target: Location): (r: Game)
    requires WellFormed(g.board) && ValidLocation(sel.source) && ValidLocation(target)
    ensures WellFormed(r.board)
    ensures !CanMoveSequence(g.board, sel.run, target) ==> r == g
    ensures CanMoveSequence(g.board, sel.run, target) ==> r == MakeSequenceMove(g, sel, target)
  {
    if CanMoveSequence(g.board, sel.run, target) then MakeSequenceMove(g, sel, target) else g
  }

  /** One click. */
  function HandleClick(ui: Ui, click: Click): (r: Ui)
    requires WellFormed(ui.game.board) && ValidClick(click) && ValidSelection(ui.selected)
    ensures WellFormed(r.game.board) && ValidSelection(r.selected)
    ensures ui.selected.Some? ==> r.selected.None?
    ensures ui.selected.None? ==> r.game == ui.game
    ensures ui.selected.None? ==> r.selected == if click.OnCard? then PickUp(ui.game.board, click.spot) else None
    ensures r.game != ui.game ==>
      && ui.selected.Some?
      && DropTarget(click).Some?
      && CanMoveSequence(ui.game.board, ui.selected.value.run, DropTarget(click).value)
    ensures ui.selected.Some? && DropTarget(click).Some? ==>
      r.game == Drop(ui.game, ui.selected.value, DropTarget(click).value)
  {
    if ui.selected.None? then
      Ui(ui.game, if click.OnCard? then PickUp(ui.game.board, click.spot) else None)
    else
      match DropTarget(click)
      case Some(target) => Ui(Drop(ui.game, ui.selected.value, target), None)
      case None => Ui(ui.game, None)
  }

  /** Cancelling (a click on nothing) is idempotent and never touches the game. */
  lemma CancelIsIdempotent(ui: Ui)
    requires WellFormed(ui.game.board) && ValidSelection(ui.selected)
    ensures HandleClick(ui, Elsewhere) == Ui(ui.game, None)
    ensures HandleClick(HandleClick(ui, Elsewhere), Elsewhere) == HandleClick(ui, Elsewhere)
  {
  }

  /**
    Picking a tableau card whose run reaches the column's top and dropping it on
    a column keeps every card on the board.
   */
  lemma TopRunColumnDropConserves(g: Game, c: nat, row: nat, target: nat)
    requires WellFormed(g.board) && c < ColumnCount && target < ColumnCount
    requires var run := PickUp(g.board, InColumn(c, row)).value.run;
      row < |g.board.tableau[c]| && row + |run| == |g.board.tableau[c]|
    ensures CardsOn(Drop(g, PickUp(g.board, InColumn(c, row)).value, Tableau(target)).board) == CardsOn(g.board)
  {
    var sel := PickUp(g.board, InColumn(c, row)).value;
    var col := g.board.tableau[c];
    if CanMoveSequence(g.board, sel.run, Tableau(target)) {
      if |sel.run| == 1 {
        var saved := g.(history := SaveState(g.history, g.board));
        assert Accessible(saved.board, Tableau(c)) == Some(sel.run[0]);
        MakeMoveConserves(saved, Tableau(c), Tableau(target));
      } else {
        assert col[|col| - |sel.run|..] == sel.run;
        SequenceMoveConserves(g, sel, Tableau(target));
      }
    }
  }

  /**
    Picking a tableau card below a break in its column and dropping it alone
    moves that card but pops the column's top card: the top card leaves the
    board and the picked card is now there twice.
   */
  lemma BuriedCardDropSwapsTop(g: Game, c: nat, row: nat, target: nat)
    requires WellFormed(g.board) && c < ColumnCount && target < ColumnCount && target != c
    requires row + 1 < |g.board.tableau[c]|
    requires |PickUp(g.board, InColumn(c, row)).value.run| == 1
    requires CanMoveSequence(g.board, [g.board.tableau[c][row]], Tableau(target))
    ensures CardsOn(Drop(g, PickUp(g.board, InColumn(c, row)).value, Tableau(target)).board)
            + multiset{Top(g.board.tableau[c])}
            == CardsOn(g.board) + multiset{g.board.tableau[c][row]}
  {
    var sel := PickUp(g.board, InColumn(c, row)).value;
    var card := g.board.tableau[c][row];
    assert sel == Selection(Tableau(c), [card]);
    DropSingle(g, sel, Tableau(target));
    ColumnMoveFlow(g, card, c, target);
  }

  /** An accepted one-card drop leaves the board a single-card move leaves. */
  lemma DropSingle(g: Game, sel: Selection, target: Location)
    requires WellFormed(g.board) && ValidLocation(sel.source) && ValidLocation(target)
    requires |sel.run| == 1 && CanMoveSequence(g.board, sel.run, target)
    ensures Drop(g, sel, target).board == MakeMove(g, sel.run[0], sel.source, target).board
  {
    var saved := g.(history := SaveState(g.history, g.board));
    assert Drop(g, sel, target) == MakeMove(saved, sel.run[0], sel.source, target);
  }
}
