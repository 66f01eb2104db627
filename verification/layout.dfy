/**
  The board: eight tableau columns, four free cells, four foundation piles
  and the move counter. A pile is listed bottom first; its last card is its top.
  A `Board` value is also what the undo history stores.
 */
module Layout {
  import opened Wrappers
  import opened Cards

  const ColumnCount: nat := 8
  const CellCount: nat := 4
  const FoundationCount: nat := 4

  /** Addresses a pile or a slot, never a particular card. */
  datatype Location = Tableau(column: nat) | FreeCell(index: nat) | Foundation(index: nat)

  datatype Board = Board(
    tableau: seq<seq<Card>>,
    freeCells: seq<Option<Card>>,
    foundations: seq<seq<Card>>,
    moveCount: nat)

  predicate WellFormed(b: Board) {
    |b.tableau| == ColumnCount && |b.freeCells| == CellCount && |b.foundations| == FoundationCount
  }

  predicate ValidLocation(loc: Location) {
    match loc
    case Tableau(c) => c < ColumnCount
    case FreeCell(i) => i < CellCount
    case Foundation(i) => i < FoundationCount
  }

  function Top(pile: seq<Card>): (r: Card)
    requires |pile| > 0
  {
    pile[|pile| - 1]
  }

  /** Array pop: drops the top card; popping an empty pile leaves it empty. */
  function Pop(pile: seq<Card>): (r: seq<Card>)
    ensures |pile| > 0 ==> r + [Top(pile)] == pile
    ensures |pile| == 0 ==> r == []
  {
    if |pile| == 0 then pile else pile[..|pile| - 1]
  }

  function CellContents(cell: Option<Card>): (r: seq<Card>) {
    match cell
    case None => []
    case Some(c) => [c]
  }

  /** The cards held at a location, bottom first; a free cell holds zero or one. */
  function Contents(b: Board, loc: Location): (r: seq<Card>)
    requires WellFormed(b) && ValidLocation(loc)
  {
    match loc
    case Tableau(c) => b.tableau[c]
    case FreeCell(i) => CellContents(b.freeCells[i])
    case Foundation(i) => b.foundations[i]
  }

  /** The card at a location's accessible end, if there is one. */
  function Accessible(b: Board, loc: Location): (r: Option<Card>)
    requires WellFormed(b) && ValidLocation(loc)
    ensures r.None? <==> Contents(b, loc) == []
    ensures r.Some? ==> r.value == Top(Contents(b, loc))
  {
    var pile := Contents(b, loc);
    if |pile| == 0 then None else Some(pile[|pile| - 1])
  }

  /**
    Removal from a location's accessible end: pop a column or a foundation pile,
    clear a free cell. Nothing else on the board changes.
   */
  function Take(b: Board, loc: Location): (r: Board)
    requires WellFormed(b) && ValidLocation(loc)
    ensures WellFormed(r) && r.moveCount == b.moveCount
    ensures Contents(r, loc) == Pop(Contents(b, loc))
    ensures forall other :: ValidLocation(other) && other != loc ==> Contents(r, other) == Contents(b, other)
  {
    match loc
    case Tableau(c) => b.(tableau := b.tableau[c := Pop(b.tableau[c])])
    case FreeCell(i) => b.(freeCells := b.freeCells[i := None])
    case Foundation(i) => b.(foundations := b.foundations[i := Pop(b.foundations[i])])
  }

  /**
    Placement at a location: push onto a column or a foundation pile, set a free
    cell (replacing whatever it held). Nothing else on the board changes.
   */
  function Place(b: Board, loc: Location, card: Card): (r: Board)
    requires WellFormed(b) && ValidLocation(loc)
    ensures WellFormed(r) && r.moveCount == b.moveCount
    ensures Contents(r, loc) == if loc.FreeCell? then [card] else Contents(b, loc) + [card]
    ensures Accessible(r, loc) == Some(card)
    ensures forall other :: ValidLocation(other) && other != loc ==> Contents(r, other) == Contents(b, other)
  {
    match loc
    case Tableau(c) => b.(tableau := b.tableau[c := b.tableau[c] + [card]])
    case FreeCell(i) => b.(freeCells := b.freeCells[i := Some(card)])
    case Foundation(i) => b.(foundations := b.foundations[i := b.foundations[i] + [card]])
  }

  /** All piles laid end to end, in order. */
  function Flatten(piles: seq<seq<Card>>): (r: seq<Card>)
    decreases |piles|
  {
    if |piles| == 0 then [] else Flatten(piles[..|piles| - 1]) + piles[|piles| - 1]
  }

  function CellCards(cells: seq<Option<Card>>): (r: multiset<Card>)
    decreases |cells|
  {
    if |cells| == 0 then multiset{} else CellCards(cells[..|cells| - 1]) + multiset(CellContents(cells[|cells| - 1]))
  }

  /** Every card on the board, wherever it lies. */
  function CardsOn(b: Board): (r: multiset<Card>) {
    multiset(Flatten(b.tableau)) + CellCards(b.freeCells) + multiset(Flatten(b.foundations))
  }

  /** Replacing one pile swaps that pile's cards for the new pile's cards. */
  lemma {:induction false} FlattenUpdate(piles: seq<seq<Card>>, i: nat, pile: seq<Card>)
    requires i < |piles|
    ensures multiset(Flatten(piles[i := pile])) + multiset(piles[i]) == multiset(Flatten(piles)) + multiset(pile)
    decreases |piles|
  {
    var n := |piles| - 1;
    var updated := piles[i := pile];
    if i == n {
      assert updated[..n] == piles[..n];
    } else {
      var rest' := Flatten(piles[..n][i := pile]);
      FlattenUpdate(piles[..n], i, pile);
      assert piles[..n][i] == piles[i];
      assert updated[..n] == piles[..n][i := pile];
      FlattenLast(updated);
      FlattenLast(piles);
      AddToBoth(multiset(rest'), multiset(Flatten(piles[..n])), multiset(piles[i]), multiset(pile), multiset(piles[n]));
    }
  }

  lemma FlattenLast(piles: seq<seq<Card>>)
    requires |piles| > 0
    ensures multiset(Flatten(piles)) == multiset(Flatten(piles[..|piles| - 1])) + multiset(piles[|piles| - 1])
  {
  }

  /** Replacing one cell swaps that cell's card for the new cell's card. */
  lemma {:induction false} CellCardsUpdate(cells: seq<Option<Card>>, i: nat, cell: Option<Card>)
    requires i < |cells|
    ensures CellCards(cells[i := cell]) + multiset(CellContents(cells[i])) == CellCards(cells) + multiset(CellContents(cell))
    decreases |cells|
  {
    var n := |cells| - 1;
    var updated := cells[i := cell];
    if i == n {
      assert updated[..n] == cells[..n];
    } else {
      var rest' := CellCards(cells[..n][i := cell]);
      CellCardsUpdate(cells[..n], i, cell);
      assert cells[..n][i] == cells[i];
      assert updated[..n] == cells[..n][i := cell];
      CellCardsLast(updated);
      CellCardsLast(cells);
      AddToBoth(rest', CellCards(cells[..n]), multiset(CellContents(cells[i])), multiset(CellContents(cell)), multiset(CellContents(cells[n])));
    }
  }

  lemma CellCardsLast(cells: seq<Option<Card>>)
    requires |cells| > 0
    ensures CellCards(cells) == CellCards(cells[..|cells| - 1]) + multiset(CellContents(cells[|cells| - 1]))
  {
  }

  /** An equation between multiset sums survives adding the same summand to both sides. */
  lemma AddToBoth(x: multiset<Card>, y: multiset<Card>, a: multiset<Card>, b: multiset<Card>, m: multiset<Card>)
    requires x + a == y + b
    ensures x + m + a == y + m + b
  {
    forall z
      ensures (x + m + a)[z] == (y + m + b)[z]
    {
      assert (x + a)[z] == (y + b)[z];
    }
  }

  lemma Cancel(a: multiset<Card>, b: multiset<Card>, p: multiset<Card>)
    requires a + p == b + p
    ensures a == b
  {
    forall x
      ensures a[x] == b[x]
    {
      assert (a + p)[x] == (b + p)[x];
    }
  }

  /** Popping a non-empty pile removes its top card from the flattened piles. */
  lemma PopFromPiles(piles: seq<seq<Card>>, k: nat)
    requires k < |piles| && |piles[k]| > 0
    ensures multiset(Flatten(piles[k := Pop(piles[k])])) + multiset{Top(piles[k])} == multiset(Flatten(piles))
  {
    var pile := piles[k];
    var before := multiset(Flatten(piles));
    var after := multiset(Flatten(piles[k := Pop(pile)]));
    FlattenUpdate(piles, k, Pop(pile));
    assert pile == Pop(pile) + [Top(pile)];
    assert multiset(pile) == multiset(Pop(pile)) + multiset{Top(pile)};
    assert after + multiset{Top(pile)} + multiset(Pop(pile)) == before + multiset(Pop(pile));
    Cancel(after + multiset{Top(pile)}, before, multiset(Pop(pile)));
  }

  /** Pushing onto a pile adds that card to the flattened piles. */
  lemma PushOntoPiles(piles: seq<seq<Card>>, k: nat, card: Card)
    requires k < |piles|
    ensures multiset(Flatten(piles[k := piles[k] + [card]])) == multiset(Flatten(piles)) + multiset{card}
  {
    var before := multiset(Flatten(piles));
    var after := multiset(Flatten(piles[k := piles[k] + [card]]));
    FlattenUpdate(piles, k, piles[k] + [card]);
    assert multiset(piles[k] + [card]) == multiset(piles[k]) + multiset{card};
    assert after + multiset(piles[k]) == before + multiset{card} + multiset(piles[k]);
    Cancel(after, before + multiset{card}, multiset(piles[k]));
  }

  /** Sums of the three zones: changing one zone by one card changes the board by that card. */
  lemma ZoneSum(t: multiset<Card>, cells: multiset<Card>, f: multiset<Card>, t': multiset<Card>, cells': multiset<Card>, f': multiset<Card>, c: multiset<Card>)
    requires (t' + c == t && cells' == cells && f' == f) || (t' == t && cells' + c == cells && f' == f) || (t' == t && cells' == cells && f' + c == f)
    ensures t' + cells' + f' + c == t + cells + f
  {
  }

  /** Taking the accessible card removes exactly that card from the board. */
  lemma TakeConserves(b: Board, loc: Location)
    requires WellFormed(b) && ValidLocation(loc) && Accessible(b, loc).Some?
    ensures CardsOn(Take(b, loc)) + multiset{Accessible(b, loc).value} == CardsOn(b)
  {
    var r := Take(b, loc);
    var c := multiset{Accessible(b, loc).value};
    if loc.Tableau? {
      PopFromPiles(b.tableau, loc.column);
    } else if loc.FreeCell? {
      CellCardsUpdate(b.freeCells, loc.index, None);
    } else {
      PopFromPiles(b.foundations, loc.index);
    }
    ZoneSum(multiset(Flatten(b.tableau)), CellCards(b.freeCells), multiset(Flatten(b.foundations)),
            multiset(Flatten(r.tableau)), CellCards(r.freeCells), multiset(Flatten(r.foundations)), c);
  }

  /** Placing a card adds exactly that card, unless it lands on an occupied free cell. */
  lemma PlaceConserves(b: Board, loc: Location, card: Card)
    requires WellFormed(b) && ValidLocation(loc)
    requires loc.FreeCell? ==> b.freeCells[loc.index].None?
    ensures CardsOn(Place(b, loc, card)) == CardsOn(b) + multiset{card}
  {
    var r := Place(b, loc, card);
    if loc.Tableau? {
      PushOntoPiles(b.tableau, loc.column, card);
    } else if loc.FreeCell? {
      CellCardsUpdate(b.freeCells, loc.index, Some(card));
    } else {
      PushOntoPiles(b.foundations, loc.index, card);
    }
    ZoneSum(multiset(Flatten(r.tableau)), CellCards(r.freeCells), multiset(Flatten(r.foundations)),
            multiset(Flatten(b.tableau)), CellCards(b.freeCells), multiset(Flatten(b.foundations)), multiset{card});
  }

  /** A board with no tableau cards has an empty flattened tableau, and back. */
  lemma {:induction false} FlattenEmpty(piles: seq<seq<Card>>)
    ensures Flatten(piles) == [] <==> forall k :: 0 <= k < |piles| ==> piles[k] == []
    decreases |piles|
  {
    if |piles| > 0 {
      var n := |piles| - 1;
      FlattenEmpty(piles[..n]);
      assert forall k :: 0 <= k < n ==> piles[..n][k] == piles[k];
    }
  }

  /** The free cells hold no card exactly when every cell is empty. */
  lemma {:induction false} CellCardsEmpty(cells: seq<Option<Card>>)
    ensures CellCards(cells) == multiset{} <==> forall i :: 0 <= i < |cells| ==> cells[i].None?
    decreases |cells|
  {
    if |cells| > 0 {
      var n := |cells| - 1;
      CellCardsEmpty(cells[..n]);
      assert forall k :: 0 <= k < n ==> cells[..n][k] == cells[k];
    }
  }
}
