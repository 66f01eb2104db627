/**
  Win detection and the one-step hint: the first column top, then the first
  free-cell card, that some foundation accepts.
 */
module Evaluate {
  import opened Wrappers
  import opened Cards
  import opened Layout
  import opened Rules
  import opened Deck

  /** Number of cards on the foundation piles, summed pile by pile. */
  function FoundationTotal(piles: seq<seq<Card>>): (n: nat)
    ensures n == |Flatten(piles)|
    decreases |piles|
  {
    if |piles| == 0 then 0 else FoundationTotal(piles[..|piles| - 1]) + |piles[|piles| - 1]|
  }

  /** The win check: the foundations hold exactly 52 cards between them. */
  function IsWon(b: Board): (won: bool)
    ensures won <==> |Flatten(b.foundations)| == DeckSize
  {
    FoundationTotal(b.foundations) == DeckSize
  }

  /** The size of a board's card multiset is the sum of its three zones. */
  lemma CardsOnSize(b: Board)
    ensures |CardsOn(b)| == |Flatten(b.tableau)| + |CellCards(b.freeCells)| + |Flatten(b.foundations)|
  {
  }

  /**
    On a board holding the whole deck, the game is won exactly when every
    column and every free cell is empty.
   */
  lemma WonIffTableauAndCellsEmpty(b: Board)
    requires WellFormed(b) && CardsOn(b) == multiset(FullDeck())
    ensures IsWon(b) <==>
      && (forall c :: 0 <= c < ColumnCount ==> b.tableau[c] == [])
      && (forall i :: 0 <= i < CellCount ==> b.freeCells[i].None?)
  {
    FlattenEmpty(b.tableau);
    CellCardsEmpty(b.freeCells);
    CardsOnSize(b);
    assert |multiset(FullDeck())| == DeckSize;
  }

  /** A card some foundation accepts, where it lies, and the first such foundation. */
  datatype Hint = Hint(card: Card, from: Location, foundation: nat)

  const ScanLength: nat := ColumnCount + CellCount

  /** The hint scan's order of sources: column tops 0..7, then free cells 0..3. */
  function ScanSource(k: nat): (loc: Location)
    requires k < ScanLength
    ensures ValidLocation(loc)
  {
    if k < ColumnCount then Tableau(k) else FreeCell(k - ColumnCount)
  }

  /** Inverse of `ScanSource`. */
  function ScanPosition(loc: Location): (r: nat) {
    match loc
    case Tableau(c) => c
    case FreeCell(i) => ColumnCount + i
    case Foundation(_) => ScanLength
  }

  /** Source `k` offers a card and foundation `f` accepts it. */
  predicate Qualifies(b: Board, k: nat, f: nat)
    requires WellFormed(b) && k < ScanLength && f < FoundationCount
  {
    var offered := Accessible(b, ScanSource(k));
    offered.Some? && CanMove(b, offered.value, Foundation(f))
  }

  /** `(k, f)` is met before `(k', f')`: sources outer, foundations inner. */
  predicate Before(k: nat, f: nat, k': nat, f': nat) {
    k < k' || (k == k' && f < f')
  }

  /** The hint as the scan finds it from source `k` on. */
  ghost predicate FirstFrom(b: Board, k: nat, h: Option<Hint>)
    requires WellFormed(b)
  {
    match h
    case None =>
      forall k', f :: k <= k' < ScanLength && 0 <= f < FoundationCount ==> !Qualifies(b, k', f)
    case Some(hint) =>
      var p := ScanPosition(hint.from);
      && k <= p < ScanLength
      && ScanSource(p) == hint.from
      && hint.foundation < FoundationCount
      && Accessible(b, hint.from) == Some(hint.card)
      && Qualifies(b, p, hint.foundation)
      && forall k', f :: k <= k' < ScanLength && 0 <= f < FoundationCount && Before(k', f, p, hint.foundation) ==> !Qualifies(b, k', f)
  }

  /** The first foundation from `f` on that accepts `card`. */
  function FirstFoundation(b: Board, card: Card, f: nat): (r: Option<nat>)
    requires WellFormed(b) && f <= FoundationCount
    ensures r.Some? ==> f <= r.value < FoundationCount && CanMove(b, card, Foundation(r.value))
    ensures r.Some? ==> forall g :: f <= g < r.value ==> !CanMove(b, card, Foundation(g))
    ensures r.None? ==> forall g :: f <= g < FoundationCount ==> !CanMove(b, card, Foundation(g))
    decreases FoundationCount - f
  {
    if f == FoundationCount then None
    else if CanMove(b, card, Foundation(f)) then Some(f)
    else FirstFoundation(b, card, f + 1)
  }

  /** Hint from the scan position `k` on, with `card` offered there. */
  function HintAt(b: Board, k: nat, card: Card, next: Option<Hint>): (h: Option<Hint>)
    requires WellFormed(b) && k < ScanLength
    requires Accessible(b, ScanSource(k)) == Some(card)
    requires FirstFrom(b, k + 1, next)
    ensures FirstFrom(b, k, h)
  {
    match FirstFoundation(b, card, 0)
    case Some(f) =>
      FoundHere(b, k, card, f);
      Some(Hint(card, ScanSource(k), f))
    case None =>
      Skip(b, k, next);
      next
  }

  /** A source whose card some foundation accepts is the hint, with the first such foundation. */
  lemma FoundHere(b: Board, k: nat, card: Card, f: nat)
    requires WellFormed(b) && k < ScanLength
    requires Accessible(b, ScanSource(k)) == Some(card)
    requires FirstFoundation(b, card, 0) == Some(f)
    ensures FirstFrom(b, k, Some(Hint(card, ScanSource(k), f)))
  {
    assert ScanPosition(ScanSource(k)) == k;
    forall k', f' | k <= k' < ScanLength && 0 <= f' < FoundationCount && Before(k', f', k, f)
      ensures !Qualifies(b, k', f')
    {
      assert k' == k && f' < f;
    }
  }

  /** A source no foundation accepts from leaves the scan's answer unchanged. */
  lemma Skip(b: Board, k: nat, next: Option<Hint>)
    requires WellFormed(b) && k < ScanLength
    requires forall f :: 0 <= f < FoundationCount ==> !Qualifies(b, k, f)
    requires FirstFrom(b, k + 1, next)
    ensures FirstFrom(b, k, next)
  {
  }

  /** The free-cell half of the scan, from cell `i` on. */
  function ScanCells(b: Board, i: nat): (h: Option<Hint>)
    requires WellFormed(b) && i <= CellCount
    ensures FirstFrom(b, ColumnCount + i, h)
    decreases CellCount - i
  {
    if i == CellCount then None
    else
      match b.freeCells[i]
      case Some(card) => HintAt(b, ColumnCount + i, card, ScanCells(b, i + 1))
      case None =>
        var rest := ScanCells(b, i + 1);
        Skip(b, ColumnCount + i, rest);
        rest
  }

  /** The column half of the scan, from column `c` on, falling through to the free cells. */
  function ScanColumns(b: Board, c: nat): (h: Option<Hint>)
    requires WellFormed(b) && c <= ColumnCount
    ensures FirstFrom(b, c, h)
    decreases ColumnCount - c
  {
    if c == ColumnCount then ScanCells(b, 0)
    else
      var col := b.tableau[c];
      if |col| > 0 then HintAt(b, c, col[|col| - 1], ScanColumns(b, c + 1))
      else
        var rest := ScanColumns(b, c + 1);
        Skip(b, c, rest);
        rest
  }

  /**
    The hint: the first (source, foundation) pair in scan order whose card
    `CanMove` accepts, or none when no pair qualifies.
   */
  function ShowHint(b: Board): (h: Option<Hint>)
    requires WellFormed(b)
    ensures h.None? <==> forall k, f :: 0 <= k < ScanLength && 0 <= f < FoundationCount ==> !Qualifies(b, k, f)
    ensures h.Some? ==>
      && ScanPosition(h.value.from) < ScanLength
      && ScanSource(ScanPosition(h.value.from)) == h.value.from
      && Accessible(b, h.value.from) == Some(h.value.card)
      && h.value.foundation < FoundationCount
      && CanMove(b, h.value.card, Foundation(h.value.foundation))
      && forall k, f :: 0 <= k < ScanLength && 0 <= f < FoundationCount ==>
           (Before(k, f, ScanPosition(h.value.from), h.value.foundation) ==> !Qualifies(b, k, f))
  {
    var h := ScanColumns(b, 0);
    if h.Some? then
      assert Qualifies(b, ScanPosition(h.value.from), h.value.foundation);
      h
    else
      h
  }
}
