/**
  Move legality: the run detector used when a tableau card is picked up, the
  free-capacity formula, the sequence validator used when a selection is
  dropped, and the single-card validator used by the hint scan.
 */
module Rules {
  import opened Wrappers
  import opened Cards
  import opened Layout

  /** Each card may be stacked on the one before it. */
  predicate IsRun(run: seq<Card>) {
    forall k :: 0 < k < |run| ==> Follows(run[k - 1], run[k])
  }

  /** One past the last card of the run that starts at row `i`. */
  function RunEnd(col: seq<Card>, i: nat): (e: nat)
    requires i < |col|
    ensures i < e <= |col|
    ensures forall k :: i < k < e ==> Follows(col[k - 1], col[k])
    ensures e < |col| ==> !Follows(col[e - 1], col[e])
    decreases |col| - i
  {
    if i + 1 < |col| && Follows(col[i], col[i + 1]) then RunEnd(col, i + 1) else i + 1
  }

  /**
    The run picked up by a click on row `start`: empty when the row is past the
    column's end, otherwise the cards from `start` on, up to the first card that
    does not follow its predecessor. The run need not reach the column's top.
   */
  function GetValidSequence(col: seq<Card>, start: nat): (run: seq<Card>)
    ensures run == [] <==> start >= |col|
    ensures start < |col| ==>
      && start + |run| <= |col|
      && run == col[start..start + |run|]
      && run[0] == col[start]
      && IsRun(run)
      && (start + |run| == |col| || !Follows(col[start + |run| - 1], col[start + |run|]))
  {
    if start >= |col| then [] else col[start..RunEnd(col, start)]
  }

  /** The runs starting at `start` are exactly the prefixes of the detected run: it is the maximal one. */
  lemma ValidSequenceIsLongest(col: seq<Card>, start: nat, e: nat)
    requires start < e <= |col|
    ensures IsRun(col[start..e]) <==> e <= start + |GetValidSequence(col, start)|
  {
    var run := GetValidSequence(col, start);
    var n := start + |run|;
    var r := col[start..e];
    if e <= n {
      forall k | 0 < k < |r|
        ensures Follows(r[k - 1], r[k])
      {
        assert r[k - 1] == run[k - 1] && r[k] == run[k];
      }
    } else {
      var k := n - start;
      assert r[k - 1] == col[n - 1] && r[k] == col[n];
      assert !Follows(r[k - 1], r[k]);
    }
  }

  /** No element of `s` satisfies `p`. */
  predicate NoneSatisfy<T>(s: seq<T>, p: T -> bool) {
    forall i :: 0 <= i < |s| ==> !p(s[i])
  }

  /** Every element of `s` satisfies `p`. */
  predicate AllSatisfy<T>(s: seq<T>, p: T -> bool) {
    forall i :: 0 <= i < |s| ==> p(s[i])
  }

  /** Number of elements satisfying `p`, as `filter(p).length` counts them. */
  function CountWhere<T>(s: seq<T>, p: T -> bool): (n: nat)
    ensures n <= |s|
    decreases |s|
  {
    if |s| == 0 then 0
    else
      var m := |s| - 1;
      CountWhere(s[..m], p) + (if p(s[m]) then 1 else 0)
  }

  /** The count is zero exactly when nothing satisfies `p`, and full exactly when everything does. */
  lemma {:induction false} CountWhereExtremes<T>(s: seq<T>, p: T -> bool)
    ensures CountWhere(s, p) == 0 <==> NoneSatisfy(s, p)
    ensures CountWhere(s, p) == |s| <==> AllSatisfy(s, p)
    decreases |s|
  {
    if |s| > 0 {
      var m := |s| - 1;
      CountWhereExtremes(s[..m], p);
      assert forall i :: 0 <= i < m ==> s[..m][i] == s[i];
    }
  }

  /** Changing one element from failing `p` to satisfying it raises the count by one. */
  lemma CountWhereUpdate<T>(s: seq<T>, p: T -> bool, k: nat, v: T)
    requires k < |s| && !p(s[k]) && p(v)
    ensures CountWhere(s[k := v], p) == CountWhere(s, p) + 1
  {
    var front, back := s[..k], s[k + 1..];
    assert s == front + [s[k]] + back;
    assert s[k := v] == front + [v] + back;
    CountWhereAppend(front + [s[k]], back, p);
    CountWhereAppend(front, [s[k]], p);
    CountWhereAppend(front + [v], back, p);
    CountWhereAppend(front, [v], p);
    CountWhereLast([s[k]], p);
    CountWhereLast([v], p);
  }

  /** Counting the last element separately. */
  lemma CountWhereLast<T>(s: seq<T>, p: T -> bool)
    requires |s| > 0
    ensures CountWhere(s, p) == CountWhere(s[..|s| - 1], p) + (if p(s[|s| - 1]) then 1 else 0)
  {
  }

  /** The count over a concatenation is the sum of the counts. */
  lemma {:induction false} CountWhereAppend<T>(a: seq<T>, b: seq<T>, p: T -> bool)
    ensures CountWhere(a + b, p) == CountWhere(a, p) + CountWhere(b, p)
    decreases |b|
  {
    if |b| == 0 {
      assert a + b == a;
    } else {
      var n := |b| - 1;
      CountWhereAppend(a, b[..n], p);
      assert (a + b)[..|a + b| - 1] == a + b[..n];
      CountWhereLast(a + b, p);
      CountWhereLast(b, p);
    }
  }

  function Pow2(n: nat): (p: nat)
    ensures p >= 1
  {
    if n == 0 then 1 else 2 * Pow2(n - 1)
  }

  lemma {:induction false} Pow2Monotone(m: nat, n: nat)
    requires m <= n
    ensures Pow2(m) <= Pow2(n)
    decreases n
  {
    if m < n {
      Pow2Monotone(m, n - 1);
    }
  }

  predicate IsEmptyCell(cell: Option<Card>) {
    cell.None?
  }

  predicate IsEmptyColumn(col: seq<Card>) {
    |col| == 0
  }

  function EmptyCellCount(b: Board): (r: nat) {
    CountWhere(b.freeCells, IsEmptyCell)
  }

  /** Counted on the board as it stands, so an empty target column counts too. */
  function EmptyColumnCount(b: Board): (r: nat) {
    CountWhere(b.tableau, IsEmptyColumn)
  }

  /** (1 + empty free cells) × 2^(empty columns): the longest run a tableau drop accepts. */
  function MaxMovable(b: Board): (m: nat)
    requires WellFormed(b)
    ensures 1 <= m <= (1 + CellCount) * Pow2(ColumnCount)
  {
    var cells, cols := EmptyCellCount(b), EmptyColumnCount(b);
    Pow2Monotone(cols, ColumnCount);
    MultiplyMonotone(1 + cells, Pow2(cols), 1 + CellCount, Pow2(ColumnCount));
    (1 + cells) * Pow2(cols)
  }

  lemma MultiplyMonotone(a: nat, b: nat, c: nat, d: nat)
    requires 1 <= a <= c && 1 <= b <= d
    ensures 1 <= a * b <= c * d
  {
    assert a * b <= c * b <= c * d;
  }

  /** Emptying one more column doubles the capacity. */
  lemma EmptyColumnDoublesCapacity(b: Board, k: nat)
    requires WellFormed(b) && k < ColumnCount && |b.tableau[k]| > 0
    ensures MaxMovable(b.(tableau := b.tableau[k := []])) == 2 * MaxMovable(b)
  {
    var b' := b.(tableau := b.tableau[k := []]);
    CountWhereUpdate(b.tableau, IsEmptyColumn, k, []);
    var cells, cols := EmptyCellCount(b), EmptyColumnCount(b);
    assert EmptyColumnCount(b') == cols + 1;
    assert EmptyCellCount(b') == cells;
    assert Pow2(cols + 1) == 2 * Pow2(cols);
    Doubling(1 + cells, Pow2(cols));
  }

  lemma Doubling(a: nat, p: nat)
    ensures a * (2 * p) == 2 * (a * p)
  {
  }

  /** Freeing one more cell adds one unit of 2^(empty columns) to the capacity. */
  lemma FreeCellRaisesCapacity(b: Board, i: nat)
    requires WellFormed(b) && i < CellCount && b.freeCells[i].Some?
    ensures MaxMovable(b.(freeCells := b.freeCells[i := None])) == MaxMovable(b) + Pow2(EmptyColumnCount(b))
  {
    var b' := b.(freeCells := b.freeCells[i := None]);
    CountWhereUpdate(b.freeCells, IsEmptyCell, i, None);
    var cells, cols := EmptyCellCount(b), EmptyColumnCount(b);
    assert EmptyCellCount(b') == cells + 1;
    assert EmptyColumnCount(b') == cols;
    assert (1 + (cells + 1)) * Pow2(cols) == (1 + cells) * Pow2(cols) + Pow2(cols);
  }

  /** Counting an appended element. */
  lemma CountWhereSnoc<T>(s: seq<T>, x: T, p: T -> bool)
    ensures CountWhere(s + [x], p) == CountWhere(s, p) + (if p(x) then 1 else 0)
  {
    assert (s + [x])[..|s|] == s;
  }

  /** Counting over a four-element sequence, one element at a time. */
  lemma CountFour<T>(w: T, x: T, y: T, z: T, p: T -> bool)
    ensures CountWhere([w, x, y, z], p)
            == (if p(w) then 1 else 0) + (if p(x) then 1 else 0) + (if p(y) then 1 else 0) + (if p(z) then 1 else 0)
  {
    var s0: seq<T> := [];
    CountWhereSnoc(s0, w, p);
    CountWhereSnoc([w], x, p);
    CountWhereSnoc([w, x], y, p);
    CountWhereSnoc([w, x, y], z, p);
    assert s0 + [w] == [w];
    assert [w] + [x] == [w, x];
    assert [w, x] + [y] == [w, x, y];
    assert [w, x, y] + [z] == [w, x, y, z];
  }

  lemma TwoEmptyCells(a: Card, b: Card)
    ensures CountWhere([None, Some(a), None, Some(b)], IsEmptyCell) == 2
  {
    CountFour(None, Some(a), None, Some(b), IsEmptyCell);
  }

  lemma OneEmptyColumn(col: seq<Card>)
    requires |col| > 0
    ensures CountWhere([col, col, col, [], col, col, col, col], IsEmptyColumn) == 1
  {
    var s3 := [col, col, col];
    var s4 := s3 + [[]];
    var s5 := s4 + [col];
    var s6 := s5 + [col];
    var s7 := s6 + [col];
    var s8 := s7 + [col];
    assert CountWhere(s3, IsEmptyColumn) == 0 by {
      CountWhereExtremes(s3, IsEmptyColumn);
    }
    assert CountWhere(s4, IsEmptyColumn) == 1 by {
      CountWhereSnoc(s3, [], IsEmptyColumn);
    }
    assert CountWhere(s5, IsEmptyColumn) == 1 by {
      CountWhereSnoc(s4, col, IsEmptyColumn);
    }
    assert CountWhere(s6, IsEmptyColumn) == 1 by {
      CountWhereSnoc(s5, col, IsEmptyColumn);
    }
    assert CountWhere(s7, IsEmptyColumn) == 1 by {
      CountWhereSnoc(s6, col, IsEmptyColumn);
    }
    assert CountWhere(s8, IsEmptyColumn) == 1 by {
      CountWhereSnoc(s7, col, IsEmptyColumn);
    }
    assert s8 == [col, col, col, [], col, col, col, col];
  }

  /** Two empty free cells and one empty column give (1 + 2) × 2^1 = 6. */
  lemma CapacityExample(a: Card, b: Card, col: seq<Card>)
    requires |col| > 0
    ensures MaxMovable(Board([col, col, col, [], col, col, col, col], [None, Some(a), None, Some(b)], [[], [], [], []], 0)) == 6
  {
    TwoEmptyCells(a, b);
    OneEmptyColumn(col);
  }

  /**
    The empty-column count is taken before the move, so dropping onto an
    empty column still counts that column: the limit is at least doubled.
   */
  lemma EmptyTargetCounted(b: Board, t: nat)
    requires WellFormed(b) && t < ColumnCount && b.tableau[t] == []
    ensures MaxMovable(b) >= 2 * (1 + EmptyCellCount(b))
  {
    var cells, cols := EmptyCellCount(b), EmptyColumnCount(b);
    assert cols >= 1 by {
      CountWhereExtremes(b.tableau, IsEmptyColumn);
      assert IsEmptyColumn(b.tableau[t]);
    }
    Pow2Monotone(1, cols);
    MultiplyMonotone(1 + cells, 2, 1 + cells, Pow2(cols));
  }

  /**
    The validator run when a selection is dropped. Free cells and foundations
    take any single card: neither occupancy nor suit is looked at.
   */
  function CanMoveSequence(b: Board, run: seq<Card>, target: Location): (ok: bool)
    requires WellFormed(b) && ValidLocation(target)
    ensures |run| == 0 ==> !ok
    ensures !target.Tableau? ==> (ok <==> |run| == 1)
    ensures target.Tableau? && |run| > MaxMovable(b) ==> !ok
    ensures target.Tableau? && 0 < |run| <= MaxMovable(b) ==>
      (ok <==> (b.tableau[target.column] == [] || Follows(Top(b.tableau[target.column]), run[0])))
  {
    if |run| == 0 then false
    else if !target.Tableau? then |run| == 1
    else if |run| > MaxMovable(b) then false
    else
      var col := b.tableau[target.column];
      if |col| == 0 then true
      else
        var first, top := run[0], col[|col| - 1];
        first.Value() == top.Value() - 1 && first.Color() != top.Color()
  }

  /** The single-card validator, used only by the hint scan. */
  function CanMove(b: Board, card: Card, target: Location): (ok: bool)
    requires WellFormed(b) && ValidLocation(target)
    ensures target.Foundation? && b.foundations[target.index] == [] ==> (ok <==> card.rank == Ace)
    ensures target.Foundation? && b.foundations[target.index] != [] ==>
      (ok <==> card.suit == Top(b.foundations[target.index]).suit
               && card.rank != Ace
               && Ranks[card.Value() - 2] == Top(b.foundations[target.index]).rank)
    ensures target.Tableau? ==>
      (ok <==> (b.tableau[target.column] == [] || Follows(Top(b.tableau[target.column]), card)))
    ensures target.FreeCell? ==> (ok <==> b.freeCells[target.index].None?)
  {
    match target
    case Foundation(i) =>
      var pile := b.foundations[i];
      if |pile| == 0 then card.Value() == 1
      else
        var top := pile[|pile| - 1];
        RankStep(card, top);
        card.suit == top.suit && card.Value() == top.Value() + 1
    case Tableau(c) =>
      var col := b.tableau[c];
      if |col| == 0 then true
      else
        var top := col[|col| - 1];
        card.Value() == top.Value() - 1
        && ((card.Color() == Red && top.Color() == Black) || (card.Color() == Black && top.Color() == Red))
    case FreeCell(i) =>
      b.freeCells[i] == None
  }

  /** A card's value is one above another's exactly when its rank is the next in `Ranks`. */
  lemma RankStep(card: Card, below: Card)
    ensures card.Value() == below.Value() + 1 <==> card.rank != Ace && Ranks[card.Value() - 2] == below.rank
  {
    if card.rank != Ace && Ranks[card.Value() - 2] == below.rank {
      ValueInverse(card.Value() - 2);
      assert Card(Hearts, below.rank).Value() == below.Value();
    }
  }

  /** Every single-card move the hint scan would allow is also accepted on drop. */
  lemma CanMoveImpliesDropAccepted(b: Board, card: Card, target: Location)
    requires WellFormed(b) && ValidLocation(target)
    requires CanMove(b, card, target)
    ensures CanMoveSequence(b, [card], target)
  {
  }

  /** For tableau targets the two validators agree on single cards. */
  lemma ValidatorsAgreeOnColumns(b: Board, card: Card, column: nat)
    requires WellFormed(b) && column < ColumnCount
    ensures CanMoveSequence(b, [card], Tableau(column)) <==> CanMove(b, card, Tableau(column))
  {
  }

  /** A drop onto an occupied free cell is accepted although the single-card rule rejects it. */
  lemma DropIgnoresOccupiedCell(b: Board, card: Card, i: nat)
    requires WellFormed(b) && i < CellCount && b.freeCells[i].Some?
    ensures CanMoveSequence(b, [card], FreeCell(i))
    ensures !CanMove(b, card, FreeCell(i))
  {
  }

  /** A drop onto a foundation is accepted for any single card, for example a King on an empty pile. */
  lemma DropIgnoresFoundationRule(b: Board, i: nat)
    requires WellFormed(b) && i < FoundationCount && b.foundations[i] == []
    ensures CanMoveSequence(b, [Card(Spades, King)], Foundation(i))
    ensures !CanMove(b, Card(Spades, King), Foundation(i))
  {
  }
}
