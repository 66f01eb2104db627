/**
  Move execution and undo history. Every executor first pushes a snapshot of
  the board onto a history bounded at ten entries, oldest evicted first.
 */
module Moves {
  import opened Wrappers
  import opened Cards
  import opened Layout

  const HistoryLimit: nat := 10

  /**
    The second move counter bumped by multi-card moves. It is never given a
    starting value, so its first increment turns it into NaN, where it stays.
   */
  datatype Tally = Unset | NotANumber

  datatype Game = Game(board: Board, history: seq<Board>, moves: Tally)

  /** A picked-up run and the pile it was picked up from. */
  datatype Selection = Selection(source: Location, run: seq<Card>)

  /** Pushes a snapshot, then evicts the oldest entry if the history grew past its limit. */
  function SaveState(history: seq<Board>, snapshot: Board): (h: seq<Board>)
    ensures |h| == if |history| < HistoryLimit then |history| + 1 else |history|
    ensures h[|h| - 1] == snapshot
    ensures h[..|h| - 1] == history[|history| + 1 - |h|..]
    ensures |history| <= HistoryLimit ==> |h| <= HistoryLimit
  {
    var pushed := history + [snapshot];
    if |pushed| > HistoryLimit then pushed[1..] else pushed
  }

  /** Snapshots saved one after another, oldest first. */
  function SaveAll(history: seq<Board>, snapshots: seq<Board>): (r: seq<Board>)
    decreases |snapshots|
  {
    if |snapshots| == 0 then history else SaveAll(SaveState(history, snapshots[0]), snapshots[1..])
  }

  /** How many of the oldest entries a bounded history of `n` pushes has lost. */
  function Evicted(n: nat): (r: nat) {
    if n > HistoryLimit then n - HistoryLimit else 0
  }

  /** After any series of saves the history holds exactly the ten most recent snapshots. */
  lemma {:induction false} HistoryKeepsLastTen(history: seq<Board>, snapshots: seq<Board>)
    requires |history| <= HistoryLimit
    ensures SaveAll(history, snapshots) == (history + snapshots)[Evicted(|history| + |snapshots|)..]
    decreases |snapshots|
  {
    if |snapshots| == 0 {
      assert history + snapshots == history;
    } else {
      var all := history + snapshots;
      var h1 := SaveState(history, snapshots[0]);
      var rest := snapshots[1..];
      var d1 := Evicted(|history| + 1);
      var e := Evicted(|h1| + |rest|);
      assert |h1| == |history| + 1 - d1 && d1 + e == Evicted(|history| + |snapshots|);
      assert SaveAll(h1, rest) == (h1 + rest)[e..] by {
        HistoryKeepsLastTen(h1, rest);
      }
      assert h1 + rest == all[d1..] by {
        FirstSaveSplits(history, snapshots);
      }
      assert all[d1..][e..] == all[d1 + e..] by {
        SliceTwice(all, d1, e);
      }
    }
  }

  lemma FirstSaveSplits(history: seq<Board>, snapshots: seq<Board>)
    requires |history| <= HistoryLimit && |snapshots| > 0
    ensures SaveState(history, snapshots[0]) + snapshots[1..] == (history + snapshots)[Evicted(|history| + 1)..]
  {
    var pushed := history + [snapshots[0]];
    var d := Evicted(|history| + 1);
    assert SaveState(history, snapshots[0]) == pushed[d..];
    assert pushed[d..] + snapshots[1..] == (pushed + snapshots[1..])[d..];
    assert pushed + snapshots[1..] == history + snapshots;
  }

  lemma SliceTwice(s: seq<Board>, a: nat, b: nat)
    requires a + b <= |s|
    ensures s[a..][b..] == s[a + b..]
  {
  }

  /** One save past the limit: the oldest entry can no longer be reached. */
  lemma EleventhSaveEvictsFirst(history: seq<Board>, snapshots: seq<Board>)
    requires |history| <= HistoryLimit && |history| + |snapshots| == HistoryLimit + 1
    ensures SaveAll(history, snapshots) == (history + snapshots)[1..]
  {
    HistoryKeepsLastTen(history, snapshots);
  }

  /**
    The single-card executor: snapshot, take from the source's accessible end,
    place at the target, count the move. Which card is taken is not checked
    against `card`.
   */
  function MakeMove(g: Game, card: Card, source: Location, target: Location): (r: Game)
    requires WellFormed(g.board) && ValidLocation(source) && ValidLocation(target)
    ensures WellFormed(r.board)
    ensures r.history == SaveState(g.history, g.board)
    ensures r.moves == g.moves
    ensures r.board.moveCount == g.board.moveCount + 1
    ensures Accessible(r.board, target) == Some(card)
    ensures source != target ==> Contents(r.board, source) == Pop(Contents(g.board, source))
    ensures Contents(r.board, target) == Arrival(Contents(g.board, target), source == target, target.FreeCell?, card)
    ensures forall loc :: ValidLocation(loc) && loc != source && loc != target ==> Contents(r.board, loc) == Contents(g.board, loc)
  {
    var placed := Place(Take(g.board, source), target, card);
    TakeThenPlace(g.board, card, source, target);
    var counted := placed.(moveCount := g.board.moveCount + 1);
    Recount(placed, g.board.moveCount + 1);
    Game(counted, SaveState(g.history, g.board), g.moves)
  }

  /**
    What a target pile holds after a one-card move lands `card` on it: a free
    cell holds just the card; a pile gets the card pushed, after its own top was
    popped when it was also the source.
   */
  function Arrival(pile: seq<Card>, alsoSource: bool, isCell: bool, card: Card): (r: seq<Card>)
    ensures |r| > 0 && r[|r| - 1] == card
  {
    if isCell then [card] else (if alsoSource then Pop(pile) else pile) + [card]
  }

  /** Setting the move counter changes no pile. */
  lemma Recount(b: Board, n: nat)
    requires WellFormed(b)
    ensures WellFormed(b.(moveCount := n))
    ensures forall loc :: ValidLocation(loc) ==>
      && Contents(b.(moveCount := n), loc) == Contents(b, loc)
      && Accessible(b.(moveCount := n), loc) == Accessible(b, loc)
  {
    var c := b.(moveCount := n);
    assert c.tableau == b.tableau && c.freeCells == b.freeCells && c.foundations == b.foundations;
  }

  /** What taking from `source` and then placing at `target` does to every pile. */
  lemma TakeThenPlace(b: Board, card: Card, source: Location, target: Location)
    requires WellFormed(b) && ValidLocation(source) && ValidLocation(target)
    ensures var r := Place(Take(b, source), target, card);
      && WellFormed(r) && r.moveCount == b.moveCount
      && Accessible(r, target) == Some(card)
      && (source != target ==> Contents(r, source) == Pop(Contents(b, source)))
      && Contents(r, target) == Arrival(Contents(b, target), source == target, target.FreeCell?, card)
      && forall loc :: ValidLocation(loc) && loc != source && loc != target ==> Contents(r, loc) == Contents(b, loc)
  {
  }

  /** Array pop applied `n` times: extra pops on an empty pile do nothing. */
  function PopN(pile: seq<Card>, n: nat): (r: seq<Card>)
    ensures r == pile[..if n <= |pile| then |pile| - n else 0]
    decreases n
  {
    if n == 0 then pile else PopN(Pop(pile), n - 1)
  }

  /**
    The executor a drop calls. A one-card run goes through `MakeMove`, which
    snapshots a second time; a longer run between two columns pops that many
    cards off the source column, appends the run to the target column and bumps
    the uninitialised tally instead of the move counter; any other longer run
    only leaves its snapshot behind.
   */
  function MakeSequenceMove(g: Game, sel: Selection, target: Location): (r: Game)
    requires WellFormed(g.board) && ValidLocation(sel.source) && ValidLocation(target)
    ensures WellFormed(r.board)
    ensures |sel.run| == 1 ==>
      && r.history == SaveState(SaveState(g.history, g.board), g.board)
      && r.board.moveCount == g.board.moveCount + 1
      && r.moves == g.moves
      && Accessible(r.board, target) == Some(sel.run[0])
      && (sel.source != target ==> Contents(r.board, sel.source) == Pop(Contents(g.board, sel.source)))
      && Contents(r.board, target) == Arrival(Contents(g.board, target), sel.source == target, target.FreeCell?, sel.run[0])
      && forall loc :: ValidLocation(loc) && loc != sel.source && loc != target ==> Contents(r.board, loc) == Contents(g.board, loc)
    ensures |sel.run| != 1 ==> r.history == SaveState(g.history, g.board) && r.board.moveCount == g.board.moveCount
    ensures |sel.run| != 1 && !(sel.source.Tableau? && target.Tableau?) ==> r.board == g.board && r.moves == g.moves
    ensures |sel.run| != 1 && sel.source.Tableau? && target.Tableau? ==>
      && r.moves == NotANumber
      && r.board.freeCells == g.board.freeCells
      && r.board.foundations == g.board.foundations
      && (sel.source != target ==>
            && r.board.tableau[sel.source.column] == PopN(g.board.tableau[sel.source.column], |sel.run|)
            && r.board.tableau[target.column] == g.board.tableau[target.column] + sel.run)
      && (sel.source == target ==>
            r.board.tableau[target.column] == PopN(g.board.tableau[target.column], |sel.run|) + sel.run)
      && forall c :: 0 <= c < ColumnCount && c != sel.source.column && c != target.column ==>
           r.board.tableau[c] == g.board.tableau[c]
  {
    var saved := g.(history := SaveState(g.history, g.board));
    if |sel.run| == 1 then
      MakeMove(saved, sel.run[0], sel.source, target)
    else if sel.source.Tableau? && target.Tableau? then
      var from, to := sel.source.column, target.column;
      var popped := g.board.tableau[from := PopN(g.board.tableau[from], |sel.run|)];
      var pushed := popped[to := popped[to] + sel.run];
      saved.(board := g.board.(tableau := pushed), moves := NotANumber)
    else
      saved
  }

  /** Restores the most recent snapshot, move counter included; nothing to undo is a no-op. */
  function Undo(g: Game): (r: Game)
    ensures |g.history| == 0 ==> r == g
    ensures |g.history| > 0 ==>
      && r.board == g.history[|g.history| - 1]
      && r.history + [r.board] == g.history
      && r.moves == g.moves
  {
    if |g.history| == 0 then g
    else Game(g.history[|g.history| - 1], g.history[..|g.history| - 1], g.moves)
  }

  /** Undo right after any drop restores the board as it was before the drop. */
  lemma UndoRevertsMove(g: Game, sel: Selection, target: Location)
    requires WellFormed(g.board) && ValidLocation(sel.source) && ValidLocation(target)
    ensures Undo(MakeSequenceMove(g, sel, target)).board == g.board
  {
  }

  /**
    A one-card drop leaves two identical snapshots: the first undo restores the
    pre-move board, and the second restores it again. With the history nearly
    full, the second snapshot costs one more of the oldest entries.
   */
  lemma SingleCardMoveSnapshotsTwice(g: Game, sel: Selection, target: Location)
    requires WellFormed(g.board) && ValidLocation(sel.source) && ValidLocation(target)
    requires |sel.run| == 1
    ensures Undo(MakeSequenceMove(g, sel, target)).board == g.board
    ensures Undo(Undo(MakeSequenceMove(g, sel, target))).board == g.board
    ensures |g.history| + 2 <= HistoryLimit ==>
      Undo(MakeSequenceMove(g, sel, target)).history == SaveState(g.history, g.board)
  {
    var h1 := SaveState(g.history, g.board);
    var h2 := SaveState(h1, g.board);
    assert MakeSequenceMove(g, sel, target).history == h2;
    var kept := h2[..|h2| - 1];
    assert kept == h1[|h1| + 1 - |h2|..];
    assert kept[|kept| - 1] == g.board;
  }

  /**
    Where the cards go in a one-card move: the card at the source's accessible
    end (if any) leaves, `card` arrives, and an occupied free-cell target loses
    its occupant.
   */
  lemma MakeMoveCardFlow(g: Game, card: Card, source: Location, target: Location)
    requires WellFormed(g.board) && ValidLocation(source) && ValidLocation(target)
    ensures var taken := Take(g.board, source);
      var lost := if target.FreeCell? then CellContents(taken.freeCells[target.index]) else [];
      CardsOn(MakeMove(g, card, source, target).board) + multiset(CellContents(Accessible(g.board, source))) + multiset(lost)
        == CardsOn(g.board) + multiset{card}
  {
    var b := g.board;
    var taken := Take(b, source);
    var lost := if target.FreeCell? then CellContents(taken.freeCells[target.index]) else [];
    var placed := Place(taken, target, card);
    TakeFlow(b, source);
    PlaceFlow(taken, target, card);
    assert CardsOn(MakeMove(g, card, source, target).board) == CardsOn(placed);
    assert CardsOn(placed) + multiset(lost) == CardsOn(taken) + multiset{card};
    assert CardsOn(taken) + multiset(CellContents(Accessible(b, source))) == CardsOn(b);
    AddToBoth(CardsOn(placed), CardsOn(taken), multiset(lost), multiset{card}, multiset(CellContents(Accessible(b, source))));
  }

  /** Take, including the empty case where nothing leaves. */
  lemma TakeFlow(b: Board, loc: Location)
    requires WellFormed(b) && ValidLocation(loc)
    ensures CardsOn(Take(b, loc)) + multiset(CellContents(Accessible(b, loc))) == CardsOn(b)
  {
    if Accessible(b, loc).Some? {
      TakeConserves(b, loc);
    } else {
      match loc
      case Tableau(k) => assert b.tableau[k := Pop(b.tableau[k])] == b.tableau;
      case FreeCell(i) => assert b.freeCells[i := None] == b.freeCells;
      case Foundation(i) => assert b.foundations[i := Pop(b.foundations[i])] == b.foundations;
    }
  }

  /** Place, including the case where an occupied free cell loses its card. */
  lemma PlaceFlow(b: Board, loc: Location, card: Card)
    requires WellFormed(b) && ValidLocation(loc)
    ensures var lost := if loc.FreeCell? then CellContents(b.freeCells[loc.index]) else [];
      CardsOn(Place(b, loc, card)) + multiset(lost) == CardsOn(b) + multiset{card}
  {
    if loc.FreeCell? && b.freeCells[loc.index].Some? {
      OverwriteCell(b, loc.index, card);
    } else {
      PlaceConserves(b, loc, card);
    }
  }

  /** Setting an occupied free cell replaces its card. */
  lemma OverwriteCell(b: Board, i: nat, card: Card)
    requires WellFormed(b) && i < CellCount && b.freeCells[i].Some?
    ensures CardsOn(Place(b, FreeCell(i), card)) + multiset{b.freeCells[i].value} == CardsOn(b) + multiset{card}
  {
    var placed := Place(b, FreeCell(i), card);
    CellCardsUpdate(b.freeCells, i, Some(card));
    assert placed.freeCells == b.freeCells[i := Some(card)];
    CellSwap(multiset(Flatten(b.tableau)), CellCards(b.freeCells), CellCards(placed.freeCells),
             multiset(Flatten(b.foundations)), multiset{b.freeCells[i].value}, multiset{card});
  }

  /**
    Exchanging the free-cell zone's cards exchanges the board's. Kept apart from
    `OverwriteCell` so that the regrouping is done over plain multisets.
   */
  lemma CellSwap(t: multiset<Card>, c: multiset<Card>, c': multiset<Card>, f: multiset<Card>, out: multiset<Card>, into: multiset<Card>)
    requires c' + out == c + into
    ensures t + c' + f + out == t + c + f + into
  {
    AddToBoth(c', c, out, into, f);
    assert t + c' + f + out == t + (c' + f + out);
    assert t + c + f + into == t + (c + f + into);
  }

  /**
    A one-card move out of a non-empty column pops that column's top card,
    whichever card it moves.
   */
  lemma ColumnMoveFlow(g: Game, card: Card, c: nat, target: nat)
    requires WellFormed(g.board) && c < ColumnCount && target < ColumnCount
    requires |g.board.tableau[c]| > 0
    ensures CardsOn(MakeMove(g, card, Tableau(c), Tableau(target)).board) + multiset{Top(g.board.tableau[c])}
            == CardsOn(g.board) + multiset{card}
  {
    var after := CardsOn(MakeMove(g, card, Tableau(c), Tableau(target)).board);
    MakeMoveCardFlow(g, card, Tableau(c), Tableau(target));
    assert Accessible(g.board, Tableau(c)) == Some(Top(g.board.tableau[c]));
    assert after + multiset{Top(g.board.tableau[c])} + multiset([]) == CardsOn(g.board) + multiset{card};
  }

  /**
    Conservation for one-card moves: when the moved card is the one at the
    source's accessible end and the target is not an occupied free cell, the
    board holds the same cards afterwards.
   */
  lemma MakeMoveConserves(g: Game, source: Location, target: Location)
    requires WellFormed(g.board) && ValidLocation(source) && ValidLocation(target)
    requires Accessible(g.board, source).Some?
    requires target.FreeCell? && target != source ==> g.board.freeCells[target.index].None?
    ensures CardsOn(MakeMove(g, Accessible(g.board, source).value, source, target).board) == CardsOn(g.board)
  {
    var card := Accessible(g.board, source).value;
    MakeMoveCardFlow(g, card, source, target);
    var taken := Take(g.board, source);
    if target.FreeCell? {
      assert taken.freeCells[target.index].None?;
    }
    var after := CardsOn(MakeMove(g, card, source, target).board);
    assert after + multiset{card} == CardsOn(g.board) + multiset{card};
    Cancel(after, CardsOn(g.board), multiset{card});
  }

  /**
    Conservation for multi-card moves: when the run is exactly the top of the
    source column, the board holds the same cards afterwards.
   */
  lemma SequenceMoveConserves(g: Game, sel: Selection, target: Location)
    requires WellFormed(g.board) && ValidLocation(sel.source) && ValidLocation(target)
    requires sel.source.Tableau? && target.Tableau? && |sel.run| != 1
    requires var col := g.board.tableau[sel.source.column];
      |sel.run| <= |col| && col[|col| - |sel.run|..] == sel.run
    ensures CardsOn(MakeSequenceMove(g, sel, target).board) == CardsOn(g.board)
  {
    var t := g.board.tableau;
    var from, to := sel.source.column, target.column;
    var popped := t[from := PopN(t[from], |sel.run|)];
    var pushed := popped[to := popped[to] + sel.run];
    assert MakeSequenceMove(g, sel, target).board == g.board.(tableau := pushed);
    ColumnTransfer(t, from, to, sel.run);
  }

  /** Moving the run on top of one column onto another keeps the tableau's cards. */
  lemma ColumnTransfer(t: seq<seq<Card>>, from: nat, to: nat, run: seq<Card>)
    requires from < |t| && to < |t|
    requires |run| <= |t[from]| && t[from][|t[from]| - |run|..] == run
    ensures var popped := t[from := PopN(t[from], |run|)];
      multiset(Flatten(popped[to := popped[to] + run])) == multiset(Flatten(t))
  {
    var popped := t[from := PopN(t[from], |run|)];
    PopRun(t, from, run);
    PushRun(popped, to, run);
  }

  /** Popping the run off a column removes exactly the run's cards. */
  lemma PopRun(t: seq<seq<Card>>, from: nat, run: seq<Card>)
    requires from < |t|
    requires |run| <= |t[from]| && t[from][|t[from]| - |run|..] == run
    ensures multiset(Flatten(t[from := PopN(t[from], |run|)])) + multiset(run) == multiset(Flatten(t))
  {
    var rest := PopN(t[from], |run|);
    SplitAt(t[from], |t[from]| - |run|);
    FlattenUpdate(t, from, rest);
    DropCommon(multiset(Flatten(t[from := rest])), multiset(Flatten(t)), multiset(run), multiset(rest));
  }

  /** A pile's cards are those below position `k` plus those from `k` on. */
  lemma SplitAt(pile: seq<Card>, k: nat)
    requires k <= |pile|
    ensures multiset(pile) == multiset(pile[..k]) + multiset(pile[k..])
  {
    assert pile == pile[..k] + pile[k..];
  }

  /**
    `Cancel` after regrouping. Kept apart from `PopRun` and `PushRun` so that
    the regrouping is done over plain multisets.
   */
  lemma DropCommon(x: multiset<Card>, y: multiset<Card>, a: multiset<Card>, b: multiset<Card>)
    requires x + (b + a) == y + b
    ensures x + a == y
  {
    assert x + a + b == x + (b + a);
    Cancel(x + a, y, b);
  }

  /** Appending the run to a column adds exactly the run's cards. */
  lemma PushRun(t: seq<seq<Card>>, to: nat, run: seq<Card>)
    requires to < |t|
    ensures multiset(Flatten(t[to := t[to] + run])) == multiset(Flatten(t)) + multiset(run)
  {
    FlattenUpdate(t, to, t[to] + run);
    assert multiset(t[to] + run) == multiset(t[to]) + multiset(run);
    DropCommon(multiset(Flatten(t)), multiset(Flatten(t[to := t[to] + run])), multiset(run), multiset(t[to]));
  }

  /**
    A drop onto an occupied free cell overwrites its occupant: the occupant
    leaves the board.
   */
  lemma OccupiedCellDropLosesCard(g: Game, source: Location, i: nat)
    requires WellFormed(g.board) && ValidLocation(source) && i < CellCount
    requires Accessible(g.board, source).Some? && source != FreeCell(i)
    requires g.board.freeCells[i].Some?
    ensures CardsOn(MakeMove(g, Accessible(g.board, source).value, source, FreeCell(i)).board)
            + multiset{g.board.freeCells[i].value} == CardsOn(g.board)
  {
    var card := Accessible(g.board, source).value;
    var lost := g.board.freeCells[i].value;
    MakeMoveCardFlow(g, card, source, FreeCell(i));
    assert Take(g.board, source).freeCells[i] == g.board.freeCells[i] by {
      assert Contents(Take(g.board, source), FreeCell(i)) == Contents(g.board, FreeCell(i));
    }
    var after := CardsOn(MakeMove(g, card, source, FreeCell(i)).board);
    assert after + multiset{card} + multiset{lost} == CardsOn(g.board) + multiset{card};
    Cancel(after + multiset{lost}, CardsOn(g.board), multiset{card});
  }
}
