/**
  Starting a game: build the ordered deck, shuffle it with the given random
  picks, and deal it left to right into columns of 7, 7, 7, 7, 6, 6, 6, 6.
 */
module Setup {
  import opened Wrappers
  import opened Cards
  import opened Deck
  import opened Layout
  import opened Moves
  import opened Evaluate
  import opened Clicks

  /** Cards dealt to column `c`. */
  function ColumnHeight(c: nat): (r: nat) {
    if c < 4 then 7 else 6
  }

  /** Cards dealt to the columns before column `c`. */
  function Dealt(c: nat): (n: nat)
    requires c <= ColumnCount
    ensures c < ColumnCount ==> n + ColumnHeight(c) <= DeckSize
  {
    if c <= 4 then 7 * c else 28 + 6 * (c - 4)
  }

  lemma FlattenSnoc(piles: seq<seq<Card>>, pile: seq<Card>)
    ensures Flatten(piles + [pile]) == Flatten(piles) + pile
  {
    assert (piles + [pile])[..|piles|] == piles;
  }

  lemma SliceJoin(s: seq<Card>, a: nat, b: nat)
    requires a <= b <= |s|
    ensures s[..a] + s[a..b] == s[..b]
  {
  }

  /** The inner dealing loop: the next `height` cards, one at a time. */
  method DealColumn(deck: seq<Card>, start: nat, height: nat) returns (pile: seq<Card>)
    requires start + height <= |deck|
    ensures pile == deck[start..start + height]
  {
    pile := [];
    var cardIndex := start;
    while cardIndex < start + height
      invariant start <= cardIndex <= start + height
      invariant pile == deck[start..cardIndex]
    {
      pile := pile + [deck[cardIndex]];
      cardIndex := cardIndex + 1;
    }
  }

  /** One more dealt column extends the flattened prefix of the deck. */
  lemma DealStep(deck: seq<Card>, tableau: seq<seq<Card>>, col: nat, pile: seq<Card>)
    requires |deck| == DeckSize && col < ColumnCount
    requires Flatten(tableau) == deck[..Dealt(col)]
    requires pile == deck[Dealt(col)..Dealt(col) + ColumnHeight(col)]
    ensures Flatten(tableau + [pile]) == deck[..Dealt(col + 1)]
  {
    FlattenSnoc(tableau, pile);
    SliceJoin(deck, Dealt(col), Dealt(col + 1));
  }

  /**
    Dealing: column `c` gets the next `ColumnHeight(c)` cards of the deck, so
    laying the columns end to end gives back the deck.
   */
  method DealCards(deck: seq<Card>) returns (tableau: seq<seq<Card>>)
    requires |deck| == DeckSize
    ensures |tableau| == ColumnCount
    ensures forall c :: 0 <= c < ColumnCount ==> |tableau[c]| == ColumnHeight(c)
    ensures forall c :: 0 <= c < ColumnCount ==> tableau[c] == deck[Dealt(c)..Dealt(c) + ColumnHeight(c)]
    ensures Flatten(tableau) == deck
  {
    tableau := [];
    var cardIndex := 0;
    var col := 0;
    while col < ColumnCount
      invariant 0 <= col <= ColumnCount && |tableau| == col
      invariant cardIndex == Dealt(col)
      invariant forall c :: 0 <= c < col ==> tableau[c] == deck[Dealt(c)..Dealt(c) + ColumnHeight(c)]
      invariant Flatten(tableau) == deck[..cardIndex]
    {
      var pile := DealColumn(deck, cardIndex, ColumnHeight(col));
      DealStep(deck, tableau, col, pile);
      tableau := tableau + [pile];
      cardIndex := cardIndex + |pile|;
      col := col + 1;
    }
    assert Flatten(tableau) == deck by {
      assert deck[..cardIndex] == deck;
    }
    forall c | 0 <= c < ColumnCount
      ensures |tableau[c]| == ColumnHeight(c)
    {
      assert tableau[c] == deck[Dealt(c)..Dealt(c) + ColumnHeight(c)];
    }
  }

  /**
    A new game: a shuffled, dealt deck, empty free cells and foundations, no
    moves, no history and no selection. The uninitialised move tally is left
    as it was.
   */
  method NewGame(picks: seq<nat>, moves: Tally) returns (ui: Ui)
    requires ValidPicks(DeckSize, picks)
    ensures WellFormed(ui.game.board) && ui.selected == None
    ensures ui.game.history == [] && ui.game.board.moveCount == 0 && ui.game.moves == moves
    ensures forall i :: 0 <= i < CellCount ==> ui.game.board.freeCells[i] == None
    ensures forall i :: 0 <= i < FoundationCount ==> ui.game.board.foundations[i] == []
    ensures forall c :: 0 <= c < ColumnCount ==> |ui.game.board.tableau[c]| == ColumnHeight(c)
    ensures CardsOn(ui.game.board) == multiset(FullDeck())
    ensures forall card: Card :: CardsOn(ui.game.board)[card] == 1
    ensures !IsWon(ui.game.board)
  {
    var deck := CreateDeck();
    deck := ShuffleDeck(deck, picks);
    var tableau := DealCards(deck);
    var board := Board(tableau, seq(CellCount, _ => None), seq(FoundationCount, _ => []), 0);
    FreshBoardHoldsDeck(board, deck);
    ui := Ui(Game(board, [], moves), None);
  }

  /** A board whose columns hold a shuffled deck and nothing else holds every card once and is not won. */
  lemma FreshBoardHoldsDeck(board: Board, deck: seq<Card>)
    requires WellFormed(board) && Flatten(board.tableau) == deck && multiset(deck) == multiset(FullDeck())
    requires forall i :: 0 <= i < CellCount ==> board.freeCells[i] == None
    requires forall i :: 0 <= i < FoundationCount ==> board.foundations[i] == []
    ensures CardsOn(board) == multiset(FullDeck())
    ensures forall card: Card :: CardsOn(board)[card] == 1
    ensures !IsWon(board)
  {
    assert CardsOn(board) == multiset(deck) by {
      CellCardsEmpty(board.freeCells);
      FlattenEmpty(board.foundations);
    }
    FullDeckOnce();
    assert |Flatten(board.foundations)| == 0 by {
      FlattenEmpty(board.foundations);
    }
  }
}
