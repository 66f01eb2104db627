/**
  Building the 52-card deck (suits outer, ranks inner) and the Fisher–Yates
  shuffle, with the random choices supplied by the caller.
 */
module Deck {
  import opened Cards

  const DeckSize: nat := 52

  /** The deck as an indexed table: card `i` has suit `i / 13` and rank `i % 13`. */
  function FullDeck(): (d: seq<Card>)
    ensures |d| == DeckSize
  {
    seq(DeckSize, i requires 0 <= i < DeckSize => Card(Suits[i / 13], Ranks[i % 13]))
  }

  predicate Distinct(s: seq<Card>) {
    forall i, j :: 0 <= i < j < |s| ==> s[i] != s[j]
  }

  /** Every (suit, rank) pair is in the deck. */
  lemma FullDeckComplete()
    ensures forall c: Card :: c in FullDeck()
  {
    forall c: Card
      ensures c in FullDeck()
    {
      var i := 13 * SuitIndex(c.suit) + (c.Value() - 1);
      assert i / 13 == SuitIndex(c.suit) && i % 13 == c.Value() - 1;
      assert FullDeck()[i] == c;
    }
  }

  /** No card is dealt twice. */
  lemma FullDeckDistinct()
    ensures Distinct(FullDeck())
  {
    var d := FullDeck();
    forall i, j | 0 <= i < j < |d|
      ensures d[i] != d[j]
    {
      if i / 13 != j / 13 {
        SuitIndexInverse(i / 13);
        SuitIndexInverse(j / 13);
      } else {
        assert i % 13 != j % 13;
        ValueInverse(i % 13);
        ValueInverse(j % 13);
        assert Card(Hearts, Ranks[i % 13]).Value() != Card(Hearts, Ranks[j % 13]).Value();
      }
    }
  }

  /** In a sequence without repeats, every card occurs at most once. */
  lemma {:induction false} DistinctOccurrences(s: seq<Card>)
    requires Distinct(s)
    ensures forall c :: multiset(s)[c] == (if c in s then 1 else 0)
  {
    if |s| > 0 {
      var n := |s| - 1;
      DistinctOccurrences(s[..n]);
      assert s == s[..n] + [s[n]];
      assert s[n] !in s[..n];
    }
  }

  /** Each of the 52 cards occurs in the full deck exactly once. */
  lemma FullDeckOnce()
    ensures forall c: Card :: multiset(FullDeck())[c] == 1
  {
    FullDeckComplete();
    FullDeckDistinct();
    DistinctOccurrences(FullDeck());
  }

  /** The card at suit `s`, rank `r` extends the deck built so far. */
  lemma DeckPrefixStep(s: nat, r: nat)
    requires s < |Suits| && r < |Ranks|
    ensures FullDeck()[..13 * s + r + 1] == FullDeck()[..13 * s + r] + [Card(Suits[s], Ranks[r])]
  {
    var i := 13 * s + r;
    assert i / 13 == s && i % 13 == r;
    assert FullDeck()[i] == Card(Suits[s], Ranks[r]);
    assert FullDeck()[..i + 1] == FullDeck()[..i] + [FullDeck()[i]];
  }

  /** Builds the deck suit by suit, rank by rank, as the game's constructor does. */
  method CreateDeck() returns (deck: seq<Card>)
    ensures deck == FullDeck()
    ensures |deck| == DeckSize && Distinct(deck)
    ensures forall c: Card :: c in deck
  {
    deck := [];
    var s := 0;
    while s < |Suits|
      invariant 0 <= s <= |Suits|
      invariant deck == FullDeck()[..13 * s]
    {
      var r := 0;
      while r < |Ranks|
        invariant 0 <= r <= |Ranks|
        invariant deck == FullDeck()[..13 * s + r]
      {
        DeckPrefixStep(s, r);
        deck := deck + [Card(Suits[s], Ranks[r])];
        r := r + 1;
      }
      s := s + 1;
    }
    FullDeckDistinct();
    FullDeckComplete();
  }

  /**
    The random choices of a Fisher–Yates pass over `n` cards: the k-th choice
    is the partner of position `n - 1 - k`, so it lies in `[0, n - 1 - k]`.
   */
  predicate ValidPicks(n: nat, picks: seq<nat>) {
    && |picks| == (if n == 0 then 0 else n - 1)
    && forall k :: 0 <= k < |picks| ==> picks[k] <= n - 1 - k
  }

  function Swap(s: seq<Card>, i: nat, j: nat): (r: seq<Card>)
    requires i < |s| && j < |s|
    ensures |r| == |s| && r[i] == s[j] && r[j] == s[i]
    ensures forall k :: 0 <= k < |s| && k != i && k != j ==> r[k] == s[k]
    ensures multiset(r) == multiset(s)
  {
    s[i := s[j]][j := s[i]]
  }

  /**
    Fisher–Yates: from the last position down to 1, swap position `i` with the
    chosen position `picks[|deck| - 1 - i]`. The last position is settled by the
    first swap and never touched again.
   */
  method ShuffleDeck(deck: seq<Card>, picks: seq<nat>) returns (r: seq<Card>)
    requires ValidPicks(|deck|, picks)
    ensures |r| == |deck|
    ensures multiset(r) == multiset(deck)
    ensures |deck| > 1 ==> r[|deck| - 1] == deck[picks[0]]
  {
    r := deck;
    var i: int := |deck| - 1;
    while i > 0
      invariant -1 <= i < |deck|
      invariant |r| == |deck|
      invariant multiset(r) == multiset(deck)
      invariant i == |deck| - 1 ==> r == deck
      invariant |deck| > 1 && i < |deck| - 1 ==> r[|deck| - 1] == deck[picks[0]]
    {
      var j := picks[|deck| - 1 - i];
      r := Swap(r, i, j);
      i := i - 1;
    }
  }
}
