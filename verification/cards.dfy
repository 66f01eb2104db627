/**
  Cards of a standard 52-card deck and the two derived attributes the game
  reads from them: the numeric value (Ace = 1 … King = 13) and the colour.
 */
module Cards {

  datatype Suit = Hearts | Diamonds | Clubs | Spades

  datatype Rank = Ace | Two | Three | Four | Five | Six | Seven | Eight | Nine | Ten | Jack | Queen | King

  datatype Color = Red | Black

  /** The suits in the order the deck is built. */
  const Suits: seq<Suit> := [Hearts, Diamonds, Clubs, Spades]

  /** The ranks in the order the deck is built; a card's value is its rank's position here plus one. */
  const Ranks: seq<Rank> := [Ace, Two, Three, Four, Five, Six, Seven, Eight, Nine, Ten, Jack, Queen, King]

  datatype Card = Card(suit: Suit, rank: Rank) {

    /** The rank's index in `Ranks`, plus one. */
    function Value(): (v: int)
      ensures 1 <= v <= 13
      ensures Ranks[v - 1] == rank
    {
      match rank
      case Ace => 1
      case Two => 2
      case Three => 3
      case Four => 4
      case Five => 5
      case Six => 6
      case Seven => 7
      case Eight => 8
      case Nine => 9
      case Ten => 10
      case Jack => 11
      case Queen => 12
      case King => 13
    }

    function Color(): (c: Color)
      ensures c == Red <==> suit == Hearts || suit == Diamonds
    {
      match suit
      case Hearts => Red
      case Diamonds => Red
      case Clubs => Black
      case Spades => Black
    }
  }

  /** Position of a suit in `Suits`. */
  function SuitIndex(s: Suit): (k: nat)
    ensures k < |Suits| && Suits[k] == s
  {
    match s
    case Hearts => 0
    case Diamonds => 1
    case Clubs => 2
    case Spades => 3
  }

  /** `Suits` lists each suit once: `SuitIndex` inverts indexing. */
  lemma SuitIndexInverse(k: nat)
    requires k < |Suits|
    ensures SuitIndex(Suits[k]) == k
  {
  }

  /** `Ranks` lists each rank once, so the value is the one index holding the rank. */
  lemma ValueInverse(k: nat)
    requires k < |Ranks|
    ensures Card(Hearts, Ranks[k]).Value() == k + 1
  {
  }

  /** `next` may be stacked on `prev` in a tableau run: one lower and of the other colour. */
  predicate Follows(prev: Card, next: Card) {
    next.Value() == prev.Value() - 1 && next.Color() != prev.Color()
  }
}
