/** The complete, ordered deck: every card once, in increasing order. */
module Deck {
  import opened Cards

  /** `(0..n).map(Card).collect()`: the first `n` cards in order. */
  function CardsBelow(n: nat): (d: seq<Card>)
    requires n <= DECK_SIZE
    ensures |d| == n
    ensures forall i :: 0 <= i < n ==> d[i] == i
  {
    if n == 0 then [] else CardsBelow(n - 1) + [n - 1]
  }

  /** `DECK`. */
  const DECK: seq<Card> := CardsBelow(DECK_SIZE)

  /** No two cards of a sequence are equal. */
  predicate Distinct(s: seq<Card>) {
    forall i, j :: 0 <= i < j < |s| ==> s[i] != s[j]
  }

  /** The deck holds `DECK_SIZE` cards in strictly increasing order, so no
      card twice, and every card appears in it. */
  lemma DeckOrderedAndComplete()
    ensures |DECK| == DECK_SIZE
    ensures forall i, j :: 0 <= i < j < |DECK| ==> DECK[i] < DECK[j]
    ensures Distinct(DECK)
    ensures forall c: Card :: c in DECK
  {
    forall c: Card
      ensures c in DECK
    {
      assert DECK[c] == c;
    }
  }

  /** Every combination of attributes appears in the deck exactly once: at
      the position given by its encoding, and nowhere else. */
  lemma DeckCoversEveryProperties(p: CardProperties)
    ensures forall i :: 0 <= i < |DECK| ==> (Decode(DECK[i]) == p <==> i == Encode(p))
  {
    DecodeEncode(p);
  }
}
