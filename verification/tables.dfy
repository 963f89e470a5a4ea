/** The game state: the deck still to be dealt and the board of cards in
    play. Cards are dealt from the end of the deck. */
module Tables {
  import opened Wrappers
  import opened Cards
  import opened Deck

  datatype Table = Table(deck: seq<Card>, board: seq<Card>)

  /** `Table::new`: a game over any deck order, with nothing on the board.
      Dealing as many times as the deck holds hands out the whole deck, last
      card first, and leaves an empty table, from which one more deal gives
      nothing. */
  function New(deck: seq<Card>): (t: Table)
    ensures t.deck == deck && t.board == []
    ensures DealMany(t, |deck|) == (Table([], []), Reverse(deck))
    ensures Deal(DealMany(t, |deck|).0).0 == None
  {
    DealManyTakesFromEnd(Table(deck, []), |deck|);
    assert deck[..0] == [] && deck[0..] == deck;
    Table(deck, [])
  }

  /** `Table::deal`, which pops the deck. On an empty deck there is no card
      and nothing changes; otherwise the card is the deck's last, and putting
      it back on the end restores the deck. The board is never touched. */
  function Deal(t: Table): (r: (Option<Card>, Table))
    ensures r.0.None? <==> t.deck == []
    ensures r.0.None? ==> r.1 == t
    ensures r.0.Some? ==> r.1.deck + [r.0.value] == t.deck
    ensures r.1.board == t.board
  {
    if |t.deck| == 0 then (None, t)
    else (Some(t.deck[|t.deck| - 1]), t.(deck := t.deck[..|t.deck| - 1]))
  }

  /** The cards of `s`, last one first. */
  function Reverse(s: seq<Card>): seq<Card> {
    seq(|s|, i requires 0 <= i < |s| => s[|s| - 1 - i])
  }

  /** Deals `n` times, collecting the cards actually dealt, in the order
      they come off the deck (the application's loop that deals its opening
      cards). */
  function DealMany(t: Table, n: nat): (Table, seq<Card>)
    decreases n
  {
    if n == 0 then (t, [])
    else
      var (card, next) := Deal(t);
      var (last, rest) := DealMany(next, n - 1);
      (last, (if card.Some? then [card.value] else []) + rest)
  }

  function Min(a: nat, b: nat): nat {
    if a <= b then a else b
  }

  /** Dealing `n` times hands out the last `n` cards of the deck (all of
      them if it holds fewer), last one first, and leaves the rest of the
      deck and the board as they were. */
  predicate TakesFromEnd(t: Table, n: nat) {
    var k := Min(n, |t.deck|);
    DealMany(t, n) == (Table(t.deck[..|t.deck| - k], t.board), Reverse(t.deck[|t.deck| - k..]))
  }

  /** `TakesFromEnd` holds for every table and every number of deals. */
  lemma {:induction false} DealManyTakesFromEnd(t: Table, n: nat)
    ensures TakesFromEnd(t, n)
    decreases n
  {
    if n == 0 {
      assert t.deck[..|t.deck|] == t.deck;
      assert Reverse(t.deck[|t.deck|..]) == [];
    } else if t.deck == [] {
      DealManyTakesFromEnd(t, n - 1);
      DealManyEmptyStep(t, n);
    } else {
      var next := Deal(t).1;
      DealManyTakesFromEnd(next, n - 1);
      assert TakesFromEnd(next, n - 1);
      DealManyNonEmptyStep(t, n);
    }
  }

  /** The induction step of `DealManyTakesFromEnd` for a non-empty deck. */
  lemma DealManyNonEmptyStep(t: Table, n: nat)
    requires t.deck != [] && n > 0
    requires TakesFromEnd(Deal(t).1, n - 1)
    ensures TakesFromEnd(t, n)
  {
    var m := |t.deck|;
    var k := Min(n, m);
    var next := Deal(t).1;
    assert next.deck == t.deck[..m - 1];
    assert Min(n - 1, m - 1) == k - 1;
    var (last, rest) := DealMany(next, n - 1);
    assert last == Table(t.deck[..m - k], t.board) by {
      assert next.deck[..m - 1 - (k - 1)] == t.deck[..m - k];
    }
    var tail := t.deck[m - k..];
    assert rest == Reverse(tail[..|tail| - 1]) by {
      assert tail[..|tail| - 1] == next.deck[m - 1 - (k - 1)..];
    }
    ReverseLastFirst(tail);
    DealManyStep(t, n);
  }

  /** Reversing puts the last card first, then the rest reversed. */
  lemma ReverseLastFirst(s: seq<Card>)
    requires s != []
    ensures Reverse(s) == [s[|s| - 1]] + Reverse(s[..|s| - 1])
  {
    var r := [s[|s| - 1]] + Reverse(s[..|s| - 1]);
    assert forall i :: 0 <= i < |s| ==> Reverse(s)[i] == r[i];
  }

  /** The induction step of `DealManyTakesFromEnd` for an empty deck, from
      which a deal hands out nothing. */
  lemma DealManyEmptyStep(t: Table, n: nat)
    requires t.deck == [] && n > 0
    requires TakesFromEnd(t, n - 1)
    ensures TakesFromEnd(t, n)
  {
    var (last, rest) := DealMany(t, n - 1);
    assert [] + rest == rest;
    assert DealMany(t, n) == DealMany(t, n - 1);
    assert t.deck[..0] == t.deck && t.deck[0..] == [];
  }

  /** One deal from a non-empty deck hands out its last card first. */
  lemma DealManyStep(t: Table, n: nat)
    requires t.deck != [] && n > 0
    ensures var next := DealMany(Deal(t).1, n - 1);
      DealMany(t, n) == (next.0, [t.deck[|t.deck| - 1]] + next.1)
  {
  }

  /** Dealing keeps a deck free of duplicates, and the card dealt is no
      longer in it. */
  lemma DealKeepsDistinct(t: Table)
    requires Distinct(t.deck)
    ensures Distinct(Deal(t).1.deck)
    ensures Deal(t).0.Some? ==> Deal(t).0.value !in Deal(t).1.deck
  {
  }

  /** A game over the ordered deck starts with all 81 cards and an empty
      board; 81 deals hand out every card from the highest down to the
      lowest and exhaust the deck, and one more deal gives nothing. */
  lemma FreshTableLifecycle()
    ensures New(DECK).deck == DECK && New(DECK).board == []
    ensures var (t, dealt) := DealMany(New(DECK), DECK_SIZE);
      t == Table([], []) && Deal(t) == (None, t)
      && |dealt| == DECK_SIZE && forall i :: 0 <= i < |dealt| ==> dealt[i] == DECK_SIZE - 1 - i
  {
    DealManyTakesFromEnd(New(DECK), DECK_SIZE);
  }
}
