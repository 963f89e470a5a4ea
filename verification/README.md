# Set card model

A Dafny model of the card core of a terminal "Set" game (`src/core.rs`).
A card is one byte below 81 (`DECK_SIZE`). Its four three-valued attributes
(color, count, shade and shape) are packed into it as base-3 digits with
weights 27, 9, 3 and 1. Cards add and subtract modulo 81. The ordered deck
holds every card once. A table holds a deck, dealt from its end, and a board.

Modules:

- `Wrappers`: `Option`, which stands for Rust's `Option` and for panics.
- `Bytes`: `u8` and the overflow-checked arithmetic a debug build does on it.
- `Attributes`: `Color`, `Count`, `Shade`, `Shape` and their ordinals.
- `Cards`: the constants, `CardProperties`, encode/decode, and `+`/`-`.
- `Deck`: `DECK`.
- `Tables`: `Table`, `Table::new` and `Table::deal`.

Rust `u8` arithmetic is modelled as checked arithmetic, where `None` is the
overflow panic. Every path from valid cards is proved never to reach `None`.
So it makes no difference whether the build wraps or panics. An `expect`
that can fail is also `None`. `Card` is a subset type of `u8` below 81. Its
field is private, and every constructor in the core keeps it below 81.
Decoding a raw byte, where the `expect` can fire, is modelled separately as
`DecodeRaw`.

`Table::deal` (src/core.rs:161-163) only pops the deck and never touches the
board. `Table::board_mut` (src/core.rs:155-158) is the only way a caller can
put a card on the board.

## Model

| member | source | states |
|---|---|---|
| Attributes.OrdinalRoundTrip | src/core.rs:79-105 | For each attribute, converting a variant to its declared discriminant and back gives the same variant |
| Attributes.Color.FromU8 | src/core.rs:79-84 | `Color::from_u8` gives a variant exactly for 0, 1 and 2, and that variant's discriminant is the input |
| Attributes.Count.FromU8 | src/core.rs:86-91 | `Count::from_u8` gives a variant exactly for 0, 1 and 2, and that variant's discriminant is the input |
| Attributes.Shade.FromU8 | src/core.rs:93-98 | `Shade::from_u8` gives a variant exactly for 0, 1 and 2, and that variant's discriminant is the input |
| Attributes.Shape.FromU8 | src/core.rs:100-105 | `Shape::from_u8` gives a variant exactly for 0, 1 and 2, and that variant's discriminant is the input |
| Cards.Encode | src/core.rs:36-51 | Packing the attributes in `u8` arithmetic never overflows. The card is color·27 + count·9 + shade·3 + shape, so it is below 81 |
| Cards.DecodeRaw | src/core.rs:53-68 | Unpacking a byte succeeds if and only if the byte is below 81. At 81 or above, the color digit has no variant and the `expect` panics |
| Cards.Decode | src/core.rs:53-68 | Unpacking a card never panics. Its attributes are the card's base-3 digits: c/27, (c mod 27)/9, (c mod 9)/3 and c mod 3 |
| Cards.EncodeDecode | src/core.rs:233-242 | For every card, encoding its decoded attributes gives back the same card |
| Cards.DecodeEncode | src/core.rs:36-68 | For every attribute tuple, decoding its encoding gives back the same tuple. With `EncodeDecode`, this makes encode and decode mutually inverse bijections |
| Cards.EncodeInjective | src/core.rs:36-51 | Two tuples have the same encoding if and only if they are equal |
| Cards.DecodeInjective | src/core.rs:53-68 | Two cards have the same attributes if and only if they are equal |
| Cards.DecodeExamples | src/core.rs:202-230 | Card 0 is Red/One/Solid/Diamond, card 40 is Green/Two/Striped/Squiggle, and card 80 is Purple/Three/Open/Oval |
| Cards.AddRaw | src/core.rs:17-19 | The byte sum panics exactly when it exceeds 255. Otherwise the reduced result is below 81 |
| Cards.Add | src/core.rs:14-20 | Adding two cards never overflows `u8`. The result is the sum, wrapped once past 80 |
| Cards.SubRaw | src/core.rs:22-34 | On arbitrary bytes, subtraction panics unless a ≥ b, or unless b ≤ a + 81 ≤ 255 when 81 is added first |
| Cards.Sub | src/core.rs:22-34 | Subtracting two cards never panics. The result is (a − b) mod 81 |
| Cards.SubNeverPanics | src/core.rs:188-199 | For all 81 × 81 pairs of cards, the subtraction completes without a panic |
| Cards.SubInvertsAdd | src/core.rs:14-34 | (a + b) − b = a and (a − b) + b = a for all cards |
| Cards.AddIsCommutativeMonoid | src/core.rs:14-20 | Card addition is commutative and associative, and card 0 is its identity |
| Cards.ArithmeticExamples | src/core.rs:171-185 | 0+40=40, 40+40=80, 80+40=39, 80+1=0. Also 80−40=40, 40−40=0, 0−40=41, 0−1=80 |
| Deck.CardsBelow | src/core.rs:108 | Collecting the range 0..n as cards gives n entries, and entry i is card i |
| Deck.DeckOrderedAndComplete | src/core.rs:5-108 | `DECK` has exactly 81 entries. They are strictly increasing, with no duplicates, and every card is among them |
| Deck.DeckCoversEveryProperties | src/core.rs:107-108 | Every attribute tuple is the decoding of exactly one deck entry: the one at the tuple's encoding |
| Tables.New | src/core.rs:137-142 | `Table::new(d)` holds deck `d`, in any order, and an empty board. Dealing once per card of `d` hands out `d` last card first and leaves an empty table. One more deal gives nothing |
| Tables.Deal | src/core.rs:160-163 | With an empty deck, deal gives no card and nothing changes. Otherwise it gives a card, and appending that card to the new deck restores the old deck. So the card was the last one. The board is never changed |
| Tables.DealManyTakesFromEnd | src/bin/sgs.rs:144-150 | Dealing n times in a loop yields the deck's last min(n, size) cards, last one first. The rest of the deck and the board are unchanged |
| Tables.DealKeepsDistinct | src/core.rs:160-163 | Dealing keeps a duplicate-free deck duplicate-free. The dealt card is no longer in the deck |
| Tables.FreshTableLifecycle | src/core.rs:136-142 | `Table::new(DECK)` holds the whole deck and an empty board. 81 deals give cards 80 down to 0 and leave both empty. An 82nd deal gives nothing |

## Left out

- `Triple::is_set` (src/core.rs:121-127): its body is `unimplemented!()`. Its only examples are in commented-out tests for an older card type, so there is no behaviour to model.
- `Table::new_from_seed` (src/core.rs:145-153): it shuffles with an external seeded PCG generator. The generator is not part of this model.
- `Table::board_mut` (src/core.rs:156-158): it hands out a mutable reference for arbitrary outside edits, so there is no behaviour of its own to state.
- The `num_traits` conversions: the derived `ToPrimitive`/`FromPrimitive` conversions are modelled as plain ordinal functions. `to_u8` is total, so its `expect` in encoding can never fire.
- `DECK`'s lazy, once-only initialisation: modelled as a constant sequence.
- Derived `Clone`/`PartialEq`/`Debug`: value equality is Dafny's own.
- All of `src/bin/sgs.rs` apart from its dealing loop. It is terminal drawing, event polling on a wall clock, and command-line parsing, and its key handlers are `unimplemented!()`.
- The dealing loop in `src/bin/sgs.rs` (lines 143-150) calls `deal` on a `Deck` type that `src/core.rs` does not define, so it belongs to another revision. `DealMany` models that loop over `Table::deal`. The loop pushes the cards into the application's own list, not onto the table's board.
