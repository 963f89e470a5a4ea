/** A card of the game as the core encodes it: one byte below 81 holding the
    four attributes as base-3 digits (color, count, shade, shape, most
    significant first), with addition and subtraction modulo the deck size. */
module Cards {
  import opened Wrappers
  import opened Bytes
  import opened Attributes

  const DECK_SIZE: u8 := 81
  const RANK_BASE: u8 := 3
  const RANK_COLOR: u8 := Pow(RANK_BASE, 3)
  const RANK_COUNT: u8 := Pow(RANK_BASE, 2)
  const RANK_SHADE: u8 := Pow(RANK_BASE, 1)

  /** The byte inside a card. Every way the core builds one keeps it below
      `DECK_SIZE`, so the model makes that a property of the type. */
  type Card = c: u8 | c < DECK_SIZE

  /** The four attributes of a card. */
  datatype CardProperties = CardProperties(color: Color, count: Count, shade: Shade, shape: Shape)

  /** The number a tuple of attributes stands for, in plain arithmetic. */
  function Weighted(p: CardProperties): int {
    27 * p.color.ToU8() + 9 * p.count.ToU8() + 3 * p.shade.ToU8() + p.shape.ToU8()
  }

  /** Packing the attributes as the core evaluates it, in checked `u8`
      arithmetic: `None` would be an overflow panic. */
  function EncodeRaw(p: CardProperties): Option<u8> {
    var colorPart :- CheckedMul(p.color.ToU8(), RANK_COLOR);
    var countPart :- CheckedMul(p.count.ToU8(), RANK_COUNT);
    var shadePart :- CheckedMul(p.shade.ToU8(), RANK_SHADE);
    var upper :- CheckedAdd(colorPart, countPart);
    var middle :- CheckedAdd(upper, shadePart);
    CheckedAdd(middle, p.shape.ToU8())
  }

  /** `Card::from(CardProperties)`: never overflows, and yields the base-3
      number whose digits are the attribute ordinals. */
  function Encode(p: CardProperties): (c: Card)
    ensures EncodeRaw(p) == Some(c)
    ensures c == Weighted(p)
  {
    EncodeRaw(p).value
  }

  /** `CardProperties::from(Card)` on the raw byte, by repeated division and
      remainder. A digit with no variant is the `expect` panic, `None`; that
      happens exactly when the byte is not below `DECK_SIZE`. */
  function DecodeRaw(raw: u8): (r: Option<CardProperties>)
    ensures r.Some? <==> raw < DECK_SIZE
  {
    var color :- Color.FromU8(raw / RANK_COLOR);
    var remainder := raw % RANK_COLOR;
    var count :- Count.FromU8(remainder / RANK_COUNT);
    var remainder := remainder % RANK_COUNT;
    var shade :- Shade.FromU8(remainder / RANK_SHADE);
    var shape :- Shape.FromU8(remainder % RANK_SHADE);
    Some(CardProperties(color, count, shade, shape))
  }

  /** Decoding a card, which is below `DECK_SIZE`, never panics; the digits
      it reads are those of the card's base-3 expansion. */
  function Decode(c: Card): (p: CardProperties)
    ensures DecodeRaw(c) == Some(p)
    ensures p.color.ToU8() == c / 27
    ensures p.count.ToU8() == c % 27 / 9
    ensures p.shade.ToU8() == c % 9 / 3
    ensures p.shape.ToU8() == c % 3
  {
    DecodeRaw(c).value
  }

  /** Every card is the encoding of its decoded attributes. */
  lemma EncodeDecode(c: Card)
    ensures Encode(Decode(c)) == c
  {
  }

  /** Every tuple of attributes is the decoding of its encoding. */
  lemma DecodeEncode(p: CardProperties)
    ensures Decode(Encode(p)) == p
  {
    var c := Encode(p);
    Base3Digits(p.color.ToU8(), p.count.ToU8(), p.shade.ToU8(), p.shape.ToU8());
    var q := Decode(c);
    assert q.color == p.color by { OrdinalInjective(q, p); }
    assert q.count == p.count by { OrdinalInjective(q, p); }
    assert q.shade == p.shade by { OrdinalInjective(q, p); }
    assert q.shape == p.shape by { OrdinalInjective(q, p); }
  }

  /** Attributes with equal ordinals are equal. */
  lemma OrdinalInjective(p: CardProperties, q: CardProperties)
    ensures p.color.ToU8() == q.color.ToU8() ==> p.color == q.color
    ensures p.count.ToU8() == q.count.ToU8() ==> p.count == q.count
    ensures p.shade.ToU8() == q.shade.ToU8() ==> p.shade == q.shade
    ensures p.shape.ToU8() == q.shape.ToU8() ==> p.shape == q.shape
  {
  }

  /** The four base-3 digits of a number below 81 are read back by the
      division and remainder steps decoding performs. */
  lemma Base3Digits(a: int, b: int, d: int, e: int)
    requires 0 <= a < 3 && 0 <= b < 3 && 0 <= d < 3 && 0 <= e < 3
    ensures var n := 27 * a + 9 * b + 3 * d + e;
      n / 27 == a && n % 27 / 9 == b && n % 9 / 3 == d && n % 3 == e
  {
    var n := 27 * a + 9 * b + 3 * d + e;
    DigitOf(n, a, 9 * b + 3 * d + e, 27);
    DigitOf(n % 27, b, 3 * d + e, 9);
    DigitOf(n, 3 * a + b, 3 * d + e, 9);
    DigitOf(n % 9, d, e, 3);
    DigitOf(n, 9 * a + 3 * b + d, e, 3);
  }

  /** Euclidean division is unique: `n == q * m + r` with `0 <= r < m` fixes
      both the quotient and the remainder. */
  lemma DigitOf(n: int, q: int, r: int, m: int)
    requires 0 <= r < m && n == q * m + r
    ensures n / m == q && n % m == r
  {
    var (q', r') := (n / m, n % m);
    assert (q - q') * m == r' - r;
    if q > q' {
      assert (q - q') * m >= 1 * m by {
        MulMonotone(q - q', 1, m);
      }
    } else if q < q' {
      assert (q' - q) * m >= 1 * m by {
        MulMonotone(q' - q, 1, m);
      }
    }
  }

  lemma MulMonotone(a: int, b: int, m: int)
    requires a >= b && m > 0
    ensures a * m >= b * m
  {
  }

  /** Encoding is one-to-one: distinct attribute tuples give distinct cards. */
  lemma EncodeInjective(p: CardProperties, q: CardProperties)
    ensures Encode(p) == Encode(q) <==> p == q
  {
    if Encode(p) == Encode(q) {
      DecodeEncode(p);
      DecodeEncode(q);
    }
  }

  /** Decoding is one-to-one: distinct cards have distinct attributes. */
  lemma DecodeInjective(a: Card, b: Card)
    ensures Decode(a) == Decode(b) <==> a == b
  {
    if Decode(a) == Decode(b) {
      EncodeDecode(a);
      EncodeDecode(b);
    }
  }

  /** The three decodings the core's tests pin down. */
  lemma DecodeExamples()
    ensures Decode(0) == CardProperties(Red, One, Solid, Diamond)
    ensures Decode(40) == CardProperties(Green, Two, Striped, Squiggle)
    ensures Decode(80) == CardProperties(Purple, Three, Open, Oval)
  {
  }

  // Card arithmetic

  /** `Card + Card` as evaluated on the bytes: a checked `u8` sum, then
      `rem_euclid(DECK_SIZE)`. */
  function AddRaw(a: u8, b: u8): (r: Option<u8>)
    ensures r.Some? <==> a + b <= U8_MAX
    ensures r.Some? ==> r.value < DECK_SIZE
  {
    var sum :- CheckedAdd(a, b);
    Some(sum % DECK_SIZE)
  }

  /** `Card + Card`: the byte sum of two cards cannot overflow, and the result
      is the sum wrapped around once past the end of the deck. */
  function Add(a: Card, b: Card): (r: Card)
    ensures AddRaw(a, b) == Some(r)
    ensures r == if a + b < DECK_SIZE then a + b else a + b - DECK_SIZE
  {
    AddRaw(a, b).value
  }

  /** `Card - Card` as evaluated on the bytes: `DECK_SIZE` is added to the
      minuend first when it is the smaller one, then a checked `u8`
      subtraction. On arbitrary bytes it panics (`None`) exactly when the
      added minuend overflows or is still too small. */
  function SubRaw(a: u8, b: u8): (r: Option<u8>)
    ensures r.Some? <==> a >= b || b <= a + DECK_SIZE <= U8_MAX
  {
    var minuend :- if a < b then CheckedAdd(a, DECK_SIZE) else Some(a);
    CheckedSub(minuend, b)
  }

  /** `Card - Card`: never panics on two cards, and is the difference
      reduced modulo the deck size. */
  function Sub(a: Card, b: Card): (r: Card)
    ensures SubRaw(a, b) == Some(r)
    ensures r == (a - b) % DECK_SIZE
  {
    SubRaw(a, b).value
  }

  /** Subtraction undoes addition and addition undoes subtraction. */
  lemma SubInvertsAdd(a: Card, b: Card)
    ensures Sub(Add(a, b), b) == a
    ensures Add(Sub(a, b), b) == a
  {
  }

  /** Card addition is commutative and associative, with `Card(0)` as its
      identity, as addition modulo 81 is. */
  lemma AddIsCommutativeMonoid(a: Card, b: Card, c: Card)
    ensures Add(a, b) == Add(b, a)
    ensures Add(Add(a, b), c) == Add(a, Add(b, c))
    ensures Add(a, 0) == a
  {
  }

  /** Subtracting any card from any card completes without a panic. */
  lemma SubNeverPanics()
    ensures forall a: Card, b: Card :: SubRaw(a, b).Some?
  {
  }

  /** The sums and differences the core's tests pin down. */
  lemma ArithmeticExamples()
    ensures Add(0, 40) == 40 && Add(40, 40) == 80 && Add(80, 40) == 39 && Add(80, 1) == 0
    ensures Sub(80, 40) == 40 && Sub(40, 40) == 0 && Sub(0, 40) == 41 && Sub(0, 1) == 80
  {
  }
}
