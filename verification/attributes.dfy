/** The four three-valued card attributes and their `u8` ordinals
    (the derived `ToPrimitive` / `FromPrimitive` conversions). */
module Attributes {
  import opened Wrappers
  import opened Bytes

  /** Number of values every attribute has. */
  const ATTRIBUTE_VALUES: u8 := 3

  datatype Color = Red | Green | Purple {
    /** The declared discriminant: Red = 0, Green = 1, Purple = 2. */
    function ToU8(): u8 {
      match this
      case Red => 0
      case Green => 1
      case Purple => 2
    }

    /** The discriminant's variant, `None` for a value no variant declares. */
    static function FromU8(n: u8): (r: Option<Color>)
      ensures r.Some? <==> n < ATTRIBUTE_VALUES
      ensures r.Some? ==> r.value.ToU8() == n
    {
      if n == 0 then Some(Red)
      else if n == 1 then Some(Green)
      else if n == 2 then Some(Purple)
      else None
    }
  }

  datatype Count = One | Two | Three {
    /** The declared discriminant: One = 0, Two = 1, Three = 2. */
    function ToU8(): u8 {
      match this
      case One => 0
      case Two => 1
      case Three => 2
    }

    /** The discriminant's variant, `None` for a value no variant declares. */
    static function FromU8(n: u8): (r: Option<Count>)
      ensures r.Some? <==> n < ATTRIBUTE_VALUES
      ensures r.Some? ==> r.value.ToU8() == n
    {
      if n == 0 then Some(One)
      else if n == 1 then Some(Two)
      else if n == 2 then Some(Three)
      else None
    }
  }

  datatype Shade = Solid | Striped | Open {
    /** The declared discriminant: Solid = 0, Striped = 1, Open = 2. */
    function ToU8(): u8 {
      match this
      case Solid => 0
      case Striped => 1
      case Open => 2
    }

    /** The discriminant's variant, `None` for a value no variant declares. */
    static function FromU8(n: u8): (r: Option<Shade>)
      ensures r.Some? <==> n < ATTRIBUTE_VALUES
      ensures r.Some? ==> r.value.ToU8() == n
    {
      if n == 0 then Some(Solid)
      else if n == 1 then Some(Striped)
      else if n == 2 then Some(Open)
      else None
    }
  }

  datatype Shape = Diamond | Squiggle | Oval {
    /** The declared discriminant: Diamond = 0, Squiggle = 1, Oval = 2. */
    function ToU8(): u8 {
      match this
      case Diamond => 0
      case Squiggle => 1
      case Oval => 2
    }

    /** The discriminant's variant, `None` for a value no variant declares. */
    static function FromU8(n: u8): (r: Option<Shape>)
      ensures r.Some? <==> n < ATTRIBUTE_VALUES
      ensures r.Some? ==> r.value.ToU8() == n
    {
      if n == 0 then Some(Diamond)
      else if n == 1 then Some(Squiggle)
      else if n == 2 then Some(Oval)
      else None
    }
  }

  /** Converting a variant to its ordinal and back gives the variant again,
      for each of the four attributes. */
  lemma OrdinalRoundTrip(c: Color, n: Count, s: Shade, p: Shape)
    ensures Color.FromU8(c.ToU8()) == Some(c)
    ensures Count.FromU8(n.ToU8()) == Some(n)
    ensures Shade.FromU8(s.ToU8()) == Some(s)
    ensures Shape.FromU8(p.ToU8()) == Some(p)
  {
  }
}
