/** Coordinates and site records as the bot holds them. */
module Geo {

  /** A JavaScript number as far as the bot's logic can tell them apart: NaN (what
      parseFloat returns for text that is not a number) or a finite value.
      Floating-point rounding is not modelled. */
  datatype Float = NaN | Finite(value: real)

  /** JavaScript truthiness of a number: 0 and NaN are falsy. */
  predicate IsTruthy(x: Float) {
    x.Finite? && x.value != 0.0
  }

  datatype Coord = Coord(latitude: Float, longitude: Float)

  /** `{ latitude: 0, longitude: 0 }`, the default of a row without usable coordinates. */
  const Zero := Coord(Finite(0.0), Finite(0.0))

  /** A site (shop) record: every lower-cased sheet header mapped to its cell, plus
      the parsed `coordinates` object. */
  datatype Shop = Shop(fields: map<string, string>, coordinates: Coord)
}
