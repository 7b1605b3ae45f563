/** What several modules share. */
module Common {

  datatype Option<+T> = None | Some(value: T)

  /** A floating-point number: not a number, or a real; rounding, infinities and signed zeros are left out. */
  datatype Float = NaN | Number(r: real)

  predicate FloatEqual(x: Float, y: Float) {
    x.Number? && y.Number? && x.r == y.r
  }
}
