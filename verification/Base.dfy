/** Vocabulary shared by every module of the model. */
module Base {
  datatype Option<+T> = None | Some(value: T)

  /** Go's int64: an operation that would wrap is a verification error. */
  newtype int64 = x: int | -0x8000_0000_0000_0000 <= x < 0x8000_0000_0000_0000

  /** The balance of a key that has never been measured ("assume plenty"). */
  const UNMEASURED: int64 := 0x7FFF_FFFF_FFFF_FFFF

  /** A `time.Time`: the zero time, or an instant in nanoseconds. */
  datatype Instant = Unset | At(ns: int)

  const SECOND: int := 1_000_000_000
  const ROTATE_COOLDOWN: int := 30 * SECOND

  function Max(a: int, b: int): int {
    if a >= b then a else b
  }

  lemma {:induction false} SubsetSize<T>(xs: set<T>, ys: set<T>)
    requires xs <= ys
    ensures |xs| <= |ys|
  {
    if xs != {} {
      var x :| x in xs;
      SubsetSize(xs - {x}, ys - {x});
    }
  }
}
