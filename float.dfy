/**
 * 64-bit floating point, kept abstract. The Rust code only adds, subtracts, multiplies,
 * divides and negates `f64` values, compares them with IEEE `==`, converts literals, and
 * converts to and from 8 native-endian bytes; the model takes these operations as a record
 * of functions over an arbitrary carrier type `F` and claims nothing numeric about them.
 */
module Float {
  import opened Wire

  datatype Ops<!F> = Ops(
    add: (F, F) -> F,
    sub: (F, F) -> F,
    mul: (F, F) -> F,
    div: (F, F) -> F,
    neg: F -> F,
    eq: (F, F) -> bool,        // IEEE equality: NaN is unequal to itself, 0.0 equals -0.0
    lit: real -> F,            // the double nearest to a decimal literal
    toNeBytes: F -> Bytes8,    // `f64::to_ne_bytes`
    fromNeBytes: Bytes8 -> F   // `f64::from_ne_bytes`
  )

  /** A point of the trajectory, the Rust tuple `(f64, f64, f64)`. */
  datatype Coords<F> = Coords(x: F, y: F, z: F)

  /** The Lorenz parameters and the step size. */
  datatype Params<F> = Params(sigma: F, rho: F, beta: F, h: F)

  /** The keystream sample of a state: the native-endian bytes of its y-coordinate. */
  function YBytes<F>(ops: Ops<F>): Coords<F> -> Bytes8 {
    (s: Coords<F>) => ops.toNeBytes(s.y)
  }

  /** The double nearest to 8/3, computed as the Rust code does, as `8.0 / 3.0`. */
  function EightThirds<F>(ops: Ops<F>): F {
    ops.div(ops.lit(8.0), ops.lit(3.0))
  }
}
