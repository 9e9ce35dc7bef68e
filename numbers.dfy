/** The run-time `Number` that old/src/stack.rs stores and both evaluators
    compute with: a tagged integer or float.  The file that declares it
    (old/src/module/number.rs) is not part of this model; its variants
    follow their uses.  Floats are kept as opaque bit patterns, and the
    arithmetic and ordering operators that file implements for `Number`
    (`+`, `%`, `<<`, `>`, `>=`) are parameters of the evaluators. */
module Numbers {
  import opened Bytes
  import opened Outcomes

  datatype Number =
      Int32(i: i32)
    | Int64(l: i64)
    | Uint32(u: u32)
    | Uint64(ul: u64)
    | Float32(fbits: u32)
    | Float64(dbits: u64)

  /** The operator impls of `Number`, which are not shown.  `rem` may fail
      (a division by zero panics). */
  datatype NumberOps = NumberOps(
    add: (Number, Number) -> Number,
    rem: (Number, Number) -> Result<Number>,
    shl: (Number, Number) -> Number,
    gt: (Number, Number) -> bool,
    ge: (Number, Number) -> bool)

  /** The signed variants: what the argument readers of the evaluators
      accept (every other variant reaches `unreachable!`). */
  predicate IsSigned(n: Number)
  {
    n.Int32? || n.Int64? || n.Float32? || n.Float64?
  }
}
