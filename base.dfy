/** Shared vocabulary: Java's fixed-width integers, opaque doubles, the
    "not found" sentinel, and the outcome types that stand for exceptions. */
module Base {

  /** A Java `int`. */
  type Int32 = x: int | -0x8000_0000 <= x < 0x8000_0000

  /** A Java `long`. */
  type Int64 = x: int | -0x8000_0000_0000_0000 <= x < 0x8000_0000_0000_0000

  predicate InInt32(x: int) { -0x8000_0000 <= x < 0x8000_0000 }
  predicate InInt64(x: int) { -0x8000_0000_0000_0000 <= x < 0x8000_0000_0000_0000 }

  /** `Constants.DEFAULT_LONG`, the "no such id" value (Long.MIN_VALUE). */
  const DEFAULT_LONG: Int64 := -0x8000_0000_0000_0000

  /** A Java `double`, carried as its 64-bit pattern: the model only copies it. */
  datatype Double = Double(bits: bv64)

  /** The exception kinds the core raises or lets through. */
  datatype Error =
    | IllegalArgument      // IllegalArgumentException
    | Security             // SecurityException
    | NullPointer          // NullPointerException (Objects.requireNonNull)
    | Arithmetic           // ArithmeticException (long overflow)
    | NumberFormat         // NumberFormatException (Integer.parseInt)
    | QuotaExceeded        // the rate limiter's memory checks
    | ConstraintViolation  // a UNIQUE column already holds the value
    | DatabaseFull         // no row id is left to assign
    | Malformed            // a parcel or cursor that does not hold what is read

  datatype Option<+T> = None | Some(value: T)

  datatype Result<+T> = Ok(value: T) | Err(error: Error) {
    predicate IsFailure() { Err? }
    function PropagateFailure<U>(): Result<U>
      requires Err?
    {
      Err(error)
    }
    function Extract(): T
      requires Ok?
    {
      value
    }
  }

  /** A value a parcel or cursor read must produce; its absence is Malformed. */
  function Need<T>(o: Option<T>): Result<T>
  {
    if o.Some? then Ok(o.value) else Err(Malformed)
  }

  datatype Outcome = Pass | Fail(error: Error) {
    predicate IsFailure() { Fail? }
    function PropagateFailure(): Outcome
      requires Fail?
    {
      this
    }
  }
}
