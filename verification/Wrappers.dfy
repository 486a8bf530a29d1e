/** Shared result types and machine-integer bounds. */
module Wrappers {

  datatype Option<+T> = None | Some(value: T)

  datatype Result<+T, +E> = Ok(value: T) | Err(error: E) {
    predicate IsFailure() { Err? }

    function PropagateFailure<U>(): Result<U, E>
      requires Err?
    {
      Err(error)
    }

    function Extract(): T
      requires Ok?
    {
      value
    }
  }

  /** A guard: `:- Need(condition, error)` returns `Err(error)` unless the condition holds. */
  datatype Guard<+E> = Pass | Fail(error: E) {
    predicate IsFailure() { Fail? }

    function PropagateFailure<U>(): Result<U, E>
      requires Fail?
    {
      Err(error)
    }
  }

  function Need<E>(condition: bool, error: E): Guard<E> {
    if condition then Pass else Fail(error)
  }

  function Toggle<T(==)>(s: set<T>, x: T, on: bool): set<T> {
    if on then s + {x} else s - {x}
  }

  const U32_MAX: nat := 0xFFFF_FFFF

  /** Rust's `u32`: an expression stored in a variable of this type is checked not to overflow. */
  type u32 = x: nat | x <= U32_MAX

  type byte = x: nat | x < 256

  /** Rust's `i128::MAX`. */
  const I128_MAX: nat := 0x7FFF_FFFF_FFFF_FFFF_FFFF_FFFF_FFFF_FFFF
}
