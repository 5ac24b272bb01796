/** The few JavaScript run-time notions the jLinq operators depend on:
    what a callback returns, what kind of argument a caller passed, and
    the errors an operator can raise. */
module JsRuntime {

  /** What a predicate or comparer returns. Only two facts about it matter
      to the operators: whether it is a boolean (tested with `===`) and
      whether it is truthy (tested by `if` and by `Array.prototype.filter`).
      Every non-boolean value (a number, a string, null, an object, ...)
      is abstracted to its truthiness. */
  datatype JsVal = Bool(b: bool) | Other(truthy: bool)

  /** JavaScript's ToBoolean on a callback result. */
  predicate Truthy(v: JsVal) {
    match v
    case Bool(b) => b
    case Other(t) => t
  }

  /** The kind of a callback argument: left out (`undefined`), present but
      not callable (null, a number, an object, ...; `truthy` records how
      `!arg` sees it), or a function. */
  datatype Arg<F> = Missing | NotFunction(truthy: bool) | Fn(f: F) {
    /** `!!arg`: undefined is falsy, functions are always truthy. */
    predicate Truthy() {
      match this
      case Missing => false
      case NotFunction(t) => t
      case Fn(_) => true
    }
  }

  /** A value argument that may be `undefined`. */
  datatype Maybe<T> = Undefined | Defined(v: T)

  /** An exception escaping an operator: one the library throws itself with
      `new Error(message)`, or the TypeError the run time raises when a
      non-callable value is called as a function. */
  datatype Error = Thrown(message: string) | NotCallable

  datatype Result<T> = Ok(value: T) | Err(error: Error)

  const INVALID_PREDICATE: string := "Invalid predicate."
  const INVALID_SELECTOR: string := "Invalid selector."
  const INVALID_COMPARER: string := "Invalid comparer."
  const EXPECTED_VALUE: string := "Expected a value."
}
