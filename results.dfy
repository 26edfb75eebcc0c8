/** Rust's `Option` and `Result`, with the two combinators the core uses
    (`Result::map` and `Result::map_err`). */
module Results {

  datatype Option<+T> = None | Some(value: T)

  datatype Result<+T, +E> = Ok(value: T) | Err(error: E) {

    /** `Result::map`: applies `f` to an `Ok` value, passes an `Err` through. */
    function Map<U>(f: T -> U): Result<U, E> {
      match this
      case Ok(v) => Ok(f(v))
      case Err(e) => Err(e)
    }

    /** `Result::map_err`: applies `f` to an `Err` value, passes an `Ok` through. */
    function MapErr<F>(f: E -> F): Result<T, F> {
      match this
      case Ok(v) => Ok(v)
      case Err(e) => Err(f(e))
    }
  }
}
