/**
 * The failure vocabulary of the container: each `check<X>::precondition`
 * and each `throw X()` of the sparse matrices becomes a `Failure(X)`.
 */
module Checks {

  /** The exception classes the containers raise. */
  datatype Error =
    | BadSize        // mismatched dimensions on assignment or swap
    | BadIndex       // dereferencing a cursor outside [0, size1) x [0, size2)
    | ExternalLogic  // self-swap, or comparing cursors of two different matrices
    | InternalLogic  // an orientation reporting stride 0, or a two-level search on empty storage

  /** The outcome of an operation that may stop at a failed check. */
  datatype Result<+R> = Success(value: R) | Failure(error: Error) {

    predicate IsFailure() {
      Failure?
    }

    function PropagateFailure<U>(): Result<U>
      requires Failure?
    {
      Failure(error)
    }

    function Extract(): R
      requires Success?
    {
      value
    }
  }

  datatype Option<+T> = None | Some(value: T)

  /**
   * The identity of a matrix object. The containers compare addresses
   * (`this != &m`, `&(*this) () == &it ()`); values carry no address, so the
   * model names every matrix instance explicitly.
   */
  type MatrixId = nat

  /** `check<e>::precondition(cond)`: fail with `e` unless `cond` holds. */
  function Require(cond: bool, e: Error): (r: Result<()>)
    ensures r.Success? <==> cond
    ensures r.Failure? ==> r.error == e
  {
    if cond then Success(()) else Failure(e)
  }
}
