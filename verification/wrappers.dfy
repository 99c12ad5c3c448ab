/** Failure-carrying result types shared by every module of the model. */
module Wrappers {

  /** The error conditions the modelled code can surface to its caller. */
  datatype Error =
    | ConstraintError   // IndexedDB `add` on an existing key, or a unique-index clash on `add`/`put`
    | DataError         // IndexedDB `add`/`put` of a value whose key path yields no key
    | NotAvailable      // `Resource.allocate` on a resource that is already allocated
    | NotImplemented    // the student DAO's `delete`, which only throws
    | TypeError         // a missing array field, or a method called on a plain stored object

  /** `undefined` versus a present value. */
  datatype Option<+T> = None | Some(value: T) {
    function GetOr(default: T): T {
      match this
      case Some(v) => v
      case None => default
    }
  }

  /** A completed call (`Success`) or a thrown/rejected one (`Failure`). */
  datatype Result<+T> = Success(value: T) | Failure(error: Error)
}
