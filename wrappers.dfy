/** Option and Result values, and the errors the lambdas raise. */
module Wrappers {

  datatype Option<+T> = None | Some(value: T)

  datatype Result<+T, +E> = Success(value: T) | Failure(error: E) {
    predicate IsFailure() { Failure? }

    function PropagateFailure<U>(): Result<U, E>
      requires Failure?
    {
      Failure(error)
    }

    function Extract(): T
      requires Success?
    {
      value
    }
  }

  /** Why a list of unpacked files is not a bag (BagError). */
  datatype BagProblem =
    | UnexpectedRootFile(path: string)  // strict mode: a root file that is not allowed
    | NoBagInfo                         // no path names bag-info.txt

  /**
   * Everything that can make a lambda fail. Python's own exceptions
   * (KeyError, IndexError, TypeError) appear where the source relies on them.
   */
  datatype Error =
    | KeyError(key: string)                // a dictionary has no such key
    | IndexError                           // a list produced by split() is too short
    | TypeError                            // a value is not of the type the code needs
    | AttributeError                       // a method called on a value that has none (str.split on a non-str)
    | BagError(problem: BagProblem)        // raised by BagFileMapper
    | NoSuchKey(bucket: string, key: string) // the object store holds no such object
    | ParamValidationError                 // an object read with Key=None
    | ParameterNotFound(name: string)      // the parameter store holds no such parameter
    | IndexerError(missing: string)        // AYRBagIndexerError
    | RoleAssignerError(missing: string)   // AYRBagRoleAssignerError, event key absent
    | UnmappedDepartment(department: string) // AYRBagRoleAssignerError, no role found
    | OpenSearchError(missing: string)     // AYRBagToOpenSearchError
    | NoKeycloakContext(missing: string)   // the REST API's missing Keycloak context, as evidently intended

  type Outcome = Result<(), Error>
}
