/** Failure-compatible wrappers and the error kinds the Windows SMB share driver raises. */
module Common {

  datatype Option<+T> = None | Some(value: T)

  /** One constructor per exception the driver can raise. */
  datatype Error =
    | ShareNotFound(shareId: string)                 // exception.ShareNotFound
    | InvalidShareAccess(accessType: string)         // unsupported access type in a rule
    | InvalidShareAccessLevel(level: string)         // unsupported access level in a rule
    | UnknownAccessRight(right: int)                 // KeyError on the Windows right table
    | UnknownAccessLevel(level: string)              // KeyError on the share right table
    | DiskMismatch(mountPath: string, expected: Option<int>, actual: int)  // ShareBackendException
    | EmptyMountpoint                                // IndexError on an empty volume mountpoint
    | PartitionNotFound(disk: int, partition: int)   // failing partition-size query
    | TypeError(reason: string)                      // raised only by the as-written members

  datatype Result<+T> = Success(value: T) | Failure(error: Error) {
    predicate IsFailure() { Failure? }
    function PropagateFailure<U>(): Result<U> requires Failure? { Failure(error) }
    function Extract(): T requires Success? { value }
  }

  /** The result of an operation that returns nothing but may raise. */
  datatype Outcome = Pass | Fail(error: Error) {
    predicate IsFailure() { Fail? }
    function PropagateFailure(): Outcome requires Fail? { this }
  }
}
