/** Failure values shared by the mesh and finite-element modules.
    Each constructor stands for one C++ exception class the core throws;
    the message is the string the core passes to it. */
module Errors {

  datatype Error =
    | RuntimeError(message: string)      // std::runtime_error
    | InvalidArgument(message: string)   // std::invalid_argument
    | OutOfRange                         // std::out_of_range thrown by std::map::at

  /** The value of an operation that either returns or throws. */
  datatype Result<T> = Ok(value: T) | Err(error: Error)

  /** The outcome of an operation that returns nothing or throws. */
  datatype Status = Done | Failed(error: Error)

  /** The error both mesh lookups throw for an absent id. */
  const NodeNotFound: Error := RuntimeError("Node ID not found")
}
