/** Outcomes shared by the whole model: Rust's `Option`, and a `Result` whose
    failure side records why an operation stopped abnormally (a panic, or a
    dereference the Rust code leaves undefined). */
module Outcome {

  /** Rust's `Option`: `None` is an expected, recoverable absence. */
  datatype Option<+T> = None | Some(value: T)

  /** Why an operation did not complete. */
  datatype Fault =
    | PeerNotSetUp            // panic "Peer not set up": the C++ peer holder is still Empty
    | AlreadyBorrowed         // RefCell::borrow_mut while any borrow is outstanding
    | AlreadyMutablyBorrowed  // RefCell::borrow while a mutable borrow is outstanding
    | DanglingPeer            // following a raw peer pointer whose C++ peer was destroyed

  /** A completed operation, or the fault that stopped it. */
  datatype Result<+T> = Success(value: T) | Failure(fault: Fault)
}
