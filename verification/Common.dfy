/** Declarations that several modules share. */
module Common {

  datatype Option<T> = None | Some(value: T)

  /** What an entry of the job stream holds. */
  datatype Payload = Unreadable | Job(scan: nat)
}
