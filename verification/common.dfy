/** Small shared vocabulary of the model: optional values, raw bytes and timestamps. */
module Common {

  /** A value that may be absent, as Ruby's `nil` marks a missing request parameter. */
  datatype Option<+T> = None | Some(value: T)

  /** Uploaded file contents; the service never looks inside them. */
  type Bytes = seq<bv8>

  /** A point in time, as read from the clock (`Time.now`) and passed in by the caller. */
  type Time = nat
}
