/** Error values and optional results shared by every component of the model. */
module Errors {

  /** The errors the service tells apart. */
  datatype Error =
    | Canceled        // context.Canceled: the caller's context ended while a command was pending
    | NilReply        // redis.Nil: a blocking pop whose timeout elapsed with nothing to return
    | StoreError      // any other error reply from the store, or a lost connection
    | MarshalError    // json.Marshal refused the task
    | UnmarshalError  // json.Unmarshal refused the stored text

  datatype Option<+T> = None | Some(value: T)

  datatype Result<+T> = Ok(value: T) | Err(error: Error)
}
