/** Failure-carrying results shared by the whole model.
    The source raises an exception for every rejected input; the model does not
    distinguish the messages, so every rejection is the one value `Invalid`. */
module Outcome {

  datatype Result<+T> = Ok(value: T) | Invalid

  datatype Option<+T> = None | Some(value: T)
}
