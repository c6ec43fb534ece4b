/** The option and result types shared by every module of the model. */
module Wrappers {
  datatype Option<+T> = None | Some(value: T)

  /** `Err` stands for every error return of the modelled code; the message is not modelled. */
  datatype Result<+T> = Ok(value: T) | Err
}
