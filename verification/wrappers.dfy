/** Option and Result types shared by the model, and the two ways the converter can crash. */
module Wrappers {

  datatype Option<T> = None | Some(value: T)

  /** Python raises IndexError in two places of the converter; the model names each. */
  datatype Fault =
    | LastOfEmptyList   // `org_output[-1]` on an empty output list
    | FirstWordOfBlank  // `.split()[0]` on text with no word in it

  datatype Result<T> = Ok(value: T) | Err(fault: Fault)
}
