/** Option and Result, and the Python exceptions the modelled code can raise. */
module Wrappers {

  datatype Option<+T> = None | Some(value: T)

  datatype Result<+T, +E> = Ok(value: T) | Err(error: E)

  /** The exceptions raised by the modelled code, with what Python reports. */
  datatype PyError =
    | KeyError(key: string)            // `del d[key]` on a missing key
    | ValueError(message: string)      // raised explicitly by the factory
    | AttributeError(attribute: string) // a method the receiver's type lacks
    | TypeError                        // `dict.update` given a non-mapping
}
