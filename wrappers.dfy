/** Optional values and error returns, standing in for Python's None and raised exceptions. */
module Wrappers {

  datatype Option<+T> = None | Some(value: T)

  /** The ways a modelled Python call can raise instead of returning. */
  datatype Error =
    | KeyError(key: string)
    | IndexError
    | ValueError(message: string)
    | TypeError(message: string)
    | AttributeError(message: string)
    | UpstreamFailure(message: string)

  datatype Result<+T> = Ok(value: T) | Err(error: Error)
}
