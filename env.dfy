/**
 * The outcome of reading SERVER_ID and PROCESS_ID from the environment.
 *
 * Reading the variables and parsing their text is left to the caller: each
 * parse result arrives as an `Option`, `None` standing for a parse error.
 * The generators' environment entry points only add range checks on top.
 */
module Env {

  datatype Option<T> = None | Some(value: T)

  /** Why an environment entry point refused to produce an id. */
  datatype EnvError =
    | ServerParse    // SERVER_ID did not parse
    | ServerRange    // SERVER_ID parsed but is out of range
    | ProcessParse   // PROCESS_ID did not parse
    | ProcessRange   // PROCESS_ID parsed but is out of range

  datatype Result<T> = Ok(value: T) | Err(error: EnvError)
}
