/** What an operation of the snapshot engine or the loader returns: a value or an error text. */
module Outcomes {

  datatype Outcome<+T> = Ok(value: T) | Err(error: string)
}
