/** Why building, merging effects into or running a machine failed. */
module Errors {
  import opened Types

  datatype FSMError<S> =
    | StateDoesNotExist(state: S)
    | TransDoesNotExist(conn: StatesConnection<S>)
    | NoValidTransition(from: S, inputData: StreamData)
}
