/** Small result types shared by the modules of the model. */
module Outcomes {

  datatype Option<+T> = None | Some(value: T)

  /** The result of a step that may raise: its value, or the message of the exception it raised. */
  datatype Attempt<+T> = Value(value: T) | Raised(message: string)

  /** The result of a step run only for its effect (writing or deleting a file). */
  datatype Outcome = Done | Failed(message: string)
}
