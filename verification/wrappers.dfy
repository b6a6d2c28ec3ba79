/** The optional-value datatype used across the model. */
module Wrappers {

  /** `None` stands for a value the game has not produced (no game started yet,
      a sample stream that never hit a free cell, an event that cannot occur). */
  datatype Option<+T> = None | Some(value: T)
}
