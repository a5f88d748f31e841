/** The optional value used throughout the model: `None` stands for "nothing
    resolved" (a fatal exit or an absent file), `Some` for a resolved value. */
module Wrappers {
  datatype Option<+T> = None | Some(value: T)
}
