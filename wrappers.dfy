/** The optional value used wherever the bot returns `None` for "nothing". */
module Wrappers {

  datatype Option<+T> = None | Some(value: T)
}
