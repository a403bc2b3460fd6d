/** The optional value used where the bot's Python code may yield nothing or raise. */
module Wrappers {

  datatype Option<+T> = None | Some(value: T)
}
