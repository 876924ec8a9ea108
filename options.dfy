/** The optional value the bot returns where Python returns `None`. */
module Options {
  datatype Option<T> = None | Some(value: T)
}
