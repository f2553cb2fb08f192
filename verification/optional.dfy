/** Swift's `Optional`, used for a tile's occupant, a move's optional fields
    and every `?`-typed result of the engine. */
module Optional {

  datatype Option<+T> = None | Some(value: T)
}
