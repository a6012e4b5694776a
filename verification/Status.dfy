/** The results the card operations return. */
module Status {
  datatype Status = Ok | InvalidArg | Unsupported | NotFound | Exists | NoSpace | NoTarget

  datatype Option<+T> = None | Some(value: T)
}
