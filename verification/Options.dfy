/** The optional value used throughout the model for a possibly missing result. */
module Options {
  datatype Option<+T> = None | Some(value: T)

  /** How often a yes counts. */
  function One(b: bool): nat { if b then 1 else 0 }
}
