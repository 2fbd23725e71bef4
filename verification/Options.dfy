/** A value that may be missing. */
module Options {
  datatype Option<+T> = None | Some(value: T)

  /** One if it holds, else none. */
  function One(b: bool): nat {
    if b then 1 else 0
  }
}
