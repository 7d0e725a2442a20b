/** The JavaScript `undefined`-or-value results of this model. */
module Options {

  /** `None` stands for JavaScript's `undefined` (an out-of-range index, a failed `find`). */
  datatype Option<+T> = None | Some(value: T)
}
