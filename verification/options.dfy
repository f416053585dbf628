/** The optional-value wrapper used for TypeScript's `T | undefined`. */
module Options {

  /** `None` stands for `undefined`, `Some(v)` for a defined value `v`. */
  datatype Option<+T> = None | Some(value: T)
}
