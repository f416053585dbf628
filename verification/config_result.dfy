/** The `ConfigResult` record shared by every configuration loader. */
module ConfigResults {
  import opened Options

  /** Outcome of one configuration load attempt: the document (absent when the
      attempt produced none), the error list (which may itself be undefined),
      and whether the attempt was abandoned part-way. */
  datatype ConfigResult<+T, +E> =
    ConfigResult(config: Option<T>, errors: Option<seq<E>>, configLoadInterrupted: bool)

  /** The truthiness of `errors?.length`: the list is defined and non-empty.
      Undefined errors count the same as an empty list. */
  predicate HasErrors<T, E>(r: ConfigResult<T, E>)
  {
    r.errors.Some? && |r.errors.value| > 0
  }

  /** The producers' discipline for a result that means something: a result
      without a document carries errors or the interrupted flag. */
  predicate Meaningful<T, E>(r: ConfigResult<T, E>)
  {
    r.config.Some? || HasErrors(r) || r.configLoadInterrupted
  }
}
