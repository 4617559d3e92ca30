/** The absent-or-present value that stands for JavaScript's `null` in the model. */
module Options {

  datatype Option<+T> = None | Some(value: T) {

    /** The value, or `default` when absent: JavaScript's `x || default` when
        `x` is never falsy, or when, as with `(text || "")`, the only falsy
        value `x` can hold (`""`) equals `default`, so both readings agree. */
    function GetOr(default: T): T {
      match this
      case Some(v) => v
      case None => default
    }
  }
}
