/** The optional value used wherever the source returns `undefined`/`null`
    or takes a `Partial<...>` field. */
module Options {

  datatype Option<+T> = None | Some(value: T) {

    /** The wrapped value, or `default` when there is none (the `{ ...a, ...patch }` merge of one field). */
    function Or(default: T): T {
      match this
      case Some(v) => v
      case None => default
    }
  }
}
