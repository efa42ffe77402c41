/** `T | null`: a value that may be absent, as the selected day is before any click. */
module Options {

  datatype Option<T> = None | Some(value: T) {

    /** `x ?? fallback`: the held value when present, `fallback` when absent. */
    function ValueOr(fallback: T): (r: T)
      ensures Some? ==> r == value
      ensures None? ==> r == fallback
    {
      if Some? then value else fallback
    }
  }
}
