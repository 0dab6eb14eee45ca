/** An optional value. `None` stands for JavaScript's `undefined` wherever the
    sidebar tests an argument or a field with `!== undefined`, `?.` or `||`. */
module Options {

  datatype Option<+T> = None | Some(value: T) {

    /** `x !== undefined ? x : fallback` */
    function GetOr(fallback: T): (r: T)
      ensures Some? ==> r == value
      ensures None? ==> r == fallback
    {
      match this
      case Some(v) => v
      case None => fallback
    }

    /** The same test when the fallback may itself be undefined. */
    function OrElse(fallback: Option<T>): (r: Option<T>)
      ensures Some? ==> r == this
      ensures None? ==> r == fallback
    {
      if Some? then this else fallback
    }
  }
}
