/** The Some/None wrapper used wherever the game code works with `null`,
    `undefined` or a missing object field. */
module Optional {

  datatype Option<+T> = None | Some(value: T) {

    /** The wrapped value, or `default` when there is none (JavaScript's `??`). */
    function GetOr(default: T): (r: T)
      ensures Some? ==> r == value
      ensures None? ==> r == default
    {
      match this
      case Some(v) => v
      case None => default
    }

    /** Object-spread precedence: a present field of `this` wins over `base`. */
    function Or(base: Option<T>): (r: Option<T>)
      ensures Some? ==> r == this
      ensures None? ==> r == base
    {
      if Some? then this else base
    }
  }
}
