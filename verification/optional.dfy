/** The null-or-value idiom of the window code: a DSP pointer that may be
    NULL, a parse that may fail, a settings file that may be missing. */
module Optional {

  datatype Option<+T> = None | Some(value: T) {

    /** Returns the value held, or `default` when there is none. */
    function GetOr(default: T): T {
      match this
      case Some(v) => v
      case None => default
    }
  }
}
