/** The optional value that stands for a nullable column or a missing argument. */
module Options {

  datatype Option<+T> = None | Some(value: T) {

    function GetOr(fallback: T): T {
      match this
      case Some(v) => v
      case None => fallback
    }
  }
}
