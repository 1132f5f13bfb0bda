/** The optional value used for missing environment variables, absent query
    parameters, and first-match searches that find nothing. */
module Options {

  datatype Option<+T> = None | Some(value: T) {

    function GetOr(default: T): T {
      match this
      case Some(v) => v
      case None => default
    }
  }
}
