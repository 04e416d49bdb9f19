/** The usual optional value, standing for the `None` of the service's Python code. */
module Options {

  datatype Option<+T> = None | Some(value: T)
  {
    function GetOr(default: T): T {
      match this
      case Some(v) => v
      case None => default
    }
  }

  /** Python's `text or default`: a missing text and an empty one both give way. */
  function TextOr(text: Option<string>, default: string): string {
    if text.Some? && text.value != "" then text.value else default
  }
}
