/** The optional value used throughout the model for nullable pointers. */
module Wrappers {
  datatype Option<T> = None | Some(value: T)
  {
    /** The value if present, otherwise `default` (NullablePtr::getPtrOr). */
    function GetOr(default: T): (r: T)
      ensures this.Some? ==> r == value
      ensures this.None? ==> r == default
    {
      match this
      case Some(v) => v
      case None => default
    }
  }
}
