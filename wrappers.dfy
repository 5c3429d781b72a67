/** An optional value: a lookup that may find nothing, a payload field that may be missing. */
module Wrappers {
  datatype Option<+T> = None | Some(value: T)
  {
    /** The value, or `default` when absent (a destructuring default such as `{ fileId = '' }`). */
    function GetOr(default: T): T
    {
      if Some? then value else default
    }
  }
}
