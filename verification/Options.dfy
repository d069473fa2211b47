/** A value that may be absent: what a lookup, a parse or an optional field yields. */
module Options {
  datatype Option<T> = None | Some(value: T) {
    function GetOr(default: T): T { if Some? then value else default }
  }
}
