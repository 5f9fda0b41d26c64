/** Values shared by both repositories: the C# code's nullable references and
    thrown exceptions, made explicit as data. */
module Results {

  /** A reference that may be `null`. */
  datatype Option<+T> = None | Some(value: T) {
    /** `x ?? default`, as in `if (tag == null) tag = typeof(T).ToString();` */
    function GetOr(default: T): T {
      if Some? then value else default
    }
  }

  /** What one call to a data source leaves behind: a list (possibly empty,
      meaning "consulted, zero rows"), `null` (no data), or an exception. */
  datatype Reply<+R> = Null | Rows(rows: seq<R>) | Fault

  /** The exceptions a fetch can let escape to its caller. */
  datatype Exception =
    | NullReference       // `result.Count` evaluated on a null `result`
    | ArgumentOutOfRange  // `new DateTime(year, 1, 1)` outside years 1..9999

  /** How a `fetch0` call ends: it returns a list, or it throws. */
  datatype Fetched<+R> = Returned(list: seq<R>) | Threw(error: Exception)
}
