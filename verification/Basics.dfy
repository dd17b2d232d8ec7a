/** A few definitions that several modules share. */
module Basics {
  datatype Option<T> = None | Some(value: T)

  /** The greatest C int. */
  const INT_MAX: int := 0x7fff_ffff

  function Last<T>(s: seq<T>): T
    requires s != []
  {
    s[|s| - 1]
  }

  function Front<T>(s: seq<T>): (f: seq<T>)
    requires s != []
    ensures |f| < |s|
  {
    s[..|s| - 1]
  }
}
