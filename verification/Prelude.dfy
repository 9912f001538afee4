/** Types and small functions shared by every module of the model. */
module Prelude {

  datatype Option<+T> = None | Some(value: T)

  /** An instant or a duration, in nanoseconds. */
  type Time = int

  /** The version token of a user or a role. */
  datatype Etag = Etag(text: string)

  function Min(a: int, b: int): int { if a <= b then a else b }

  function Max(a: int, b: int): int { if a <= b then b else a }

  function Last<T>(s: seq<T>): T
    requires s != []
  {
    s[|s|-1]
  }
}
