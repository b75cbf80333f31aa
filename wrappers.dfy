/** The usual optional-value datatype. */
module Wrappers {

  datatype Option<+T> = None | Some(value: T)

  /** The zero or one elements of an option, as a sequence. */
  function OptionToSeq<T>(o: Option<T>): (r: seq<T>)
    ensures |r| <= 1
    ensures o.Some? <==> |r| == 1
    ensures o.Some? ==> r[0] == o.value
  {
    match o
    case None => []
    case Some(v) => [v]
  }
}
