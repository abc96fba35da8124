/** A value that may be absent: an undefined database node, or a lookup that found nothing. */
module Options {

  datatype Option<+T> = None | Some(value: T)

  /** The number held by a node, an undefined node counting as 0. */
  function OrZero(x: Option<int>): int {
    match x
    case None => 0
    case Some(v) => v
  }
}
