/** Values that may be missing and computations that may fail. */
module Options {
  datatype Option<T> = None | Some(value: T)

  datatype Result<T> = Good(value: T) | Bad(error: int) {
    function ToOption(): Option<T> {
      match this
      case Good(value) => Some(value)
      case Bad(_) => None
    }
  }
}
