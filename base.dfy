/** Values shared by the drawing and the frame loop: an optional value (Python's `None`)
    and an integer pixel position. */
module Base {

  /** `None` or a present value, as Python's `None` is used for "no point" / "no hand". */
  datatype Option<T> = None | Some(value: T)

  /** A pixel position on the frame; image y grows downward. */
  datatype Point = Point(x: int, y: int)
}
