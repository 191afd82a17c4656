/** Error results shared by the averaging and mapping modules.
    Each failure names the Python exception the Python code raises. */
module Outcome {

  datatype Failure =
    | IndexOutOfRange   // `image_list[1]` on a listing with fewer than two entries (IndexError)
    | ZeroRangeStep     // `range(start, end + 1, 0)` (ValueError)
    | EmptyImage        // `np.max` of an image with no pixels (ValueError)
    | EmptySequence     // `min(...)` / `max(...)` of an empty list (ValueError)
    | ReshapeMismatch   // `reshape((shape_y, shape_x))` with the wrong element count (ValueError)

  datatype Result<T> = Ok(value: T) | Err(failure: Failure)

  datatype Option<T> = None | Some(value: T)
}
