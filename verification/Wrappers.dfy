/** Optional values and error returns. */
module Wrappers {
  datatype Option<+T> = None | Some(value: T)

  /** The errors of the block store and the query server, by cause. */
  datatype Error =
    | EntityNotFound
    | EntityIdNotFound
    | EmptyOperation
    | BitmapNotFound
    | StateNotFound
    | ParentNotFound
    | BlockNotFound

  datatype Result<+T> = Ok(value: T) | Err(error: Error)
}
