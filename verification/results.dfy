/** Failure-carrying datatypes shared by the model: an optional value (Python's
    `None` or a value) and a result that is either a value or the exception the
    source would raise. */
module Results {

  datatype Option<+T> = None | Some(value: T)

  /** The exceptions the source can raise on its own inputs. */
  datatype Failure =
    /** Python/numpy `IndexError`: `index` is not below `size`. */
    | IndexOutOfRange(index: nat, size: nat)
    /** numpy `ValueError` from `argpartition`: `kth` is not below the pool `size`. */
    | KthOutOfBounds(kth: nat, size: nat)
    /** numpy `IndexError`: an array built from an empty list has a float dtype
        and cannot be used as an index array. */
    | NonIntegerIndexArray
    /** Python `ZeroDivisionError` from `/` on two ints. */
    | ZeroDivision

  datatype Result<+T> = Ok(value: T) | Err(error: Failure)
}
