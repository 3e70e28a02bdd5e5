/** Shared vocabulary of the drag-teaching model: optional values, results,
    joint vectors and action slots. */
module Common {

  /** A value that may be missing (Python's `None`). */
  datatype Option<+T> = None | Some(value: T)

  /** The outcome of an operation that can fail. */
  datatype Result<+T, +E> = Success(value: T) | Failure(error: E)

  /** One reading or command for every servo, in motor order (`Present_Position`
      / `Goal_Position`). Entries are unbounded integers: the `np.int32` casts of
      the program are not modelled. */
  type JointVector = seq<int>

  /** The number under which an action is stored in the action library. */
  type Slot = n: int | 1 <= n <= 10 witness 1

  function Abs(x: int): nat
  {
    if x < 0 then -x else x
  }

  /** `x` lies on the closed segment between `a` and `b`, whichever is larger. */
  predicate Within(x: int, a: int, b: int)
  {
    (a <= x <= b) || (b <= x <= a)
  }
}
