/** The sum types shared by the other modules. */
module Wrappers {

  datatype Option<+T> = None | Some(value: T)

  /** Left is a finished answer, Right a value to continue from. */
  datatype Either<+L, +R> = Left(left: L) | Right(right: R)
}
