/** The optional-value datatype used throughout the model: Go's `nil`
    interface or pointer on one side, a present value on the other. */
module Wrappers {

  datatype Option<+T> = None | Some(value: T)
}
