/** An optional value: Go's nil function or map miss on one side, a present value on the other. */
module Options {

  datatype Option<T> = None | Some(value: T)

}
