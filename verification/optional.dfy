/** An optional value: the model's stand-in for JavaScript's `undefined`,
    a missing JSON field, or `NaN` coming out of `parseInt`. */
module Optional {

  datatype Option<+T> = None | Some(value: T)

}
