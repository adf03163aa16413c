/** The absent-or-present value that Kotlin writes as a nullable type (`T?`). */
module Optional {

  datatype Option<+T> = None | Some(value: T)

}
