/** Kotlin's nullable results (`T?`), written as an explicit option. */
module Optional {

  datatype Option<+T> = None | Some(value: T)

}
