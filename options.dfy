/** The Option type the Rust code returns from its fallible conversions. */
module Options {

  datatype Option<+T> = None | Some(value: T)

}
