/// Rust's `Option`, shared by the parser's `Function` record and the
/// manifest's `Package` record.
module Options {

  datatype Option<+T> = None | Some(value: T)
}
