/** The optional value used wherever the C++ sources return `std::optional` or throw. */
module Options {
  datatype Option<+T> = None | Some(value: T)
}
