/** The optional value that the source's `std::optional` results become. */
module Options {

  datatype Option<+T> = None | Some(value: T)
}
