/** The optional value used wherever the program has `std::optional`, a null pointer or a thrown exception. */
module Options {

  datatype Option<+T> = None | Some(value: T)
}
