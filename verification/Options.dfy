/** The two-way choice used wherever the original has a nullable value. */
module Options {

  datatype Option<+T> = None | Some(value: T)
}
