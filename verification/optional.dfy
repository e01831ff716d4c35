/** The Some/None datatype used wherever the program uses `null` or a `-1` index. */
module Optional {

  datatype Option<+T> = None | Some(value: T)

}
