/** An optional value: a taxi's bound client, or "nothing found". */
module Options {

  datatype Option<+T> = None | Some(value: T)
}
