/** A minimal optional value, used where the game looks for "the first match". */
module Options {

  datatype Option<+T> = None | Some(value: T)
}
