/** Java's nullable references: `None` stands for `null`. */
module Nullable {

  datatype Option<+T> = None | Some(value: T)
}
