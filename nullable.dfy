/** A value that may be JavaScript `null` (or `undefined`, which the modelled code treats alike). */
module Nullable {

  datatype Option<+T> = None | Some(value: T)
}
