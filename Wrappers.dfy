/** The optional-value datatype used for JavaScript's `null` / `undefined`
    and for decoders that may reject their input. */
module Wrappers {
  datatype Option<+T> = None | Some(value: T)
}
