/** Error codes shared by every component (the `asper_err` enumeration, restricted
    to the codes the modelled functions return) and the usual optional value. */
module Outcomes {
  datatype Err = Ok | Io | Parse | NotFound | Locked | Invalid | Busy | NoMem | Limit

  datatype Option<+T> = None | Some(value: T)
}
