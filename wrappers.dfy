/** Option and Outcome: absence of a value, and a Python exception escaping a call. */
module Wrappers {

  datatype Option<+T> = None | Some(value: T)

  /** `Raised` stands for any exception that propagates out of a Python call;
      the callers in the modelled code catch all exceptions alike, so the kind
      of exception is not kept. */
  datatype Outcome<+T> = Raised | Ok(value: T)
}
