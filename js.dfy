/** JavaScript values as the modelled code sees them. */
module Js {

  /** A property slot of a JavaScript object: absent (reads as `undefined`),
      explicitly `null`, or holding a value. The reducer and the action
      creators distinguish the first two, so the model does too. */
  datatype JsVal<+T> = Undefined | Null | Defined(value: T)

  /** An opaque JavaScript object (a feature, a style, a geometry, an options
      bag), known to the modelled code only by identity. */
  datatype Obj = Obj(ref: nat)

  /** A value that may be missing, for state that is not a JavaScript slot. */
  datatype Option<+T> = None | Some(value: T)
}
