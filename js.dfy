/** Values and failures shared by the modules: `undefined` as `None`, and the
    exceptions a JavaScript call in the modelled code can raise. */
module Js {

  datatype Option<+T> = None | Some(value: T)

  /** What a call can throw: `TypeError` when `Reflect.has` is applied to a
      primitive or a method is called on `undefined`, `LoadFailure` when a
      dynamic `import()` rejects. */
  datatype Error = TypeError | LoadFailure

  /** The result of a call that either returns `value` or throws `error`. */
  datatype Result<+T> = Ok(value: T) | Throw(error: Error)
}
