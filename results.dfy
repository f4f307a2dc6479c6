/** Optional values and results with an error, used for JavaScript's
    `undefined`/`null` fields and for thrown errors. */
module Results {

  datatype Option<+T> = None | Some(value: T) {
    /** `value ?? default` */
    function GetOr(default: T): T {
      if Some? then value else default
    }
  }

  datatype Result<+T, +E> = Ok(value: T) | Err(error: E)
}
