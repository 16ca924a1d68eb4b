/** Failure-carrying result used wherever the scripts raise and catch exceptions. */
module Results {

  /** `Ok` carries a value; `Err` carries the printed description of the exception. */
  datatype Result<+T> = Ok(value: T) | Err(msg: string)

  /** Python-style optional value. */
  datatype Option<+T> = None | Some(value: T)
}
