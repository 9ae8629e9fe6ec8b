/** Optional values, results, and what a remote command did; shared by every other module. */
module Common {
  datatype Option<+T> = None | Some(value: T)

  datatype Result<+T, +E> = Ok(value: T) | Err(error: E)

  /** A command is executed and confirmed, executed with its confirmation lost, or not executed. */
  datatype Effect = Clean | Lost | Failed {
    predicate Done() {
      !Failed?
    }
  }

  /** A pipeline: how many of its commands were executed, and whether its replies arrived. */
  datatype Pipeline = Pipeline(executed: nat, replied: bool)
}
