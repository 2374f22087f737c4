/** Outcome types shared by the importers. */
module Results {

  /** A value that may be missing: a token that does not parse, a failed lookup. */
  datatype Option<+T> = None | Some(value: T)

  /** The outcome of importing a file line by line: the imported value, or the
      index (0-based) of the line on which the importer gave up (panicked). */
  datatype Result<+T> = Ok(value: T) | Failed(line: nat)
}
