/** The error channel: a failure is carried as a message string. For the checker's own errors
    (`TAB_FORBIDDEN`, `FLOAT_FORBIDDEN`, `BAD_KIND`, ...) that string is the code the source raises,
    and the `KeyError` of a missing `expected_hash` keeps its text `'expected_hash'`. Exceptions
    Python raises itself (a `TypeError` or `ValueError` from `int()`, a decode error from
    `json.loads`) keep only the fact of failing: their text is whatever the model or its `parse`
    parameter chooses. */
module Results {

  datatype Result<+T> = Ok(value: T) | Err(msg: string)

  datatype Option<+T> = None | Some(value: T)
}
