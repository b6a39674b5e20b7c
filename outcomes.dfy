/** Error values and result wrappers shared by every package of the engine. */
module Outcomes {

  /** The errors the engine can return. Driver and file-system errors are
      collapsed into one value each: the model does not look inside them. */
  datatype Error =
    | StoreError                  // any error returned by the SQL driver (exec, query, scan, Begin)
    | NoRows                      // sql.ErrNoRows, returned by a single-row scan that found no row
    | FileError                   // any error returned by the file system (create, copy, close, rename)
    | AccessDenied                // ErrAccessDenied
    | CannotShareWithOwner        // "can't share with owner"
    | DocumentNotFound            // "document not found"
    | MultipleRowsFound           // "multiple rows found"
    | UnexpectedRowCount(rows: int) // a write that did not affect exactly one row

  datatype Result<T> = Ok(value: T) | Err(error: Error)

  /** The outcome of an operation that returns only an error. */
  datatype Status = Success | Failure(error: Error)

  /** The affected-rows check that follows every single-row write. */
  function ExpectOneRow(rows: int): (r: Status)
    ensures r.Success? <==> rows == 1
    ensures r.Failure? ==> r.error == UnexpectedRowCount(rows)
  {
    if rows != 1 then Failure(UnexpectedRowCount(rows)) else Success
  }
}
