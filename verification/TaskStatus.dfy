/** The status of an asynchronous task (model/task.go, lines 34-42). */
module TaskStatus {
  datatype Status = NotStart | Submitted | Queued | InProgress | Success | Failure | Unknown

  predicate Finished(s: Status) {
    s == Success || s == Failure
  }
}
