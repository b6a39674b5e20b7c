/** The audit-log store (pkg/access_control/internal/db/audit_log.go). */
module AuditLog {
  import opened Outcomes
  import opened Store

  /** Log: inserts one (user, document, action, timestamp) row into the
      append-only `audit_log` table. `execFails` stands for an error from the
      driver's ExecContext, which inserts nothing; the rows-affected check
      then compares the number of rows the insert added with 1. */
  method Log(db: Database, userID: UserId, documentID: DocId, action: string, now: Timestamp, execFails: bool)
    returns (r: Status)
    modifies db`auditLog
    ensures r.Success? <==> !execFails
    ensures r.Failure? ==> r.error == StoreError
    ensures db.auditLog == old(db.auditLog) + (if execFails then [] else [AuditRecord(userID, documentID, action, now)])
  {
    if execFails {
      return Failure(StoreError);
    }
    var before := |db.auditLog|;
    db.auditLog := db.auditLog + [AuditRecord(userID, documentID, action, now)];
    r := ExpectOneRow(|db.auditLog| - before);
  }
}
