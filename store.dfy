/** The state the engine works on: the three tables of the SQL database and
    the file namespace that holds document contents.

    Every table is an abstract value: `documents` is keyed by its primary key
    `id`, whose next value is the auto-increment counter `nextId`; the
    `permissions` and `audit_log` tables have no key the code relies on, so
    they are sequences of rows in table order. */
module Store {
  import opened Outcomes
  import opened Perm

  type UserId = int
  type DocId = int
  type Path = string
  newtype byte = b: int | 0 <= b < 256
  type Bytes = seq<byte>

  /** The time.Now() value written into an audit row; supplied by the caller. */
  type Timestamp = int

  /** A row of the `documents` table (pkg/documents/internal/db/model.go). */
  datatype Document = Document(
    id: DocId,
    owner: UserId,
    path: Path,
    version: int,
    size: int,
    mediaType: string,
    fileName: string)

  /** A row of the `permissions` table. */
  datatype Grant = Grant(document: DocId, user: UserId, permissions: Mask)

  /** A row of the `audit_log` table. */
  datatype AuditRecord = AuditRecord(user: UserId, document: DocId, action: string, timestamp: Timestamp)

  /** How a multi-row query ends: it may fail outright, the scan of the row
      at a given position (0-based, among the rows the query returned) may
      fail, or fetching the row at a given position may fail inside
      rows.Next (a driver error or a cancelled context), which then reports
      false as if the rows had run out and leaves the error in rows.Err. */
  datatype ScanFault = NoScanFault | QueryFails | ScanFailsAt(row: nat) | NextFailsAt(row: nat)

  /** A query returning `rows` rows is read to the end under `fault`. */
  predicate ScanCompletes(fault: ScanFault, rows: nat)
  {
    match fault
    case NoScanFault => true
    case QueryFails => false
    case ScanFailsAt(k) => k >= rows
    case NextFailsAt(k) => k >= rows
  }

  /** The query or a row scan returns an error under `fault`. */
  predicate ScanErrs(fault: ScanFault, rows: nat)
  {
    fault.QueryFails? || (fault.ScanFailsAt? && fault.row < rows)
  }

  /** rows.Next stops early under `fault`: rows.Err is set after the loop. */
  predicate NextFails(fault: ScanFault, rows: nat)
  {
    fault.NextFailsAt? && fault.row < rows
  }

  /** The number of rows a `for rows.Next()` loop sees under `fault`. */
  function RowsSeen(fault: ScanFault, rows: nat): (n: nat)
    ensures n <= rows
    ensures n < rows <==> NextFails(fault, rows)
  {
    if NextFails(fault, rows) then fault.row else rows
  }

  /** Every row is stored under its own id. */
  predicate KeyedById(documents: map<DocId, Document>)
  {
    forall id :: id in documents ==> documents[id].id == id
  }

  class Database {
    var documents: map<DocId, Document>
    var nextId: DocId
    var permissions: seq<Grant>
    var auditLog: seq<AuditRecord>

    /** The primary-key discipline of `documents`: ids come from the
        auto-increment counter, which starts at 1 and is always ahead. */
    ghost predicate Valid()
      reads this
    {
      && nextId >= 1
      && KeyedById(documents)
      && (forall id :: id in documents ==> 1 <= id < nextId)
    }

    constructor ()
      ensures Valid()
      ensures documents == map[] && nextId == 1 && permissions == [] && auditLog == []
    {
      documents := map[];
      nextId := 1;
      permissions := [];
      auditLog := [];
    }
  }

  /** The process's view of the file system: a map from path to contents. */
  class FileSystem {
    var files: map<Path, Bytes>

    constructor ()
      ensures files == map[]
    {
      files := map[];
    }

    /** os.Rename: moves the file at `src` to `dst`, replacing whatever was at `dst`.
        It fails when `src` does not exist or the file system reports an error. */
    method Rename(src: Path, dst: Path, fails: bool) returns (r: Status)
      modifies this`files
      ensures r.Success? <==> !fails && src in old(files)
      ensures r.Failure? ==> r.error == FileError
      ensures files == if r.Success? then Renamed(old(files), src, dst) else old(files)
    {
      if fails || src !in files {
        return Failure(FileError);
      }
      files := Renamed(files, src, dst);
      return Success;
    }
  }

  /** The file map after moving `src` to `dst`. */
  function Renamed(files: map<Path, Bytes>, src: Path, dst: Path): (r: map<Path, Bytes>)
    requires src in files
    ensures dst in r && r[dst] == files[src]
    ensures src != dst ==> src !in r
    ensures forall p :: p in r && p != dst ==> p in files && r[p] == files[p]
    ensures forall p :: p in files && p != src ==> p in r
  {
    (files - {src})[dst := files[src]]
  }
}
