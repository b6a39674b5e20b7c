/** The document metadata store (pkg/documents/internal/db/documents.go). */
module DocumentStore {
  import opened Outcomes
  import opened Store

  /** Get: the single-row query by id, returning all seven columns. `fails`
      stands for an error from the query or the scan; a missing row is the
      driver's sql.ErrNoRows. */
  function Get(documents: map<DocId, Document>, documentID: DocId, fails: bool): (r: Result<Document>)
    ensures r.Ok? <==> !fails && documentID in documents
    ensures r.Ok? ==> r.value == documents[documentID]
    ensures r.Err? ==> r.error == if fails then StoreError else NoRows
  {
    if fails then Err(StoreError)
    else if documentID !in documents then Err(NoRows)
    else Ok(documents[documentID])
  }

  predicate OwnedRow(documents: map<DocId, Document>, userID: UserId, id: DocId)
  {
    id in documents && documents[id].owner == userID
  }

  /** The rows `select ... where owner = ?` returns among the ids in
      [lo, hi), in ascending id order: rows of the table, owned by the user. */
  function OwnedRows(documents: map<DocId, Document>, userID: UserId, lo: int, hi: int): (rows: seq<Document>)
    requires KeyedById(documents)
    ensures forall i :: 0 <= i < |rows| ==>
              lo <= rows[i].id < hi && OwnedRow(documents, userID, rows[i].id) && documents[rows[i].id] == rows[i]
    ensures forall i, j :: 0 <= i < j < |rows| ==> rows[i].id < rows[j].id
    decreases hi - lo
  {
    if hi <= lo then []
    else
      OwnedRows(documents, userID, lo, hi - 1)
        + (if OwnedRow(documents, userID, hi - 1) then [documents[hi - 1]] else [])
  }

  /** Every row of the user in the id range is returned. */
  lemma {:induction false} OwnedRowsComplete(documents: map<DocId, Document>, userID: UserId, lo: int, hi: int, id: DocId)
    requires KeyedById(documents)
    requires lo <= id < hi && OwnedRow(documents, userID, id)
    ensures documents[id] in OwnedRows(documents, userID, lo, hi)
    decreases hi - lo
  {
    var front := OwnedRows(documents, userID, lo, hi - 1);
    if id < hi - 1 {
      OwnedRowsComplete(documents, userID, lo, hi - 1, id);
      assert front <= OwnedRows(documents, userID, lo, hi);
    }
  }

  /** Scanning further only adds rows at the end. */
  lemma {:induction false} OwnedRowsPrefix(documents: map<DocId, Document>, userID: UserId, lo: int, mid: int, hi: int)
    requires KeyedById(documents)
    requires mid <= hi
    ensures OwnedRows(documents, userID, lo, mid) <= OwnedRows(documents, userID, lo, hi)
    decreases hi - mid
  {
    if mid < hi {
      OwnedRowsPrefix(documents, userID, lo, mid, hi - 1);
    }
  }

  /** Over the whole id range of a valid table, the scan returns exactly the
      rows whose owner is the user, each once. */
  lemma OwnedRowsAreTheUsersRows(documents: map<DocId, Document>, userID: UserId, nextId: DocId, d: Document)
    requires KeyedById(documents)
    requires forall id :: id in documents ==> 1 <= id < nextId
    ensures d in OwnedRows(documents, userID, 1, nextId) <==>
              d.id in documents && documents[d.id] == d && d.owner == userID
    ensures multiset(OwnedRows(documents, userID, 1, nextId))[d] <= 1
  {
    var rows := OwnedRows(documents, userID, 1, nextId);
    if d.id in documents && documents[d.id] == d && d.owner == userID {
      OwnedRowsComplete(documents, userID, 1, nextId, d.id);
    }
    if d in rows {
      var i :| 0 <= i < |rows| && rows[i] == d;
      assert documents[d.id] == d;
    }
    DistinctIdsOccurOnce(rows, d);
  }

  /** In a sequence with strictly increasing ids no element occurs twice. */
  lemma {:induction false} DistinctIdsOccurOnce(rows: seq<Document>, d: Document)
    requires forall i, j :: 0 <= i < j < |rows| ==> rows[i].id < rows[j].id
    ensures multiset(rows)[d] <= 1
    decreases |rows|
  {
    if rows != [] {
      assert rows == [rows[0]] + rows[1..];
      DistinctIdsOccurOnce(rows[1..], d);
      if rows[0] == d {
        assert d !in rows[1..] by {
          forall k | 0 <= k < |rows[1..]| ensures rows[1..][k] != d {
            assert rows[1..][k] == rows[k + 1];
          }
        }
      }
    }
  }

  /** ListDocuments as written: the rows owned by the user, each once, in
      ascending id order. A failing query or scan returns an error. The loop
      never consults rows.Err, so when rows.Next stops early the rows read so
      far come back as a successful answer. */
  method ListDocuments(db: Database, userID: UserId, fault: ScanFault) returns (r: Result<seq<Document>>)
    requires db.Valid()
    ensures r.Ok? <==> !ScanErrs(fault, |OwnedRows(db.documents, userID, 1, db.nextId)|)
    ensures r.Err? ==> r.error == StoreError
    ensures r.Ok? ==>
              var rows := OwnedRows(db.documents, userID, 1, db.nextId);
              r.value == rows[..RowsSeen(fault, |rows|)]
    // An error inside rows.Next is returned as success with rows missing.
    ensures NextFails(fault, |OwnedRows(db.documents, userID, 1, db.nextId)|) ==>
              r.Ok? && |r.value| < |OwnedRows(db.documents, userID, 1, db.nextId)|
  {
    if fault.QueryFails? {
      return Err(StoreError);
    }
    var documents: seq<Document> := [];
    var id := 1;
    while id < db.nextId
      invariant 1 <= id <= db.nextId
      invariant documents == OwnedRows(db.documents, userID, 1, id)
      invariant fault.ScanFailsAt? ==> fault.row >= |documents|
      invariant fault.NextFailsAt? ==> fault.row >= |documents|
    {
      if OwnedRow(db.documents, userID, id) {
        if fault == NextFailsAt(|documents|) {
          OwnedRowsPrefix(db.documents, userID, 1, id + 1, db.nextId);
          break;
        }
        if fault == ScanFailsAt(|documents|) {
          OwnedRowsPrefix(db.documents, userID, 1, id + 1, db.nextId);
          return Err(StoreError);
        }
        documents := documents + [db.documents[id]];
      }
      id := id + 1;
    }
    return Ok(documents);
  }

  /** ListDocuments with rows.Err checked after the loop: every row owned by
      the user, or an error and no partial list. */
  method ListDocumentsChecked(db: Database, userID: UserId, fault: ScanFault) returns (r: Result<seq<Document>>)
    requires db.Valid()
    ensures r.Ok? <==> ScanCompletes(fault, |OwnedRows(db.documents, userID, 1, db.nextId)|)
    ensures r.Err? ==> r.error == StoreError
    ensures r.Ok? ==> r.value == OwnedRows(db.documents, userID, 1, db.nextId)
  {
    r := ListDocuments(db, userID, fault);
    if r.Ok? && NextFails(fault, |OwnedRows(db.documents, userID, 1, db.nextId)|) {
      r := Err(StoreError);
    }
  }

  /** UpdateDocument: sets path, version, size, media type and file name of
      the row with the given id; the id and the owner stay, other rows are
      untouched. Fails unless exactly one row is affected. */
  method UpdateDocument(db: Database, newPath: Path, size: int, documentID: DocId, version: int,
                        mediaType: string, fileName: string, execFails: bool) returns (r: Status)
    requires db.Valid()
    modifies db`documents
    ensures db.Valid()
    ensures r.Success? <==> !execFails && documentID in old(db.documents)
    ensures r.Failure? ==> r.error == if execFails then StoreError else UnexpectedRowCount(0)
    ensures r.Failure? ==> db.documents == old(db.documents)
    ensures r.Success? ==>
              db.documents == old(db.documents)[documentID :=
                old(db.documents[documentID]).(path := newPath, version := version, size := size,
                                               mediaType := mediaType, fileName := fileName)]
  {
    if execFails {
      return Failure(StoreError);
    }
    var affected := if documentID in db.documents then 1 else 0;
    if documentID in db.documents {
      var row := db.documents[documentID];
      db.documents := db.documents[documentID :=
        row.(path := newPath, version := version, size := size, mediaType := mediaType, fileName := fileName)];
    }
    r := ExpectOneRow(affected);
  }
}
