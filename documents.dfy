/** The document versioning engine (pkg/documents/documents.go): a document
    is a row of the `documents` table plus one blob per version. Upload
    inserts a version-0 row, stages the bytes under the temporary directory
    and promotes them; Update stages new bytes and promotes them to the next
    version. Promotion renames the staged blob to `files/<id>_v<version>` and
    then updates the row. */
module Documents {
  import opened Outcomes
  import opened Decimal
  import opened Store

  /** The directory durable blobs live in. */
  const FILES_DIR := "files/"

  /** The process-wide temporary directory os.MkdirTemp("", "") created at
      start-up; its random name is fixed here. */
  const TEMP_DIR := "/tmp/staging"

  /** The file name of one version of a document: `<id>_v<version>`. */
  function VersionName(documentID: DocId, version: int): string
  {
    FormatInt(documentID) + "_v" + FormatInt(version)
  }

  /** Where the bytes of one version of a document are kept. */
  function DurablePath(documentID: DocId, version: int): Path
  {
    FILES_DIR + VersionName(documentID, version)
  }

  /** path.Join(tempDir, strconv.FormatInt(documentID, 10)). */
  function TempPath(documentID: DocId): Path
  {
    TEMP_DIR + "/" + FormatInt(documentID)
  }

  /** Every durable path names a file inside the files directory, and every
      staging path a file inside the temporary directory. */
  lemma PathsLieInTheirDirectories(documentID: DocId, version: int)
    ensures FILES_DIR < DurablePath(documentID, version)
    ensures TEMP_DIR + "/" < TempPath(documentID)
  {
  }

  /** A string glued to a tail at the marker "_v" can be cut there again,
      provided the head holds no underscore. */
  lemma SplitAtMarker(a: string, b: string, c: string, d: string)
    requires forall k :: 0 <= k < |a| ==> a[k] != '_'
    requires forall k :: 0 <= k < |c| ==> c[k] != '_'
    requires a + "_v" + b == c + "_v" + d
    ensures a == c && b == d
  {
    var s := a + "_v" + b;
    assert forall k :: 0 <= k < |a| ==> s[k] == a[k];
    assert forall k :: 0 <= k < |c| ==> s[k] == c[k];
    assert s[|a|] == '_' && s[|c|] == '_';
    assert |a| == |c|;
    assert a == s[..|a|];
    assert c == s[..|c|];
    assert b == s[|a| + 2..];
    assert d == s[|c| + 2..];
  }

  /** No two (document, version) pairs share a durable path. */
  lemma DurablePathInjective(id1: DocId, v1: int, id2: DocId, v2: int)
    requires DurablePath(id1, v1) == DurablePath(id2, v2)
    ensures id1 == id2 && v1 == v2
  {
    assert VersionName(id1, v1) == DurablePath(id1, v1)[|FILES_DIR|..];
    assert VersionName(id2, v2) == DurablePath(id2, v2)[|FILES_DIR|..];
    SplitAtMarker(FormatInt(id1), FormatInt(v1), FormatInt(id2), FormatInt(v2));
    FormatIntInjective(id1, id2);
    FormatIntInjective(v1, v2);
  }

  /** Distinct documents are staged at distinct paths. */
  lemma TempPathInjective(id1: DocId, id2: DocId)
    requires TempPath(id1) == TempPath(id2)
    ensures id1 == id2
  {
    assert FormatInt(id1) == TempPath(id1)[|TEMP_DIR| + 1..];
    assert FormatInt(id2) == TempPath(id2)[|TEMP_DIR| + 1..];
    FormatIntInjective(id1, id2);
  }

  /** A staging path is never a durable path. */
  lemma TempPathIsNotDurable(id1: DocId, id2: DocId, version: int)
    ensures TempPath(id1) != DurablePath(id2, version)
  {
    assert TempPath(id1)[0] == '/';
    assert DurablePath(id2, version)[0] == 'f';
  }

  /** The row `new` inserts: only the owner is given; every other column
      takes its default (no path, version 0, size 0). */
  function Placeholder(documentID: DocId, owner: UserId): Document
  {
    Document(documentID, owner, "", 0, 0, "", "")
  }

  /** Where the next version of a row is kept. */
  function NextPath(d: Document): Path
  {
    DurablePath(d.id, d.version + 1)
  }

  /** The row after `replace` has moved a blob of `size` bytes to its next version. */
  function Promote(d: Document, size: int): Document
  {
    d.(path := NextPath(d), version := d.version + 1, size := size)
  }

  /** A row either has no contents yet (version 0, no path), or names the
      durable blob of its current version, which holds `size` bytes. */
  predicate RowConsistent(d: Document, files: map<Path, Bytes>)
  {
    && d.version >= 0
    && (d.version == 0 <==> d.path == "")
    && (d.version >= 1 ==> d.path == DurablePath(d.id, d.version) && d.path in files && |files[d.path]| == d.size)
  }

  /** The invariant tying the documents table to the blobs. */
  predicate Consistent(documents: map<DocId, Document>, files: map<Path, Bytes>)
  {
    forall id :: id in documents ==> RowConsistent(documents[id], files)
  }

  /** No row names the blob at `p`. */
  predicate Unreferenced(documents: map<DocId, Document>, p: Path)
  {
    forall id :: id in documents && documents[id].version >= 1 ==> documents[id].path != p
  }

  /** Every blob a row names in `before` is still there, unchanged, in `after`. */
  predicate Retains(documents: map<DocId, Document>, before: map<Path, Bytes>, after: map<Path, Bytes>)
  {
    forall id :: id in documents && documents[id].version >= 1 && documents[id].path in before ==>
      documents[id].path in after && after[documents[id].path] == before[documents[id].path]
  }

  /** No row of a consistent table names a staging path. */
  lemma TempPathUnreferenced(documents: map<DocId, Document>, files: map<Path, Bytes>, documentID: DocId)
    requires Consistent(documents, files)
    ensures Unreferenced(documents, TempPath(documentID))
  {
    forall id | id in documents && documents[id].version >= 1
      ensures documents[id].path != TempPath(documentID)
    {
      TempPathIsNotDurable(documentID, documents[id].id, documents[id].version);
    }
  }

  /** No row of a consistent table names a version of a document beyond
      that document's current version. */
  lemma LaterVersionUnreferenced(documents: map<DocId, Document>, files: map<Path, Bytes>, documentID: DocId, version: int)
    requires KeyedById(documents) && Consistent(documents, files)
    requires documentID in documents ==> documents[documentID].version < version
    ensures Unreferenced(documents, DurablePath(documentID, version))
  {
    forall id | id in documents && documents[id].version >= 1
      ensures documents[id].path != DurablePath(documentID, version)
    {
      if documents[id].path == DurablePath(documentID, version) {
        DurablePathInjective(id, documents[id].version, documentID, version);
      }
    }
  }

  /** Writing a blob no row names keeps the table consistent and every named blob as it was. */
  lemma WriteUnreferenced(documents: map<DocId, Document>, files: map<Path, Bytes>, p: Path, content: Bytes)
    requires Consistent(documents, files) && Unreferenced(documents, p)
    ensures Consistent(documents, files[p := content])
    ensures Retains(documents, files, files[p := content])
  {
  }

  /** Moving a blob between two paths no row names keeps the table
      consistent and every named blob as it was. */
  lemma RenameUnreferenced(documents: map<DocId, Document>, files: map<Path, Bytes>, src: Path, dst: Path)
    requires src in files
    requires Consistent(documents, files) && Unreferenced(documents, src) && Unreferenced(documents, dst)
    ensures Consistent(documents, Renamed(files, src, dst))
    ensures Retains(documents, files, Renamed(files, src, dst))
  {
  }

  /** Promoting a row to a blob of its size that is already at the next
      version's path keeps the table consistent. */
  lemma PromoteKeepsConsistent(documents: map<DocId, Document>, files: map<Path, Bytes>, documentID: DocId, size: int)
    requires KeyedById(documents) && Consistent(documents, files)
    requires documentID in documents
    requires NextPath(documents[documentID]) in files && |files[NextPath(documents[documentID])]| == size
    ensures Consistent(documents[documentID := Promote(documents[documentID], size)], files)
  {
  }

  /** Promotion moves a row to exactly the next version, at a path it has
      never had: the blob of the version it leaves is not overwritten. */
  lemma PromoteAdvances(d: Document, files: map<Path, Bytes>, size: int)
    requires RowConsistent(d, files)
    ensures Promote(d, size).version == d.version + 1 && Promote(d, size).size == size
    ensures Promote(d, size).id == d.id && Promote(d, size).owner == d.owner
    ensures Promote(d, size).path == DurablePath(d.id, Promote(d, size).version)
    ensures Promote(d, size).path != d.path
  {
    if d.version >= 1 && NextPath(d) == d.path {
      DurablePathInjective(d.id, d.version + 1, d.id, d.version);
    }
    assert NextPath(d)[0] == 'f';
  }

  /** A version-0 row is consistent with any files. */
  lemma PlaceholderKeepsConsistent(documents: map<DocId, Document>, files: map<Path, Bytes>, documentID: DocId, owner: UserId)
    requires Consistent(documents, files)
    ensures Consistent(documents[documentID := Placeholder(documentID, owner)], files)
  {
  }

  /** Which calls of `get` fail: the query, the scan of the row. */
  datatype GetFaults = GetFaults(queryFails: bool, scanFails: bool)

  /** The rows `select ... where id = ?` returns. */
  function RowsWithId(documents: map<DocId, Document>, documentID: DocId): (rows: seq<Document>)
    ensures documentID in documents ==> rows == [documents[documentID]]
    ensures documentID !in documents ==> rows == []
  {
    if documentID in documents then [documents[documentID]] else []
  }

  /** The checks `get` applies to the rows its query returned: none is "not
      found", a second one is "multiple rows found". */
  function SingleRow(rows: seq<Document>, f: GetFaults): (r: Result<Document>)
    ensures r.Ok? <==> !f.queryFails && !f.scanFails && |rows| == 1
    ensures r.Ok? ==> r.value == rows[0]
    ensures r == Err(DocumentNotFound) <==> !f.queryFails && rows == []
    ensures r == Err(MultipleRowsFound) <==> !f.queryFails && !f.scanFails && |rows| >= 2
    ensures r.Err? ==> r.error in {StoreError, DocumentNotFound, MultipleRowsFound}
  {
    if f.queryFails then Err(StoreError)
    else if rows == [] then Err(DocumentNotFound)
    else if f.scanFails then Err(StoreError)
    else if |rows| > 1 then Err(MultipleRowsFound)
    else Ok(rows[0])
  }

  /** get: the row with the given id, read through the single-row checks. */
  function GetDocument(documents: map<DocId, Document>, documentID: DocId, f: GetFaults): (r: Result<Document>)
    ensures r.Ok? ==> documentID in documents && r.value == documents[documentID]
    ensures r.Err? ==> r.error in {StoreError, DocumentNotFound}
  {
    SingleRow(RowsWithId(documents, documentID), f)
  }

  /** As `id` is the primary key, `get` returns the row whenever the store
      does not fail, reports a missing row as not found, and never finds
      several rows. */
  lemma GetDocumentFindsTheRow(documents: map<DocId, Document>, documentID: DocId, f: GetFaults)
    ensures GetDocument(documents, documentID, f).Ok? <==> !f.queryFails && !f.scanFails && documentID in documents
    ensures GetDocument(documents, documentID, f).Ok? ==> GetDocument(documents, documentID, f).value == documents[documentID]
    ensures GetDocument(documents, documentID, f) == Err(DocumentNotFound) <==> !f.queryFails && documentID !in documents
    ensures GetDocument(documents, documentID, f) != Err(MultipleRowsFound)
  {
  }

  /** new: inserts a row owned by the user and returns the id the store
      assigned, the next value of the auto-increment counter. */
  method New(db: Database, userID: UserId, fails: bool) returns (r: Result<DocId>)
    requires db.Valid()
    modifies db`documents, db`nextId
    ensures db.Valid()
    ensures r.Ok? <==> !fails
    ensures r.Err? ==> r.error == StoreError && db.documents == old(db.documents) && db.nextId == old(db.nextId)
    ensures r.Ok? ==> && r.value == old(db.nextId) && r.value >= 1 && r.value !in old(db.documents)
                      && db.documents == old(db.documents)[r.value := Placeholder(r.value, userID)]
                      && db.nextId == old(db.nextId) + 1
  {
    if fails {
      return Err(StoreError);
    }
    var documentID := db.nextId;
    db.documents := db.documents[documentID := Placeholder(documentID, userID)];
    db.nextId := db.nextId + 1;
    return Ok(documentID);
  }

  /** How staging the bytes ends: os.Create fails, io.Copy fails after
      writing some bytes, file.Close fails, or all succeed. */
  datatype StageFault = StageOk | CreateFails | CopyFails(written: nat) | CloseFails

  /** What createTempFile returns: the staging path and the byte count. */
  datatype Staged = Staged(path: Path, size: int)

  /** The bytes the staging file holds once the copy stops. */
  function StagedBytes(content: Bytes, fault: StageFault): (b: Bytes)
    ensures b <= content
    ensures !fault.CopyFails? ==> b == content
  {
    if fault.CopyFails? && fault.written < |content| then content[..fault.written] else content
  }

  /** createTempFile: writes the reader's bytes to the document's staging
      path, replacing any earlier staging file there, and reports how many
      bytes it wrote. A failed copy or close leaves the file behind. */
  method CreateTempFile(fs: FileSystem, documentID: DocId, content: Bytes, fault: StageFault) returns (r: Result<Staged>)
    modifies fs`files
    ensures r.Ok? <==> fault == StageOk
    ensures r.Ok? ==> r.value == Staged(TempPath(documentID), |content|)
    ensures r.Err? ==> r.error == FileError
    ensures fs.files == if fault == CreateFails then old(fs.files)
                        else old(fs.files)[TempPath(documentID) := StagedBytes(content, fault)]
  {
    var tempPath := TempPath(documentID);
    if fault == CreateFails {
      return Err(FileError);
    }
    fs.files := fs.files[tempPath := []];
    var written := StagedBytes(content, fault);
    fs.files := fs.files[tempPath := written];
    if fault.CopyFails? {
      return Err(FileError);
    }
    if fault == CloseFails {
      return Err(FileError);
    }
    return Ok(Staged(tempPath, |written|));
  }

  /** Which steps of `replace` fail: opening the transaction, `get`, the
      rename, the update. */
  datatype ReplaceFaults = ReplaceFaults(beginFails: bool, get: GetFaults, renameFails: bool, execFails: bool)

  /** `replace` gets as far as renaming the staged blob. */
  predicate ReplaceRenames(documents: map<DocId, Document>, files: map<Path, Bytes>, oldPath: Path,
                           documentID: DocId, f: ReplaceFaults)
  {
    !f.beginFails && GetDocument(documents, documentID, f.get).Ok? && !f.renameFails && oldPath in files
  }

  /** replace: reads the row, moves the staged blob to the next version's
      path, then sets path, version and size of the row. The update must
      affect exactly one row. A failed update leaves the blob renamed and
      the row as it was. */
  method Replace(db: Database, fs: FileSystem, oldPath: Path, size: int, documentID: DocId, f: ReplaceFaults)
    returns (r: Status)
    requires db.Valid()
    modifies db`documents, fs`files
    ensures db.Valid()
    ensures r.Success? <==> ReplaceRenames(old(db.documents), old(fs.files), oldPath, documentID, f) && !f.execFails
    ensures r.Failure? ==> r.error in {StoreError, DocumentNotFound, MultipleRowsFound, FileError}
    // Each step's error is returned unchanged.
    ensures f.beginFails ==> r == Failure(StoreError)
    ensures !f.beginFails && GetDocument(old(db.documents), documentID, f.get).Err? ==>
              r == Failure(GetDocument(old(db.documents), documentID, f.get).error)
    ensures !f.beginFails && GetDocument(old(db.documents), documentID, f.get).Ok?
            && !ReplaceRenames(old(db.documents), old(fs.files), oldPath, documentID, f) ==>
              r == Failure(FileError)
    ensures ReplaceRenames(old(db.documents), old(fs.files), oldPath, documentID, f) && f.execFails ==>
              r == Failure(StoreError)
    ensures r.Failure? ==> db.documents == old(db.documents)
    ensures r.Success? ==>
              db.documents == old(db.documents)[documentID := Promote(old(db.documents)[documentID], size)]
    ensures fs.files == if ReplaceRenames(old(db.documents), old(fs.files), oldPath, documentID, f)
                        then Renamed(old(fs.files), oldPath, NextPath(old(db.documents)[documentID]))
                        else old(fs.files)
    // Promoting a staged blob keeps every row pointing at a blob of its size
    // and keeps every blob a row pointed at.
    ensures old(Consistent(db.documents, fs.files)) && oldPath == TempPath(documentID) ==>
              && Retains(old(db.documents), old(fs.files), fs.files)
              && ((oldPath in old(fs.files) ==> |old(fs.files)[oldPath]| == size) ==> Consistent(db.documents, fs.files))
  {
    if f.beginFails {
      return Failure(StoreError);
    }
    GetDocumentFindsTheRow(db.documents, documentID, f.get);
    var doc := GetDocument(db.documents, documentID, f.get);
    if doc.Err? {
      return Failure(doc.error);
    }
    var newPath := DurablePath(documentID, doc.value.version + 1);
    if Consistent(db.documents, fs.files) && oldPath == TempPath(documentID) && oldPath in fs.files {
      RenameStaged(db.documents, fs.files, documentID);
      if |fs.files[oldPath]| == size {
        PromoteStaged(db.documents, fs.files, documentID, size);
      }
    }
    r := fs.Rename(oldPath, newPath, f.renameFails);
    if r.Failure? {
      return;
    }
    if f.execFails {
      return Failure(StoreError);
    }
    var affected := if documentID in db.documents then 1 else 0;
    if documentID in db.documents {
      db.documents := db.documents[documentID := Promote(db.documents[documentID], size)];
    }
    r := ExpectOneRow(affected);
  }

  /** Staging bytes for a document keeps the table consistent and every
      named blob as it was. */
  lemma StageKeepsConsistent(documents: map<DocId, Document>, files: map<Path, Bytes>, documentID: DocId, content: Bytes)
    requires Consistent(documents, files)
    ensures Consistent(documents, files[TempPath(documentID) := content])
    ensures Retains(documents, files, files[TempPath(documentID) := content])
  {
    TempPathUnreferenced(documents, files, documentID);
    WriteUnreferenced(documents, files, TempPath(documentID), content);
  }

  /** Moving the staged blob of a document to its next version keeps the
      table consistent and every named blob as it was. */
  lemma RenameStaged(documents: map<DocId, Document>, files: map<Path, Bytes>, documentID: DocId)
    requires KeyedById(documents) && Consistent(documents, files)
    requires documentID in documents && TempPath(documentID) in files
    ensures var after := Renamed(files, TempPath(documentID), NextPath(documents[documentID]));
            Retains(documents, files, after) && Consistent(documents, after)
  {
    var d := documents[documentID];
    assert NextPath(d) == DurablePath(documentID, d.version + 1);
    TempPathUnreferenced(documents, files, documentID);
    LaterVersionUnreferenced(documents, files, documentID, d.version + 1);
    RenameUnreferenced(documents, files, TempPath(documentID), NextPath(d));
  }

  /** After the staged blob has moved, promoting the row to it keeps the
      table consistent, when the staged blob has the size recorded. */
  lemma PromoteStaged(documents: map<DocId, Document>, files: map<Path, Bytes>, documentID: DocId, size: int)
    requires KeyedById(documents) && Consistent(documents, files)
    requires documentID in documents && TempPath(documentID) in files
    requires |files[TempPath(documentID)]| == size
    ensures Consistent(documents[documentID := Promote(documents[documentID], size)],
                       Renamed(files, TempPath(documentID), NextPath(documents[documentID])))
  {
    var d := documents[documentID];
    RenameStaged(documents, files, documentID);
    var after := Renamed(files, TempPath(documentID), NextPath(d));
    assert after[NextPath(d)] == files[TempPath(documentID)];
    PromoteKeepsConsistent(documents, after, documentID, size);
  }

  /** `replace` gets as far as renaming, for a row that exists and a staged
      blob that is there. */
  predicate ReplaceMoves(f: ReplaceFaults)
  {
    !f.beginFails && !f.get.queryFails && !f.get.scanFails && !f.renameFails
  }

  /** The error `replace` returns for a row that exists and a staged blob
      that is there: the rename's file error, or the store error of any
      other step. */
  function ReplaceFailure(f: ReplaceFaults): Error
  {
    if !f.beginFails && !f.get.queryFails && !f.get.scanFails && f.renameFails then FileError else StoreError
  }

  /** The error of staging followed by `replace`: staging's file error first. */
  function StageFailure(stage: StageFault, f: ReplaceFaults): Error
  {
    if stage != StageOk then FileError else ReplaceFailure(f)
  }

  /** No step of `replace` fails. */
  predicate ReplaceOk(f: ReplaceFaults)
  {
    ReplaceMoves(f) && !f.execFails
  }

  /** The files once `content` has been staged for a document under `stage`
      and, when staging succeeded and `replace` got as far as its rename,
      moved on to `target`. */
  function StageAndMove(files: map<Path, Bytes>, documentID: DocId, content: Bytes, stage: StageFault,
                        moves: bool, target: Path): map<Path, Bytes>
  {
    if stage == CreateFails then files
    else
      var staged := files[TempPath(documentID) := StagedBytes(content, stage)];
      if stage == StageOk && moves then Renamed(staged, TempPath(documentID), target) else staged
  }

  /** Staging and moving change no path other than the staging path and the
      target; a completed move leaves the bytes at the target and nothing
      at the staging path, and an interrupted one leaves what was written
      at the staging path. */
  lemma StageAndMoveFrame(files: map<Path, Bytes>, documentID: DocId, content: Bytes, stage: StageFault,
                          moves: bool, target: Path)
    ensures var after := StageAndMove(files, documentID, content, stage, moves, target);
            forall p :: p != TempPath(documentID) && p != target ==>
              (p in after <==> p in files) && (p in after ==> after[p] == files[p])
    ensures stage == CreateFails ==> StageAndMove(files, documentID, content, stage, moves, target) == files
    ensures var after := StageAndMove(files, documentID, content, stage, moves, target);
            stage == StageOk && moves ==>
              target in after && after[target] == content && (target != TempPath(documentID) ==> TempPath(documentID) !in after)
    ensures var after := StageAndMove(files, documentID, content, stage, moves, target);
            !(stage == StageOk && moves) && stage != CreateFails ==>
              TempPath(documentID) in after && after[TempPath(documentID)] == StagedBytes(content, stage)
  {
  }

  /** The step Upload and Update share: stage the bytes for an existing
      row, then hand the staging file to `replace`. Only the row and the
      document's staging and next version paths can change. */
  method StageAndReplace(db: Database, fs: FileSystem, documentID: DocId, content: Bytes, stage: StageFault,
                         f: ReplaceFaults) returns (r: Status)
    requires db.Valid() && documentID in db.documents
    modifies db`documents, fs`files
    ensures db.Valid()
    ensures r.Success? <==> stage == StageOk && ReplaceOk(f)
    ensures r.Failure? ==> r.error == StageFailure(stage, f)
    ensures r.Failure? ==> db.documents == old(db.documents)
    ensures r.Success? ==>
              db.documents == old(db.documents)[documentID := Promote(old(db.documents)[documentID], |content|)]
    ensures fs.files == StageAndMove(old(fs.files), documentID, content, stage, ReplaceMoves(f),
                                     NextPath(old(db.documents)[documentID]))
    ensures old(Consistent(db.documents, fs.files)) ==>
              Consistent(db.documents, fs.files) && Retains(old(db.documents), old(fs.files), fs.files)
  {
    var staged := CreateTempFile(fs, documentID, content, stage);
    if Consistent(old(db.documents), old(fs.files)) && stage != CreateFails {
      StageKeepsConsistent(db.documents, old(fs.files), documentID, StagedBytes(content, stage));
    }
    if staged.Err? {
      return Failure(staged.error);
    }
    ghost var stagedFiles := fs.files;
    GetDocumentFindsTheRow(db.documents, documentID, f.get);
    r := Replace(db, fs, staged.value.path, staged.value.size, documentID, f);
    if Consistent(old(db.documents), old(fs.files)) {
      RetainsTransitive(old(db.documents), old(db.documents), old(fs.files), stagedFiles, fs.files);
    }
  }

  /** Which steps of Upload fail: the insert of `new`, staging, `replace`. */
  datatype UploadFaults = UploadFaults(insertFails: bool, stage: StageFault, replace: ReplaceFaults)

  predicate UploadSucceeds(f: UploadFaults)
  {
    !f.insertFails && f.stage == StageOk && ReplaceOk(f.replace)
  }

  /** The error Upload returns: the insert's store error first. */
  function UploadFailure(f: UploadFaults): Error
  {
    if f.insertFails then StoreError else StageFailure(f.stage, f.replace)
  }

  /** A row of `documents` as a successful Upload leaves it. */
  function FirstVersion(documentID: DocId, owner: UserId, content: Bytes): Document
  {
    Document(documentID, owner, DurablePath(documentID, 1), 1, |content|, "", "")
  }

  /** Upload: creates a document owned by the user whose version 1 holds
      the bytes read. A failure after the insert leaves the version-0 row
      behind, and any staged or renamed blob with it. */
  method Upload(db: Database, fs: FileSystem, userID: UserId, content: Bytes, f: UploadFaults) returns (r: Result<DocId>)
    requires db.Valid()
    modifies db`documents, db`nextId, fs`files
    ensures db.Valid()
    ensures r.Ok? <==> UploadSucceeds(f)
    ensures r.Err? ==> r.error == UploadFailure(f)
    ensures r.Ok? ==> r.value == old(db.nextId) && r.value >= 1 && r.value !in old(db.documents)
    ensures f.insertFails ==> db.documents == old(db.documents) && db.nextId == old(db.nextId) && fs.files == old(fs.files)
    // Only the new row is added; no existing row changes.
    ensures !f.insertFails ==>
              && db.nextId == old(db.nextId) + 1
              && old(db.nextId) in db.documents
              && db.documents == old(db.documents)[old(db.nextId) := db.documents[old(db.nextId)]]
    ensures r.Ok? ==> && db.documents[r.value] == FirstVersion(r.value, userID, content)
                      && DurablePath(r.value, 1) in fs.files && fs.files[DurablePath(r.value, 1)] == content
    ensures r.Err? && !f.insertFails ==> db.documents[old(db.nextId)] == Placeholder(old(db.nextId), userID)
    // Only the new document's staging path and first version path change.
    ensures !f.insertFails ==>
              fs.files == StageAndMove(old(fs.files), old(db.nextId), content, f.stage, ReplaceMoves(f.replace),
                                       DurablePath(old(db.nextId), 1))
    ensures old(Consistent(db.documents, fs.files)) ==>
              Consistent(db.documents, fs.files) && Retains(old(db.documents), old(fs.files), fs.files)
  {
    var inserted := New(db, userID, f.insertFails);
    if inserted.Err? {
      return Err(inserted.error);
    }
    var documentID := inserted.value;
    ghost var placed := db.documents;
    assert NextPath(placed[documentID]) == DurablePath(documentID, 1);
    var stored := StageAndReplace(db, fs, documentID, content, f.stage, f.replace);
    if Consistent(old(db.documents), old(fs.files)) {
      PlaceholderThenStore(old(db.documents), placed, db.documents, old(fs.files), fs.files, documentID, userID);
    }
    if stored.Failure? {
      return Err(stored.error);
    }
    return Ok(documentID);
  }

  /** Inserting a version-0 row and then storing blobs for it keeps a
      consistent table consistent and every blob it named. */
  lemma PlaceholderThenStore(documents: map<DocId, Document>, placed: map<DocId, Document>, after: map<DocId, Document>,
                             files: map<Path, Bytes>, filesAfter: map<Path, Bytes>, documentID: DocId, owner: UserId)
    requires Consistent(documents, files)
    requires placed == documents[documentID := Placeholder(documentID, owner)] && documentID !in documents
    requires Consistent(placed, files) ==> Consistent(after, filesAfter) && Retains(placed, files, filesAfter)
    ensures Consistent(after, filesAfter) && Retains(documents, files, filesAfter)
  {
    PlaceholderKeepsConsistent(documents, files, documentID, owner);
    RetainsTransitive(documents, placed, files, files, filesAfter);
  }

  /** Blobs kept through two steps are kept through both, for the rows the
      first table shares with the second. */
  lemma RetainsTransitive(documents: map<DocId, Document>, later: map<DocId, Document>,
                          files0: map<Path, Bytes>, files1: map<Path, Bytes>, files2: map<Path, Bytes>)
    requires forall id :: id in documents ==> id in later && later[id] == documents[id]
    requires Retains(documents, files0, files1) && Retains(later, files1, files2)
    ensures Retains(documents, files0, files2)
  {
  }

  /** Which steps of Update fail: its own `get`, the Upload a version-0
      document falls back to, staging, `replace`. */
  datatype UpdateFaults = UpdateFaults(get: GetFaults, upload: UploadFaults, stage: StageFault, replace: ReplaceFaults)

  /** Update: stores the bytes as the next version of the document. A
      document still at version 0 is not updated at all: Upload creates a
      new document owned by the caller instead. No authorisation is done. */
  method Update(db: Database, fs: FileSystem, documentID: DocId, userID: UserId, content: Bytes, f: UpdateFaults)
    returns (r: Status)
    requires db.Valid()
    modifies db`documents, db`nextId, fs`files
    ensures db.Valid()
    // A failed `get` changes nothing.
    ensures GetDocument(old(db.documents), documentID, f.get).Err? ==>
              && r == Failure(GetDocument(old(db.documents), documentID, f.get).error)
              && db.documents == old(db.documents) && db.nextId == old(db.nextId) && fs.files == old(fs.files)
    // Version 0: the given row is left alone and a new document is created.
    ensures GetDocument(old(db.documents), documentID, f.get).Ok? && old(db.documents)[documentID].version == 0 ==>
              && documentID in db.documents && db.documents[documentID] == old(db.documents)[documentID]
              && (r.Success? <==> UploadSucceeds(f.upload))
              && (r.Failure? ==> r.error == UploadFailure(f.upload))
              && (r.Success? ==> old(db.nextId) in db.documents
                                 && db.documents[old(db.nextId)] == FirstVersion(old(db.nextId), userID, content))
              && (r.Failure? && !f.upload.insertFails ==>
                    old(db.nextId) in db.documents && db.documents[old(db.nextId)] == Placeholder(old(db.nextId), userID))
              && (f.upload.insertFails ==>
                    db.documents == old(db.documents) && db.nextId == old(db.nextId) && fs.files == old(fs.files))
              && (!f.upload.insertFails ==>
                    && db.nextId == old(db.nextId) + 1
                    && old(db.nextId) in db.documents
                    && db.documents == old(db.documents)[old(db.nextId) := db.documents[old(db.nextId)]]
                    && fs.files == StageAndMove(old(fs.files), old(db.nextId), content, f.upload.stage,
                                                ReplaceMoves(f.upload.replace), DurablePath(old(db.nextId), 1)))
    // Otherwise: the next version, or no change to the row at all.
    ensures GetDocument(old(db.documents), documentID, f.get).Ok? && old(db.documents)[documentID].version != 0 ==>
              && db.nextId == old(db.nextId)
              && (r.Success? <==> f.stage == StageOk && ReplaceOk(f.replace))
              && (r.Failure? ==> r.error == StageFailure(f.stage, f.replace))
              && (r.Failure? ==> db.documents == old(db.documents))
              && (r.Success? ==>
                    && db.documents == old(db.documents)[documentID := Promote(old(db.documents)[documentID], |content|)]
                    && NextPath(old(db.documents)[documentID]) in fs.files
                    && fs.files[NextPath(old(db.documents)[documentID])] == content)
              // Only the document's staging path and next version path change.
              && fs.files == StageAndMove(old(fs.files), documentID, content, f.stage, ReplaceMoves(f.replace),
                                          NextPath(old(db.documents)[documentID]))
    ensures old(Consistent(db.documents, fs.files)) ==>
              Consistent(db.documents, fs.files) && Retains(old(db.documents), old(fs.files), fs.files)
  {
    GetDocumentFindsTheRow(db.documents, documentID, f.get);
    var doc := GetDocument(db.documents, documentID, f.get);
    if doc.Err? {
      return Failure(doc.error);
    }
    if doc.value.version == 0 {
      var uploaded := Upload(db, fs, userID, content, f.upload);
      return if uploaded.Ok? then Success else Failure(uploaded.error);
    }
    r := StageAndReplace(db, fs, documentID, content, f.stage, f.replace);
  }
}
