/** The grant store (pkg/access_control/internal/db/permissions.go). */
module PermissionStore {
  import opened Outcomes
  import opened Perm
  import opened Store

  predicate IsGrantFor(g: Grant, user: UserId, document: DocId)
  {
    g.user == user && g.document == document
  }

  /** No row of the table is for (user, document). */
  predicate NoGrant(grants: seq<Grant>, user: UserId, document: DocId)
  {
    forall i :: 0 <= i < |grants| ==> !IsGrantFor(grants[i], user, document)
  }

  /** Row i is the first row for (user, document) in table order. */
  predicate FirstGrantAt(grants: seq<Grant>, user: UserId, document: DocId, i: int)
  {
    && 0 <= i < |grants|
    && IsGrantFor(grants[i], user, document)
    && forall j :: 0 <= j < i ==> !IsGrantFor(grants[j], user, document)
  }

  /** The mask GetPerms reads for (user, document): the permissions of the
      first matching row in table order, or 0 when there is none. */
  function GrantedMask(grants: seq<Grant>, user: UserId, document: DocId): (m: Mask)
    ensures NoGrant(grants, user, document) ==> m == 0
    ensures !NoGrant(grants, user, document) ==>
              exists i :: FirstGrantAt(grants, user, document, i) && m == grants[i].permissions
    decreases |grants|
  {
    if grants == [] then 0
    else if IsGrantFor(grants[0], user, document) then grants[0].permissions
    else
      var m := GrantedMask(grants[1..], user, document);
      assert !NoGrant(grants, user, document) ==> !NoGrant(grants[1..], user, document) by {
        if !NoGrant(grants, user, document) {
          var i :| 0 <= i < |grants| && IsGrantFor(grants[i], user, document);
          assert IsGrantFor(grants[1..][i - 1], user, document);
        }
      }
      assert !NoGrant(grants, user, document) ==> exists i :: FirstGrantAt(grants, user, document, i) && m == grants[i].permissions by {
        if !NoGrant(grants, user, document) {
          var i :| FirstGrantAt(grants[1..], user, document, i) && m == grants[1..][i].permissions;
          assert FirstGrantAt(grants, user, document, i + 1);
        }
      }
      m
  }

  /** Appending a row changes the mask read for (user, document) only when
      the pair had no row before and the new row is for it: an earlier row
      always wins. */
  lemma {:induction false} GrantedMaskAppend(grants: seq<Grant>, g: Grant, user: UserId, document: DocId)
    ensures GrantedMask(grants + [g], user, document) ==
              if NoGrant(grants, user, document) && IsGrantFor(g, user, document) then g.permissions
              else GrantedMask(grants, user, document)
    decreases |grants|
  {
    if grants == [] {
      assert [g][1..] == [];
    } else {
      assert (grants + [g])[1..] == grants[1..] + [g];
      if !IsGrantFor(grants[0], user, document) {
        GrantedMaskAppend(grants[1..], g, user, document);
        assert NoGrant(grants, user, document) <==> NoGrant(grants[1..], user, document) by {
          if NoGrant(grants[1..], user, document) {
            forall i | 0 <= i < |grants|
              ensures !IsGrantFor(grants[i], user, document)
            {
              if i > 0 { assert grants[i] == grants[1..][i - 1]; }
            }
          }
          if NoGrant(grants, user, document) {
            forall i | 0 <= i < |grants[1..]|
              ensures !IsGrantFor(grants[1..][i], user, document)
            {
              assert grants[1..][i] == grants[i + 1];
            }
          }
        }
      } else {
        assert !NoGrant(grants, user, document);
      }
    }
  }

  /** GetPerms: the single-row query for (user, document). `fails` stands for
      an error from the query or from a scan other than sql.ErrNoRows; a
      missing row is not an error and reads as mask 0. */
  function GetPerms(grants: seq<Grant>, userID: UserId, documentID: DocId, fails: bool): (r: Result<Mask>)
    ensures r.Err? <==> fails
    ensures r.Err? ==> r.error == StoreError
    ensures r.Ok? && NoGrant(grants, userID, documentID) ==> r.value == 0
    ensures r.Ok? && !NoGrant(grants, userID, documentID) ==>
              exists i :: FirstGrantAt(grants, userID, documentID, i) && r.value == grants[i].permissions
  {
    if fails then Err(StoreError) else Ok(GrantedMask(grants, userID, documentID))
  }

  /** ShareDocument (store level): inserts one grant row. Rows are never
      updated or removed, so repeated shares accumulate rows. */
  method ShareDocument(db: Database, documentID: DocId, shareUserID: UserId, permissions: Mask, execFails: bool)
    returns (r: Status)
    modifies db`permissions
    ensures r.Success? <==> !execFails
    ensures r.Failure? ==> r.error == StoreError
    ensures db.permissions == old(db.permissions) + (if execFails then [] else [Grant(documentID, shareUserID, permissions)])
  {
    if execFails {
      return Failure(StoreError);
    }
    var before := |db.permissions|;
    db.permissions := db.permissions + [Grant(documentID, shareUserID, permissions)];
    r := ExpectOneRow(|db.permissions| - before);
  }

  /** The rows `select ... where user = ?` returns, in table order: every
      row of the user, as many times as it occurs, and no other row. */
  function RowsForUser(grants: seq<Grant>, user: UserId): (rows: seq<Grant>)
    ensures forall g :: multiset(rows)[g] == if g.user == user then multiset(grants)[g] else 0
    decreases |grants|
  {
    if grants == [] then []
    else
      assert grants == [grants[0]] + grants[1..];
      if grants[0].user == user then [grants[0]] + RowsForUser(grants[1..], user)
      else RowsForUser(grants[1..], user)
  }

  /** A row is returned for the user exactly when it is in the table and is theirs. */
  lemma RowsForUserMembers(grants: seq<Grant>, user: UserId, g: Grant)
    ensures g in RowsForUser(grants, user) <==> g in grants && g.user == user
  {
  }

  /** ListSharedDocuments as written: the document id of every row of the
      user, one entry per row, in table order. A failing query or scan
      returns an error. The loop never consults rows.Err, so when rows.Next
      stops early the rows read so far come back as a successful answer. */
  method ListSharedDocuments(db: Database, userID: UserId, fault: ScanFault) returns (r: Result<seq<DocId>>)
    ensures r.Ok? <==> !ScanErrs(fault, |RowsForUser(db.permissions, userID)|)
    ensures r.Err? ==> r.error == StoreError
    ensures r.Ok? ==>
              var rows := RowsForUser(db.permissions, userID);
              |r.value| == RowsSeen(fault, |rows|) && forall i :: 0 <= i < |r.value| ==> r.value[i] == rows[i].document
    // An error inside rows.Next is returned as success with rows missing.
    ensures NextFails(fault, |RowsForUser(db.permissions, userID)|) ==>
              r.Ok? && |r.value| < |RowsForUser(db.permissions, userID)|
  {
    if fault.QueryFails? {
      return Err(StoreError);
    }
    var rows := RowsForUser(db.permissions, userID);
    var documentIDs: seq<DocId> := [];
    var i := 0;
    while i < |rows|
      invariant 0 <= i <= |rows|
      invariant fault.ScanFailsAt? ==> fault.row >= i
      invariant fault.NextFailsAt? ==> fault.row >= i
      invariant |documentIDs| == i
      invariant forall k :: 0 <= k < i ==> documentIDs[k] == rows[k].document
    {
      if fault == NextFailsAt(i) {
        break;
      }
      if fault == ScanFailsAt(i) {
        return Err(StoreError);
      }
      documentIDs := documentIDs + [rows[i].document];
      i := i + 1;
    }
    return Ok(documentIDs);
  }

  /** ListSharedDocuments with rows.Err checked after the loop: the id of
      every row of the user, or an error and no partial list. */
  method ListSharedDocumentsChecked(db: Database, userID: UserId, fault: ScanFault) returns (r: Result<seq<DocId>>)
    ensures r.Ok? <==> ScanCompletes(fault, |RowsForUser(db.permissions, userID)|)
    ensures r.Err? ==> r.error == StoreError
    ensures r.Ok? ==>
              var rows := RowsForUser(db.permissions, userID);
              |r.value| == |rows| && forall i :: 0 <= i < |rows| ==> r.value[i] == rows[i].document
  {
    r := ListSharedDocuments(db, userID, fault);
    if r.Ok? && NextFails(fault, |RowsForUser(db.permissions, userID)|) {
      r := Err(StoreError);
    }
  }
}
