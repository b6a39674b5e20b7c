/** The access-control engine (pkg/access_control/permissions.go): the
    authorisation decision with its audit row, sharing, and the list of
    documents shared with a user.

    Each of AuthoriseOrError and ShareDocument is specified by a function of
    the tables it reads (Authorise, Sharing) that gives its result and the rows
    it appends; the properties the engine promises are stated about those
    functions. */
module AccessControl {
  import opened Outcomes
  import opened Perm
  import opened Store
  import opened PermissionStore
  import AuditLog

  /** The mask test of AuthoriseOrError: every requested bit is granted. */
  predicate Permits(requested: Mask, granted: Mask): (b: bool)
    ensures b <==> requested & !granted == 0
  {
    requested & granted == requested
  }

  /** Asking for fewer bits never turns a grant into a denial. */
  lemma PermitsMonotone(a: Mask, b: Mask, granted: Mask)
    requires Permits(b, granted)
    requires a & b == a
    ensures Permits(a, granted)
  {
  }

  /** The empty request is always granted. */
  lemma PermitsNothing(granted: Mask)
    ensures Permits(0, granted)
  {
  }

  /** The mask test is inclusion of capability sets: a granted request asks
      for no capability the grant lacks, and for masks made of flags only
      the converse holds too. */
  lemma PermitsIsInclusion(requested: Mask, granted: Mask)
    ensures Permits(requested, granted) ==> Capabilities(requested) <= Capabilities(granted)
    ensures IsFlagMask(requested) && Capabilities(requested) <= Capabilities(granted) ==>
              Permits(requested, granted)
  {
  }

  const AUTHORISED := " - Authorised"
  const UNAUTHORISED := " - Unauthorised"

  /** The action text of an access decision. */
  function AccessAction(requested: Mask, allowed: bool): string
  {
    "Access - Perm:" + Describe(requested) + (if allowed then AUTHORISED else UNAUTHORISED)
  }

  /** The action text of a completed share. */
  function ShareAction(permissions: Mask): string
  {
    "Share - Perm:" + Describe(permissions) + AUTHORISED
  }

  /** Which store calls of one authorisation fail: the grant lookup, the audit insert. */
  datatype AuthFaults = AuthFaults(lookupFails: bool, logFails: bool)

  /** What an authorisation returns and the audit rows it appends. */
  datatype Decision = Decision(status: Status, written: seq<AuditRecord>)

  /** AuthoriseOrError as a function of the permissions table. */
  function Authorise(grants: seq<Grant>, doc: Document, userID: UserId, requested: Mask, now: Timestamp, f: AuthFaults)
    : (d: Decision)
    // The owner passes without a lookup and without an audit row.
    ensures doc.owner == userID ==> d == Decision(Success, [])
    // A failed lookup is returned before anything is written.
    ensures doc.owner != userID && f.lookupFails ==> d == Decision(Failure(StoreError), [])
    // Otherwise exactly one row records the decision, unless that insert fails.
    ensures doc.owner != userID && !f.lookupFails ==>
              d.written == if f.logFails then [] else
                [AuditRecord(userID, doc.id, AccessAction(requested, Permits(requested, GrantedMask(grants, userID, doc.id))), now)]
    // Success means owner, or the stored mask covers the request and the grant was logged.
    ensures d.status.Success? <==>
              doc.owner == userID || (!f.lookupFails && !f.logFails && Permits(requested, GrantedMask(grants, userID, doc.id)))
    ensures d.status.Success? && doc.owner != userID ==>
              d.written == [AuditRecord(userID, doc.id, AccessAction(requested, true), now)]
    // A denial is reported only once its audit row is written.
    ensures d.status == Failure(AccessDenied) <==>
              doc.owner != userID && !f.lookupFails && !f.logFails && !Permits(requested, GrantedMask(grants, userID, doc.id))
    ensures d.status == Failure(AccessDenied) ==>
              d.written == [AuditRecord(userID, doc.id, AccessAction(requested, false), now)]
  {
    if doc.owner == userID then Decision(Success, [])
    else
      match GetPerms(grants, userID, doc.id, f.lookupFails)
      case Err(e) => Decision(Failure(e), [])
      case Ok(perms) =>
        var allowed := Permits(requested, perms);
        var written := if f.logFails then [] else [AuditRecord(userID, doc.id, AccessAction(requested, allowed), now)];
        var status := if f.logFails then Failure(StoreError) else if allowed then Success else Failure(AccessDenied);
        Decision(status, written)
  }

  /** AuthoriseOrError: the owner passes; anyone else is looked up, and the
      decision is logged before it is returned. */
  method AuthoriseOrError(db: Database, userID: UserId, doc: Document, permissions: Mask, now: Timestamp, f: AuthFaults)
    returns (r: Status)
    modifies db`auditLog
    ensures var d := Authorise(db.permissions, doc, userID, permissions, now, f);
            r == d.status && db.auditLog == old(db.auditLog) + d.written
  {
    if doc.owner == userID {
      return Success;
    }
    var perms := GetPerms(db.permissions, userID, doc.id, f.lookupFails);
    if perms.Err? {
      return Failure(perms.error);
    }
    if !Permits(permissions, perms.value) {
      r := AuditLog.Log(db, userID, doc.id, AccessAction(permissions, false), now, f.logFails);
      if r.Failure? {
        return;
      }
      return Failure(AccessDenied);
    }
    r := AuditLog.Log(db, userID, doc.id, AccessAction(permissions, true), now, f.logFails);
  }

  /** Authorisation is monotone in the requested mask. */
  lemma AuthoriseMonotone(grants: seq<Grant>, doc: Document, userID: UserId, a: Mask, b: Mask, now: Timestamp, f: AuthFaults)
    requires Authorise(grants, doc, userID, b, now, f).status.Success?
    requires a & b == a
    ensures Authorise(grants, doc, userID, a, now, f).status.Success?
  {
  }

  /** A request for mask 0 fails only through a store error. */
  lemma AuthoriseNothing(grants: seq<Grant>, doc: Document, userID: UserId, now: Timestamp, f: AuthFaults)
    requires !f.lookupFails && !f.logFails
    ensures Authorise(grants, doc, userID, 0, now, f).status == Success
  {
  }

  /** Which store calls of one share fail. */
  datatype ShareFaults = ShareFaults(auth: AuthFaults, insertFails: bool, logFails: bool)

  /** What a share returns, the grant rows it inserts and the audit rows it appends. */
  datatype ShareOutcome = ShareOutcome(status: Status, granted: seq<Grant>, written: seq<AuditRecord>)

  /** ShareDocument as a function of the permissions table. Each audit row
      reads the clock itself: `authNow` stamps the access row, `shareNow`
      the "Share" row. */
  function Sharing(grants: seq<Grant>, doc: Document, userID: UserId, shareUserID: UserId, permissions: Mask,
                 authNow: Timestamp, shareNow: Timestamp, f: ShareFaults): (o: ShareOutcome)
    // The sharer is authorised for SHARE and every bit being granted, and that decision is logged first.
    ensures var auth := Authorise(grants, doc, userID, SHARE | permissions, authNow, f.auth);
            auth.written <= o.written && (auth.status.Failure? ==> o == ShareOutcome(auth.status, [], auth.written))
    // The owner is never a target, and that is checked after authorisation.
    ensures shareUserID == doc.owner ==> o.status.Failure? && o.granted == []
    ensures var auth := Authorise(grants, doc, userID, SHARE | permissions, authNow, f.auth);
            auth.status.Success? && shareUserID == doc.owner ==>
              o == ShareOutcome(Failure(CannotShareWithOwner), [], auth.written)
    // A failed insert is returned before the "Share" audit row is written.
    ensures var auth := Authorise(grants, doc, userID, SHARE | permissions, authNow, f.auth);
            auth.status.Success? && shareUserID != doc.owner && f.insertFails ==>
              o == ShareOutcome(Failure(StoreError), [], auth.written)
    // A failed "Share" audit insert fails the call, but the grant row stays.
    ensures var auth := Authorise(grants, doc, userID, SHARE | permissions, authNow, f.auth);
            auth.status.Success? && shareUserID != doc.owner && !f.insertFails && f.logFails ==>
              o == ShareOutcome(Failure(StoreError), [Grant(doc.id, shareUserID, permissions)], auth.written)
    // At most one row, exactly the requested mask (not OR-ed with SHARE), and only after authorisation.
    ensures o.granted == [] || o.granted == [Grant(doc.id, shareUserID, permissions)]
    ensures o.granted != [] ==>
              Authorise(grants, doc, userID, SHARE | permissions, authNow, f.auth).status.Success? && shareUserID != doc.owner
    // Success is the insert followed by one "Share" audit row.
    ensures o.status.Success? <==>
              Authorise(grants, doc, userID, SHARE | permissions, authNow, f.auth).status.Success?
              && shareUserID != doc.owner && !f.insertFails && !f.logFails
    ensures o.status.Success? ==>
              o.granted == [Grant(doc.id, shareUserID, permissions)]
              && o.written == Authorise(grants, doc, userID, SHARE | permissions, authNow, f.auth).written
                                + [AuditRecord(userID, doc.id, ShareAction(permissions), shareNow)]
  {
    var auth := Authorise(grants, doc, userID, SHARE | permissions, authNow, f.auth);
    if auth.status.Failure? then ShareOutcome(auth.status, [], auth.written)
    else if doc.owner == shareUserID then ShareOutcome(Failure(CannotShareWithOwner), [], auth.written)
    else if f.insertFails then ShareOutcome(Failure(StoreError), [], auth.written)
    else
      var logged := if f.logFails then [] else [AuditRecord(userID, doc.id, ShareAction(permissions), shareNow)];
      ShareOutcome(if f.logFails then Failure(StoreError) else Success,
                   [Grant(doc.id, shareUserID, permissions)], auth.written + logged)
  }

  /** ShareDocument: authorise SHARE|permissions, refuse the owner as target,
      insert the grant, log the share. */
  method ShareDocument(db: Database, doc: Document, userID: UserId, shareUserID: UserId, permissions: Mask,
                       authNow: Timestamp, shareNow: Timestamp, f: ShareFaults) returns (r: Status)
    modifies db`permissions, db`auditLog
    ensures var o := Sharing(old(db.permissions), doc, userID, shareUserID, permissions, authNow, shareNow, f);
            && r == o.status
            && db.permissions == old(db.permissions) + o.granted
            && db.auditLog == old(db.auditLog) + o.written
  {
    r := AuthoriseOrError(db, userID, doc, SHARE | permissions, authNow, f.auth);
    if r.Failure? {
      return;
    }
    if doc.owner == shareUserID {
      return Failure(CannotShareWithOwner);
    }
    r := PermissionStore.ShareDocument(db, doc.id, shareUserID, permissions, f.insertFails);
    if r.Failure? {
      return;
    }
    r := AuditLog.Log(db, userID, doc.id, ShareAction(permissions), shareNow, f.logFails);
  }

  /** The owner cannot share a document with themselves. */
  lemma NoSelfGrant(grants: seq<Grant>, doc: Document, permissions: Mask, authNow: Timestamp, shareNow: Timestamp, f: ShareFaults)
    ensures Sharing(grants, doc, doc.owner, doc.owner, permissions, authNow, shareNow, f) ==
              ShareOutcome(Failure(CannotShareWithOwner), [], [])
  {
  }

  /** A non-owner can share only while holding SHARE and every capability shared. */
  lemma SharingCannotEscalate(grants: seq<Grant>, doc: Document, userID: UserId, shareUserID: UserId,
                              permissions: Mask, authNow: Timestamp, shareNow: Timestamp, f: ShareFaults)
    requires Sharing(grants, doc, userID, shareUserID, permissions, authNow, shareNow, f).granted != []
    requires userID != doc.owner
    ensures Share in Capabilities(GrantedMask(grants, userID, doc.id))
    ensures Capabilities(permissions) <= Capabilities(GrantedMask(grants, userID, doc.id))
  {
    var granted := GrantedMask(grants, userID, doc.id);
    assert Authorise(grants, doc, userID, SHARE | permissions, authNow, f.auth).status.Success?;
    assert Permits(SHARE | permissions, granted);
    PermitsIsInclusion(SHARE | permissions, granted);
    UnionIsOr(SHARE, permissions);
  }

  /** After a successful share to a user who had no row for the document,
      that user is authorised for exactly what was shared. */
  lemma ShareThenAuthorise(grants: seq<Grant>, doc: Document, userID: UserId, shareUserID: UserId, permissions: Mask,
                           authNow: Timestamp, shareNow: Timestamp, f: ShareFaults, later: Timestamp, g: AuthFaults, requested: Mask)
    requires Sharing(grants, doc, userID, shareUserID, permissions, authNow, shareNow, f).status.Success?
    requires NoGrant(grants, shareUserID, doc.id)
    requires !g.lookupFails && !g.logFails
    ensures var after := grants + Sharing(grants, doc, userID, shareUserID, permissions, authNow, shareNow, f).granted;
            Authorise(after, doc, shareUserID, requested, later, g).status.Success? <==> Permits(requested, permissions)
  {
    GrantedMaskAppend(grants, Grant(doc.id, shareUserID, permissions), shareUserID, doc.id);
  }

  /** A share to a user who already has a row for the document changes
      nothing they can do: GetPerms keeps reading the earlier row. */
  lemma ReshareIsShadowed(grants: seq<Grant>, doc: Document, userID: UserId, shareUserID: UserId, permissions: Mask,
                          authNow: Timestamp, shareNow: Timestamp, f: ShareFaults, later: Timestamp, g: AuthFaults, requested: Mask)
    requires !NoGrant(grants, shareUserID, doc.id)
    ensures var after := grants + Sharing(grants, doc, userID, shareUserID, permissions, authNow, shareNow, f).granted;
            Authorise(after, doc, shareUserID, requested, later, g) == Authorise(grants, doc, shareUserID, requested, later, g)
  {
    var o := Sharing(grants, doc, userID, shareUserID, permissions, authNow, shareNow, f);
    if o.granted != [] {
      GrantedMaskAppend(grants, o.granted[0], shareUserID, doc.id);
      assert grants + o.granted == grants + [o.granted[0]];
    } else {
      assert grants + o.granted == grants;
    }
  }

  /** The grant row does not carry SHARE unless it was asked for, so a
      grantee who was given no SHARE bit cannot share the document on. */
  lemma GranteeCannotReshare(grants: seq<Grant>, doc: Document, userID: UserId, shareUserID: UserId, permissions: Mask,
                             authNow: Timestamp, shareNow: Timestamp, f: ShareFaults, later: Timestamp, g: AuthFaults, more: Mask)
    requires Sharing(grants, doc, userID, shareUserID, permissions, authNow, shareNow, f).status.Success?
    requires NoGrant(grants, shareUserID, doc.id)
    requires permissions & SHARE == 0
    requires !g.lookupFails && !g.logFails
    ensures var after := grants + Sharing(grants, doc, userID, shareUserID, permissions, authNow, shareNow, f).granted;
            Authorise(after, doc, shareUserID, SHARE | more, later, g).status == Failure(AccessDenied)
  {
  }

  /** The access row a non-owner's share writes never names the mask:
      SHARE|permissions is always an unknown permission type. */
  lemma ShareAccessRowIsUnknown(grants: seq<Grant>, doc: Document, userID: UserId, shareUserID: UserId,
                                permissions: Mask, authNow: Timestamp, shareNow: Timestamp, f: ShareFaults)
    requires userID != doc.owner
    requires Sharing(grants, doc, userID, shareUserID, permissions, authNow, shareNow, f).written != []
    ensures Sharing(grants, doc, userID, shareUserID, permissions, authNow, shareNow, f).written[0].action
              == "Access - Perm:" + UNKNOWN_TEXT + (if Permits(SHARE | permissions, GrantedMask(grants, userID, doc.id)) then AUTHORISED else UNAUTHORISED)
  {
  }

  /** SharedDocuments: the ids of the documents the user holds a grant row
      for, one per row, with no authorisation check. It passes on the store's
      list as written: one id per row in row order, duplicates kept, all of
      them unless rows.Next stops early, and then the ids of the rows seen
      before it stopped, still as a success. */
  method SharedDocuments(db: Database, userID: UserId, fault: ScanFault) returns (r: Result<seq<DocId>>)
    ensures r.Ok? <==> !ScanErrs(fault, |RowsForUser(db.permissions, userID)|)
    ensures r.Err? ==> r.error == StoreError
    ensures r.Ok? ==> forall d :: d in r.value ==> exists g :: g in db.permissions && g.user == userID && g.document == d
    ensures r.Ok? && !NextFails(fault, |RowsForUser(db.permissions, userID)|) ==>
              forall d :: d in r.value <==> exists g :: g in db.permissions && g.user == userID && g.document == d
    ensures NextFails(fault, |RowsForUser(db.permissions, userID)|) ==>
              r.Ok? && |r.value| < |RowsForUser(db.permissions, userID)|
    ensures r.Ok? ==> var rows := RowsForUser(db.permissions, userID);
              |r.value| == RowsSeen(fault, |rows|) && forall i :: 0 <= i < |r.value| ==> r.value[i] == rows[i].document
  {
    r := ListSharedDocuments(db, userID, fault);
    if r.Ok? {
      ListedIdsAreGrants(db.permissions, userID, r.value);
    }
  }

  /** SharedDocuments over the corrected list: one id per grant row of the
      user, in row order, or an error. */
  method SharedDocumentsChecked(db: Database, userID: UserId, fault: ScanFault) returns (r: Result<seq<DocId>>)
    ensures r.Ok? <==> ScanCompletes(fault, |RowsForUser(db.permissions, userID)|)
    ensures r.Err? ==> r.error == StoreError
    ensures r.Ok? ==> forall d :: d in r.value <==> exists g :: g in db.permissions && g.user == userID && g.document == d
    ensures r.Ok? ==> var rows := RowsForUser(db.permissions, userID);
              |r.value| == |rows| && forall i :: 0 <= i < |r.value| ==> r.value[i] == rows[i].document
  {
    r := ListSharedDocumentsChecked(db, userID, fault);
    if r.Ok? {
      ListedIdsAreGrants(db.permissions, userID, r.value);
    }
  }

  /** The ids of a prefix of the user's rows name documents the user has a
      row for; the ids of all of them name every such document. */
  lemma ListedIdsAreGrants(grants: seq<Grant>, userID: UserId, ids: seq<DocId>)
    requires |ids| <= |RowsForUser(grants, userID)|
    requires forall i :: 0 <= i < |ids| ==> ids[i] == RowsForUser(grants, userID)[i].document
    ensures forall d :: d in ids ==> exists g :: g in grants && g.user == userID && g.document == d
    ensures |ids| == |RowsForUser(grants, userID)| ==>
              forall d :: d in ids <==> exists g :: g in grants && g.user == userID && g.document == d
  {
    var rows := RowsForUser(grants, userID);
    forall d | d in ids
      ensures exists g :: g in grants && g.user == userID && g.document == d
    {
      var i :| 0 <= i < |ids| && ids[i] == d;
      RowsForUserMembers(grants, userID, rows[i]);
    }
    if |ids| == |rows| {
      forall d | exists g :: g in grants && g.user == userID && g.document == d
        ensures d in ids
      {
        var g :| g in grants && g.user == userID && g.document == d;
        RowsForUserMembers(grants, userID, g);
        var i :| 0 <= i < |rows| && rows[i] == g;
        assert ids[i] == d;
      }
    }
  }
}
