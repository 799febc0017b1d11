/** Issue handlers of backend/handlers.go on the tables they change, one after the other. */
module IssueHandlers {
  import opened Common
  import opened Model
  import opened Db
  import opened Store
  import opened Checks
  import opened Handlers
  import ContentHash
  import Integrity

  function Status(error: Option<DbError>): nat {
    if error.None? then 200 else ErrorStatus(error.value)
  }

  method HandleCreateIssue(db: DB, projectId: int, userId: int, body: Issue, now: int) returns (status: nat)
    modifies db
    ensures (db.View(), status) == Handle(old(db.View()), CreateIssue(projectId, userId, body), now)
  {
    hide ValidateIssue, NewRow, AssigneePasses, LabelPasses, ReleasePasses;
    if projectId !in db.projects.rows {
      return 404;
    }
    var valid := ValidateIssue(body);
    if valid.None? {
      return 400;
    }
    var i := valid.value;
    i := i.(projectId := projectId);
    i := i.(creatorId := Some(userId), updaterId := Some(userId));
    if !AssigneePasses(db.View(), i, None) || !LabelPasses(db.View(), i) || !ReleasePasses(db.View(), i) {
      return 400;
    }
    PerformOne(db.View(), Integrity.Statement.InsertIssue(NewRow(db.View(), i, now)));
    var error, _ := db.CreateIssue(i, now);
    status := Status(error);
  }

  method PersistIssueUpdate(db: DB, id: int, i: Issue, current: Issue, now: int) returns (status: nat)
    modifies db
    ensures (db.View(), status) == Perform(old(db.View()), Persist(id, i, current, now))
  {
    hide ContentHash.IssueContentHash;
    PerformOne(db.View(), Integrity.Statement.UpdateIssuePosition(id, i.position));
    PerformOne(db.View(), Integrity.Statement.UpdateIssue(id, i.(updatedAt := now)));
    var error: Option<DbError> := None;
    if ContentHash.IssueContentHash(i) == ContentHash.IssueContentHash(current) {
      if i.position != current.position {
        error := db.UpdateIssuePosition(id, i.position);
      }
    } else {
      error := db.UpdateIssue(id, i.(updatedAt := now));
    }
    status := Status(error);
  }

  method HandlePutIssue(db: DB, projectId: int, id: int, userId: int, ifMatch: Option<ETag>, body: Issue, now: int)
    returns (status: nat)
    modifies db
    ensures (db.View(), status) == Handle(old(db.View()), PutIssue(projectId, id, userId, ifMatch, body), now)
  {
    hide Persist, Perform, ValidateIssue;
    if projectId !in db.projects.rows {
      return 404;
    }
    var found := InProject(db.View(), id, projectId);
    if found.None? {
      return 404;
    }
    var current := found.value;
    if IfMatchConflict(current, ifMatch) {
      return 409;
    }
    var valid := ValidateIssue(body);
    if valid.None? {
      return 400;
    }
    var i := valid.value;
    i := i.(creatorId := current.creatorId);
    i := i.(projectId := projectId);
    i := i.(updaterId := Some(userId));
    if !AssigneePasses(db.View(), i, Some(current)) || !LabelPasses(db.View(), i) || !ReleasePasses(db.View(), i) {
      return 400;
    }
    if current.status == STATUS_ARCHIVE {
      return 403;
    }
    if i.status == STATUS_ARCHIVE {
      return 400;
    }
    status := PersistIssueUpdate(db, id, i, current, now);
  }

  /** handleArchiveIssue and handleUnarchiveIssue. */
  method HandleIssueArchiveToggle(db: DB, projectId: int, id: int, archive: bool, now: int) returns (status: nat)
    modifies db
    ensures (db.View(), status)
            == Handle(old(db.View()), if archive then ArchiveIssue(projectId, id)
              else UnarchiveIssue(projectId, id), now)
  {
    if projectId !in db.projects.rows {
      return 404;
    }
    var found := InProject(db.View(), id, projectId);
    if found.None? {
      return 404;
    }
    var current := found.value;
    if (current.status == STATUS_ARCHIVE) == archive {
      return 400;
    }
    current := current.(status := if archive then STATUS_ARCHIVE else STATUS_DONE, updatedAt := now);
    PerformOne(db.View(), Integrity.Statement.UpdateIssue(id, current));
    var error := db.UpdateIssue(id, current);
    status := Status(error);
  }

  method HandleMoveIssue(db: DB, projectId: int, id: int, userId: int, newProjectId: int, now: int)
      returns (status: nat)
    modifies db
    ensures (db.View(), status) == Handle(old(db.View()), MoveIssue(projectId, id, userId, newProjectId), now)
  {
    if projectId !in db.projects.rows {
      return 404;
    }
    var found := InProject(db.View(), id, projectId);
    if found.None? {
      return 404;
    }
    if found.value.status == STATUS_ARCHIVE {
      return 403;
    }
    if newProjectId <= 0 || newProjectId == projectId || newProjectId !in db.projects.rows {
      return 400;
    }
    var moved := found.value;
    moved := moved.(projectId := newProjectId);
    moved := moved.(labelId := None, releaseId := None);
    moved := moved.(status := STATUS_OPEN);
    moved := moved.(updaterId := Some(userId), updatedAt := now);
    PerformOne(db.View(), Integrity.Statement.UpdateIssue(id, moved));
    var error := db.UpdateIssue(id, moved);
    status := Status(error);
  }
}
