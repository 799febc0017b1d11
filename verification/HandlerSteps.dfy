/** A handler whose statements nothing interleaves with does what the one-step handler does. */
module HandlerSteps {
  import opened Common
  import opened Model
  import opened Db
  import Integrity
  import opened Checks
  import I = Interleaving
  import H = Handlers
  import ContentHash

  /** Up to n statements of a handler, one right after the other. */
  function Alone(db: Database, h: I.Handler, now: int, n: nat): Database
    decreases n
  {
    if n == 0 || h == I.Finished then db
    else var (after, next) := I.StepHandler(db, h, now); Alone(after, next, now, n - 1)
  }

  lemma {:induction false} AloneStep(db: Database, h: I.Handler, now: int, n: nat)
    requires n > 0
    ensures Alone(db, h, now, n) == Alone(I.StepHandler(db, h, now).0, I.StepHandler(db, h, now).1, now, n - 1)
    ensures Alone(db, I.Finished, now, n) == db && Alone(db, h, now, 0) == db
  {
    assert h == I.Finished ==> I.StepHandler(db, h, now) == (db, h);
    hide I.StepHandler;
    if h == I.Finished {
      if n > 1 {
        AloneStep(db, h, now, n - 1);
      }
    }
  }

  predicate PutChecks(db: Database, projectId: int, id: int, i: Issue) {
    && projectId in db.projects.rows && InProject(db, id, projectId).Some?
    && AssigneePasses(db, i, InProject(db, id, projectId)) && LabelPasses(db, i) && ReleasePasses(db, i)
  }

  /** The first five steps only check. */
  lemma {:induction false} PutReachesWrite(db: Database, projectId: int, id: int, issue: Issue, now: int)
    ensures var i := issue.(projectId := projectId);
      Alone(db, I.Put(0, projectId, id, issue, None), now, 6)
      == if PutChecks(db, projectId, id, i)
        then Alone(db, I.Put(5, projectId, id, i, InProject(db, id, projectId)), now, 1) else db
  {
    hide Alone, AssigneePasses, LabelPasses, ReleasePasses, ContentHash.IssueContentHash, Integrity.Exec;
    var i := issue.(projectId := projectId);
    var found := InProject(db, id, projectId);
    AloneStep(db, I.Put(0, projectId, id, issue, None), now, 6);
    AloneStep(db, I.Put(1, projectId, id, i, None), now, 5);
    AloneStep(db, I.Put(2, projectId, id, i, found), now, 4);
    AloneStep(db, I.Put(3, projectId, id, i, found), now, 3);
    AloneStep(db, I.Put(4, projectId, id, i, found), now, 2);
    AloneStep(db, I.Finished, now, 1);
  }

  /** The creator is no part of the hash, and UPDATE keeps it. */
  lemma {:induction false} CreatorIgnored(db: Database, id: int, i: Issue, current: Issue, now: int)
    requires id in db.issues.rows && db.issues.rows[id] == current
    ensures ContentHash.IssueContentHash(i.(creatorId := current.creatorId)) == ContentHash.IssueContentHash(i)
    ensures Db.UpdateIssue(db, id, i.(creatorId := current.creatorId, updatedAt := now))
        == Db.UpdateIssue(db, id, i.(updatedAt := now))
  {
    hide IssueRefs;
  }

  /** The sixth step writes what persistIssueUpdate writes. */
  lemma {:induction false} PutWrites(db: Database, projectId: int, id: int, i: Issue, now: int)
    requires InProject(db, id, projectId).Some?
    ensures var current := db.issues.rows[id];
      Alone(db, I.Put(5, projectId, id, i, InProject(db, id, projectId)), now, 1)
      == if current.status == STATUS_ARCHIVE || i.status == STATUS_ARCHIVE then db
         else H.Perform(db, H.Persist(id, i.(creatorId := current.creatorId), current, now)).0
  {
    hide Alone, ContentHash.IssueContentHash, Db.UpdateIssue;
    var current := db.issues.rows[id];
    var h := I.Put(5, projectId, id, i, Some(current));
    var j := i.(creatorId := current.creatorId);
    AloneStep(db, h, now, 1);
    AloneStep(I.StepHandler(db, h, now).0, I.Finished, now, 1);
    CreatorIgnored(db, id, i, current, now);
    H.PerformOne(db, Integrity.Statement.UpdateIssuePosition(id, i.position));
    H.PerformOne(db, Integrity.Statement.UpdateIssue(id, j.(updatedAt := now)));
  }

  /** The six steps of a PUT without If-Match, on the row that its validated body becomes. */
  lemma {:induction false} PutAlone(db: Database, projectId: int, id: int, userId: int, body: Issue, now: int)
    requires ValidateIssue(body).Some?
    ensures Alone(db, I.Put(0, projectId, id, ValidateIssue(body).value.(updaterId := Some(userId)), None), now, 6)
            == H.Handle(db, H.PutIssue(projectId, id, userId, None, body), now).0
  {
    hide Alone, ValidateIssue, ContentHash.IssueContentHash, H.Persist, H.Perform;
    var issue := ValidateIssue(body).value.(updaterId := Some(userId));
    var i := issue.(projectId := projectId);
    PutReachesWrite(db, projectId, id, issue, now);
    if InProject(db, id, projectId).Some? {
      PutWrites(db, projectId, id, i, now);
      assert i.(creatorId := db.issues.rows[id].creatorId)
        == H.PutRow(ValidateIssue(body).value, db.issues.rows[id], projectId, userId);
    }
  }

  /** The three steps of archiving and unarchiving. */
  lemma {:induction false} ToggleAlone(db: Database, projectId: int, id: int, archive: bool, now: int)
    ensures Alone(db, I.Toggle(0, projectId, id, archive, None), now, 3)
            == H.Handle(db, if archive then H.ArchiveIssue(projectId, id) else H.UnarchiveIssue(projectId, id), now).0
  {
    hide Alone, Integrity.Try;
    var found := InProject(db, id, projectId);
    AloneStep(db, I.Toggle(0, projectId, id, archive, None), now, 3);
    AloneStep(db, I.Toggle(1, projectId, id, archive, None), now, 2);
    AloneStep(db, I.Toggle(2, projectId, id, archive, found), now, 1);
    if found.Some? {
      var status := if archive then STATUS_ARCHIVE else STATUS_DONE;
      var st := Integrity.Statement.UpdateIssue(id, found.value.(status := status, updatedAt := now));
      AloneStep(Integrity.Exec(db, st), I.Finished, now, 1);
      H.PerformOne(db, st);
    }
  }

  /** The four steps of a move to a project with a real id. */
  lemma {:induction false} MoveAlone(db: Database, projectId: int, id: int, userId: int, newProjectId: int, now: int)
    requires db.projects.Valid()
    ensures Alone(db, I.Move(0, projectId, id, newProjectId, userId, None), now, 4)
            == H.Handle(db, H.MoveIssue(projectId, id, userId, newProjectId), now).0
  {
    hide Alone, Integrity.Try;
    var found := InProject(db, id, projectId);
    AloneStep(db, I.Move(0, projectId, id, newProjectId, userId, None), now, 4);
    AloneStep(db, I.Move(1, projectId, id, newProjectId, userId, None), now, 3);
    AloneStep(db, I.Move(2, projectId, id, newProjectId, userId, found), now, 2);
    AloneStep(db, I.Move(3, projectId, id, newProjectId, userId, found), now, 1);
    if found.Some? {
      var st := Integrity.Statement.UpdateIssue(id, found.value.(
        projectId := newProjectId, labelId := None, releaseId := None, status := STATUS_OPEN,
        updaterId := Some(userId), updatedAt := now));
      AloneStep(Integrity.Exec(db, st), I.Finished, now, 1);
      H.PerformOne(db, st);
    }
  }

  /** The six steps of a creation, on the row that its validated body becomes. */
  lemma {:induction false} CreateAlone(db: Database, projectId: int, userId: int, body: Issue, now: int)
    requires ValidateIssue(body).Some?
    ensures Alone(db, I.Create(0, projectId,
        ValidateIssue(body).value.(creatorId := Some(userId), updaterId := Some(userId))), now, 6)
            == H.Handle(db, H.CreateIssue(projectId, userId, body), now).0
  {
    hide Alone, ValidateIssue, AssigneePasses, LabelPasses, ReleasePasses, NewRow, Integrity.Try;
    var issue := ValidateIssue(body).value.(creatorId := Some(userId), updaterId := Some(userId));
    var i := issue.(projectId := projectId);
    var st := Integrity.Statement.InsertIssue(NewRow(db, i, now));
    AloneStep(db, I.Create(0, projectId, issue), now, 6);
    AloneStep(db, I.Create(1, projectId, i), now, 5);
    AloneStep(db, I.Create(2, projectId, i), now, 4);
    AloneStep(db, I.Create(3, projectId, i), now, 3);
    AloneStep(db, I.Create(4, projectId, i), now, 2);
    AloneStep(db, I.Create(5, projectId, NewRow(db, i, now)), now, 1);
    AloneStep(Integrity.Exec(db, st), I.Finished, now, 1);
    H.PerformOne(db, st);
  }
}
