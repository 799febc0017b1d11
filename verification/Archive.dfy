/** From archive to unarchive: what no request can change. */
module Archive {
  import opened Common
  import opened Model
  import opened Db
  import opened Integrity
  import opened Checks
  import opened Handlers
  import Evolution

  predicate Archived(db: Database, id: int) {
    id in db.issues.rows && db.issues.rows[id].status == STATUS_ARCHIVE
  }

  predicate NullKept(before: Option<int>, after: Option<int>) {
    after == before || after.None?
  }

  /**
   * The row keeps its content; label, release, creator and assignee at most become null, and so
   * does the updater, with the stamp untouched, as long as the assignee stays.
   */
  predicate RowKept(a: Issue, b: Issue) {
    && b == a.(labelId := b.labelId, releaseId := b.releaseId, creatorId := b.creatorId, assigneeId := b.assigneeId,
               updaterId := b.updaterId, updatedAt := b.updatedAt)
    && NullKept(a.labelId, b.labelId) && NullKept(a.releaseId, b.releaseId)
    && NullKept(a.creatorId, b.creatorId) && NullKept(a.assigneeId, b.assigneeId)
    && (b.assigneeId == a.assigneeId ==> NullKept(a.updaterId, b.updaterId) && b.updatedAt == a.updatedAt)
  }

  /** The comments of an issue without their authors. */
  function BodiesOf(db: Database, id: int): map<int, (string, bool)> {
    map c | c in db.comments.rows && db.comments.rows[c].issueId == id ::
      (db.comments.rows[c].body, db.comments.rows[c].edited)
  }

  predicate KeptArchived(db: Database, after: Database, id: int)
    requires Archived(db, id)
  {
    && id in after.issues.rows && RowKept(db.issues.rows[id], after.issues.rows[id])
    && TasksOf(after, id) == TasksOf(db, id) && BodiesOf(after, id) == BodiesOf(db, id)
  }

  /** Statements that can touch neither the content of issue a nor its tasks and comments. */
  predicate Spares(st: Statement, a: int) {
    match st
    case UpdateIssue(id, _) => id != a
    case UpdateIssuePosition(id, _) => id != a
    case DeleteIssue(id) => id != a
    case InsertTask(t) => t.issueId != a
    case UpdateTask(issueId, _, _) => issueId != a
    case UpdateTaskPositions(issueId, _) => issueId != a
    case DeleteTask(issueId, _) => issueId != a
    case InsertComment(c) => c.issueId != a
    case UpdateComment(issueId, _, _, _) => issueId != a
    case DeleteComment(issueId, _, _) => issueId != a
    case _ => true
  }

  lemma {:induction false} KeptThen(db: Database, mid: Database, after: Database, id: int)
    requires Archived(db, id) && KeptArchived(db, mid, id) && Archived(mid, id) && KeptArchived(mid, after, id)
    ensures KeptArchived(db, after, id) && Archived(after, id)
  {
    hide TasksOf, BodiesOf;
  }

  lemma {:induction false} SameTablesKept(db: Database, after: Database, a: int)
    requires Archived(db, a)
    requires after.issues == db.issues && after.tasks == db.tasks && after.comments == db.comments
    ensures KeptArchived(db, after, a)
  {
  }

  // ------------------------------------------------------------------------------- statements

  lemma {:induction false} PlacingSpares(db: Database, id: int, position: int, a: int)
    requires Archived(db, a) && id in db.issues.rows && db.issues.rows[id].status != STATUS_ARCHIVE
    ensures KeptArchived(db, db.(issues := db.issues.Put(id, db.issues.rows[id].(position := position))), a)
  {
  }

  lemma {:induction false} PositionsSpare(db: Database, projectId: int, updates: seq<PositionUpdate>, a: int)
    requires Archived(db, a) && Db.UpdateIssuePositions(db, projectId, updates).Ok?
    ensures KeptArchived(db, Db.UpdateIssuePositions(db, projectId, updates).value, a)
    decreases |updates|
  {
    hide TasksOf, BodiesOf;
    if updates == [] {
      SameTablesKept(db, db, a);
    } else {
      var row := db.issues.rows[updates[0].id].(position := updates[0].position);
      var mid := db.(issues := db.issues.Put(updates[0].id, row));
      PositionsSpare(mid, projectId, updates[1..], a);
      PlacingSpares(db, updates[0].id, updates[0].position, a);
      KeptThen(db, mid, Db.UpdateIssuePositions(mid, projectId, updates[1..]).value, a);
    }
  }

  lemma {:induction false} TaskPositionsSpare(db: Database, issueId: int, updates: seq<PositionUpdate>, a: int)
    requires a != issueId && Db.UpdateTaskPositions(db, issueId, updates).Ok?
    ensures TasksOf(Db.UpdateTaskPositions(db, issueId, updates).value, a) == TasksOf(db, a)
    decreases |updates|
  {
    if updates != [] {
      var row := db.tasks.rows[updates[0].id].(position := updates[0].position);
      var mid := db.(tasks := db.tasks.Put(updates[0].id, row));
      TaskPositionsSpare(mid, issueId, updates[1..], a);
      assert TasksOf(mid, a) == TasksOf(db, a);
    }
  }

  lemma {:induction false} IssueStatementSpares(db: Database, st: Statement, a: int)
    requires Valid(db) && Archived(db, a) && TouchesIssues(st) && Spares(st, a)
    ensures KeptArchived(db, Exec(db, st), a)
  {
    hide RefsValid, IssueRefs;
  }

  lemma {:induction false} TaskStatementSpares(db: Database, st: Statement, a: int)
    requires Valid(db) && Archived(db, a) && TouchesTasks(st) && Spares(st, a)
    ensures KeptArchived(db, Exec(db, st), a)
  {
    hide RefsValid, IssueRefs;
    OnlyTasks(db, st);
    var after := Exec(db, st);
    assert TasksOf(after, a) == TasksOf(db, a);
    assert BodiesOf(after, a) == BodiesOf(db, a);
  }

  lemma {:induction false} ParentStatementSpares(db: Database, st: Statement, a: int)
    requires Archived(db, a) && (TouchesParents(st) || TouchesSessions(st))
    ensures KeptArchived(db, Exec(db, st), a)
  {
    hide TasksOf, BodiesOf;
    var after := Exec(db, st);
    assert after.issues == db.issues && after.tasks == db.tasks && after.comments == db.comments;
    SameTablesKept(db, after, a);
  }

  lemma {:induction false} RemoveSpares(db: Database, labels: set<int>, releases: set<int>, a: int)
    requires Archived(db, a)
    ensures KeptArchived(db, RemoveLabels(db, labels), a) && KeptArchived(db, RemoveReleases(db, releases), a)
  {
  }

  lemma {:induction false} BodiesKept(db: Database, after: Database, a: int)
    requires after.tasks == db.tasks && after.comments.rows.Keys == db.comments.rows.Keys
    requires forall c :: c in db.comments.rows ==>
        after.comments.rows[c] == db.comments.rows[c].(userId := after.comments.rows[c].userId)
    ensures TasksOf(after, a) == TasksOf(db, a) && BodiesOf(after, a) == BodiesOf(db, a)
  {
    assert TasksOf(after, a) == TasksOf(db, a);
    forall c | c in db.comments.rows
      ensures after.comments.rows[c].issueId == db.comments.rows[c].issueId
      ensures after.comments.rows[c].body == db.comments.rows[c].body
          && after.comments.rows[c].edited == db.comments.rows[c].edited
    {
    }
    assert BodiesOf(after, a).Keys == BodiesOf(db, a).Keys;
  }

  lemma {:induction false} KeptStaysArchived(db: Database, after: Database, a: int)
    requires Archived(db, a) && KeptArchived(db, after, a)
    ensures Archived(after, a)
  {
  }

  /** Deleting the assignee clears the assignee and stamps the row; deleting anyone else does not. */
  lemma {:induction false} DeleteUserSpares(db: Database, id: int, actor: Option<int>, userName: string, now: int,
      a: int)
    requires Archived(db, a)
    ensures KeptArchived(db, Exec(db, Statement.DeleteUser(id, actor, userName, now)), a)
  {
    hide InsertHistory, TasksOf, BodiesOf;
    var after := Exec(db, Statement.DeleteUser(id, actor, userName, now));
    assert RowKept(db.issues.rows[a], after.issues.rows[a]);
    assert after.tasks == db.tasks;
    BodiesKept(db, after, a);
  }

  lemma {:induction false} DeleteProjectSpares(db: Database, id: int, a: int)
    requires Archived(db, a)
    ensures KeptArchived(db, Exec(db, Statement.DeleteProject(id)), a)
  {
    hide TasksOf, BodiesOf, RemoveLabels, RemoveReleases, RowKept;
    var labels, releases := LabelsOf(db, id), ReleasesOf(db, id);
    SameTablesKept(db, db, a);
    RemoveSpares(db, labels, {}, a);
    var mid := RemoveLabels(db, labels);
    KeptStaysArchived(db, mid, a);
    RemoveSpares(mid, {}, releases, a);
    KeptThen(db, mid, RemoveReleases(mid, releases), a);
    if Db.DeleteProject(db, id).Ok? {
      var after := Db.DeleteProject(db, id).value;
      SameTablesKept(RemoveReleases(mid, releases), after, a);
      KeptThen(db, RemoveReleases(mid, releases), after, a);
    }
  }

  lemma {:induction false} ExecSpares(db: Database, st: Statement, a: int)
    requires Valid(db) && Archived(db, a) && Spares(st, a)
    ensures KeptArchived(db, Exec(db, st), a)
  {
    hide KeptArchived, Valid, Archived, RemoveLabels, RemoveReleases, Db.DeleteUser, Db.DeleteProject;
    if TouchesIssues(st) {
      IssueStatementSpares(db, st, a);
    } else if TouchesTasks(st) {
      TaskStatementSpares(db, st, a);
    } else if TouchesParents(st) || TouchesSessions(st) {
      ParentStatementSpares(db, st, a);
    } else {
      SameTablesKept(db, db, a);
      match st
      case UpdateIssuePositions(projectId, updates) =>
        if Try(db, st).Ok? { PositionsSpare(db, projectId, updates, a); }
      case UpdateTaskPositions(issueId, updates) =>
        if Try(db, st).Ok? { TaskPositionsKept(db, issueId, updates, a); }
      case DeleteUser(id, actor, userName, now) => DeleteUserSpares(db, id, actor, userName, now, a);
      case DeleteProject(id) => DeleteProjectSpares(db, id, a);
      case DeleteLabel(id, projectId) => if Try(db, st).Ok? { RemoveSpares(db, {id}, {}, a); }
      case DeleteRelease(id) => if Try(db, st).Ok? { RemoveSpares(db, {}, {id}, a); }
    }
  }

  lemma {:induction false} TaskPositionsKept(db: Database, issueId: int, updates: seq<PositionUpdate>, a: int)
    requires Archived(db, a) && a != issueId && Db.UpdateTaskPositions(db, issueId, updates).Ok?
    ensures KeptArchived(db, Db.UpdateTaskPositions(db, issueId, updates).value, a)
  {
    TaskPositionsSpare(db, issueId, updates, a);
    TaskPositionsKeep(db, issueId, updates);
  }

  // ---------------------------------------------------------------------------------- requests

  /** The archive checks: while a is archived, only its own unarchive request gets at it. */
  lemma {:induction false} DecisionSpares(db: Database, req: Request, now: int, a: int)
    requires Archived(db, a) && Decide(db, req, now).Execute? && !(req.UnarchiveIssue? && req.id == a)
    ensures forall k :: 0 <= k < |Decide(db, req, now).statements| ==> Spares(Decide(db, req, now).statements[k], a)
  {
    hide ValidateIssue, ContentHash.IssueContentHash, Positions.ValidUpdates, AssigneePasses, LabelPasses,
         ReleasePasses, ValidateTask, ValidateComment, EndPosition;
  }

  lemma {:induction false} PerformSpares(db: Database, statements: seq<Statement>, a: int)
    requires Valid(db) && Archived(db, a) && forall k :: 0 <= k < |statements| ==> Spares(statements[k], a)
    ensures KeptArchived(db, Perform(db, statements).0, a)
    decreases |statements|
  {
    hide Valid, Try, Spares, TasksOf, BodiesOf;
    SameTablesKept(db, db, a);
    if statements != [] && Try(db, statements[0]).Ok? {
      var mid := Exec(db, statements[0]);
      ExecValid(db, statements[0]);
      ExecSpares(db, statements[0], a);
      PerformSpares(mid, statements[1..], a);
      KeptThen(db, mid, Perform(mid, statements[1..]).0, a);
    }
  }

  /** No request but its own unarchive changes an archived issue, its tasks or the text of its comments. */
  lemma {:induction false} HandleKeepsArchived(db: Database, req: Request, now: int, a: int)
    requires Valid(db) && Archived(db, a) && !(req.UnarchiveIssue? && req.id == a)
    ensures KeptArchived(db, Handle(db, req, now).0, a)
  {
    hide Valid, Perform, Decide, Spares, TasksOf, BodiesOf;
    SameTablesKept(db, db, a);
    if Decide(db, req, now).Execute? {
      DecisionSpares(db, req, now, a);
      PerformSpares(db, Decide(db, req, now).statements, a);
    }
  }

  // -------------------------------------------------------------------------------- whole runs

  /** Requests one after the other, each with its time. */
  function Serve(db: Database, requests: seq<(Request, int)>): Database
    decreases |requests|
  {
    if requests == [] then db else Serve(Handle(db, requests[0].0, requests[0].1).0, requests[1..])
  }

  predicate LeavesArchived(requests: seq<(Request, int)>, a: int) {
    forall k :: 0 <= k < |requests| ==> !(requests[k].0.UnarchiveIssue? && requests[k].0.id == a)
  }

  lemma {:induction false} ServeKeepsArchived(db: Database, requests: seq<(Request, int)>, a: int)
    requires Valid(db) && Archived(db, a) && LeavesArchived(requests, a)
    ensures Valid(Serve(db, requests)) && KeptArchived(db, Serve(db, requests), a)
    decreases |requests|
  {
    hide Valid, Handle, TasksOf, BodiesOf;
    SameTablesKept(db, db, a);
    if requests != [] {
      var mid := Handle(db, requests[0].0, requests[0].1).0;
      Evolution.HandleEvolves(db, requests[0].0, requests[0].1);
      HandleKeepsArchived(db, requests[0].0, requests[0].1, a);
      ServeKeepsArchived(mid, requests[1..], a);
      KeptThen(db, mid, Serve(mid, requests[1..]), a);
    }
  }

  /** Archive and unarchive succeed exactly on a row in the other state, and write its status and stamp only. */
  lemma {:induction false} ToggleExact(db: Database, projectId: int, a: int, archive: bool, now: int)
    requires Valid(db)
    ensures var req := if archive then ArchiveIssue(projectId, a) else UnarchiveIssue(projectId, a);
            var (after, status) := Handle(db, req, now);
            var fits := InProject(db, a, projectId).Some? && (db.issues.rows[a].status == STATUS_ARCHIVE) != archive;
      && (status == 200 <==> fits)
      && (fits ==> after == db.(issues := db.issues.Put(a, db.issues.rows[a].(
                     status := if archive then STATUS_ARCHIVE else STATUS_DONE, updatedAt := now))))
      && (!fits ==> after == db)
  {
    if InProject(db, a, projectId).Some? {
      assert IssueRefs(db, db.issues.rows[a]);
    }
    var req := if archive then ArchiveIssue(projectId, a) else UnarchiveIssue(projectId, a);
    var decision := Decide(db, req, now);
    if decision.Execute? {
      var i := db.issues.rows[a].(status := if archive then STATUS_ARCHIVE else STATUS_DONE, updatedAt := now);
      assert decision.statements == [Statement.UpdateIssue(a, i)];
      PerformOne(db, Statement.UpdateIssue(a, i));
    }
  }

  /**
   * Archive, then any requests but an unarchive of the same issue, then unarchive: the unarchive
   * succeeds, and the issue comes back as Done with everything else as it was before the archive.
   */
  lemma {:induction false} ArchiveToUnarchive(db: Database, projectId: int, a: int, at: int,
      requests: seq<(Request, int)>, until: int)
    requires Valid(db) && LeavesArchived(requests, a)
    requires Handle(db, ArchiveIssue(projectId, a), at).1 == 200
    ensures var archived := Handle(db, ArchiveIssue(projectId, a), at).0;
            var later := Serve(archived, requests);
            var (after, status) := Handle(later, UnarchiveIssue(projectId, a), until);
      && status == 200
      && a in db.issues.rows && a in after.issues.rows && a in later.issues.rows
      && RowKept(db.issues.rows[a].(status := STATUS_ARCHIVE, updatedAt := at), later.issues.rows[a])
      && after.issues.rows[a] == later.issues.rows[a].(status := STATUS_DONE, updatedAt := until)
      && TasksOf(after, a) == TasksOf(db, a) && BodiesOf(after, a) == BodiesOf(db, a)
  {
    hide Valid, Handle, Serve;
    ToggleExact(db, projectId, a, true, at);
    var archived := Handle(db, ArchiveIssue(projectId, a), at).0;
    Evolution.HandleEvolves(db, ArchiveIssue(projectId, a), at);
    ServeKeepsArchived(archived, requests, a);
    ToggleExact(Serve(archived, requests), projectId, a, false, until);
  }

  predicate AssigneeKept(db: Database, after: Database, a: int) {
    a in db.issues.rows && a in after.issues.rows && after.issues.rows[a].assigneeId == db.issues.rows[a].assigneeId
  }

  lemma {:induction false} PositionsKeepAssignee(db: Database, projectId: int, updates: seq<PositionUpdate>, a: int)
    requires a in db.issues.rows && Db.UpdateIssuePositions(db, projectId, updates).Ok?
    ensures AssigneeKept(db, Db.UpdateIssuePositions(db, projectId, updates).value, a)
    decreases |updates|
  {
    if updates != [] {
      var row := db.issues.rows[updates[0].id].(position := updates[0].position);
      PositionsKeepAssignee(db.(issues := db.issues.Put(updates[0].id, row)), projectId, updates[1..], a);
    }
  }

  lemma {:induction false} ExecKeepsAssignee(db: Database, st: Statement, a: int)
    requires Valid(db) && a in db.issues.rows && Spares(st, a) && !st.DeleteUser?
    ensures AssigneeKept(db, Exec(db, st), a)
  {
    hide RefsValid, TasksOf, CommentsOf, HistoryOf, IssueRefs;
    if st.UpdateIssuePositions? && Try(db, st).Ok? {
      PositionsKeepAssignee(db, st.projectId, st.updates, a);
    } else if st.UpdateTaskPositions? {
      OnlyTasks(db, st);
    }
  }

  lemma {:induction false} PerformKeepsAssignee(db: Database, statements: seq<Statement>, a: int)
    requires Valid(db) && Archived(db, a)
    requires forall k :: 0 <= k < |statements| ==> Spares(statements[k], a) && !statements[k].DeleteUser?
    ensures AssigneeKept(db, Perform(db, statements).0, a)
    decreases |statements|
  {
    hide Valid, Try, Spares, TasksOf, BodiesOf;
    if statements != [] && Try(db, statements[0]).Ok? {
      var mid := Exec(db, statements[0]);
      ExecValid(db, statements[0]);
      ExecSpares(db, statements[0], a);
      ExecKeepsAssignee(db, statements[0], a);
      PerformKeepsAssignee(mid, statements[1..], a);
    }
  }

  lemma {:induction false} OnlyDeleteUserDeletesUsers(db: Database, req: Request, now: int)
    requires Decide(db, req, now).Execute? && !req.DeleteUser?
    ensures forall k :: 0 <= k < |Decide(db, req, now).statements| ==> !Decide(db, req, now).statements[k].DeleteUser?
  {
    hide ValidateIssue, ContentHash.IssueContentHash, Positions.ValidUpdates, AssigneePasses, LabelPasses,
         ReleasePasses, ValidateTask, ValidateComment, EndPosition;
  }

  lemma {:induction false} RequestKeepsAssignee(db: Database, req: Request, now: int, a: int)
    requires Valid(db) && Archived(db, a) && !(req.UnarchiveIssue? && req.id == a) && !req.DeleteUser?
    ensures AssigneeKept(db, Handle(db, req, now).0, a)
  {
    hide Valid, Perform, Decide, Spares;
    if Decide(db, req, now).Execute? {
      DecisionSpares(db, req, now, a);
      OnlyDeleteUserDeletesUsers(db, req, now);
      PerformKeepsAssignee(db, Decide(db, req, now).statements, a);
    }
  }

  /**
   * The guards of handleDeleteUser and DeleteUser for the assignee of an issue: the actor exists, is
   * not the user, and the user is not the last active sysadmin.
   */
  predicate MayDeleteAssignee(db: Database, id: int, userId: int, a: int)
    requires a in db.issues.rows
  {
    && db.issues.rows[a].assigneeId == Some(id) && id != userId && id in db.users.rows && userId in db.users.rows
    && !IsLastSysAdmin(db, id)
  }

  /** Deleting the assignee unassigns and stamps the issue; a refused deletion changes nothing. */
  lemma {:induction false} UnassignStamps(db: Database, id: int, userId: int, userName: string, now: int, a: int)
    requires Valid(db) && Archived(db, a)
    ensures var result := Db.DeleteUser(db, id, Some(userId), userName, now);
      && (result.Ok? ==> a in result.value.db.issues.rows)
      && (result.Ok? && db.issues.rows[a].assigneeId == Some(id) ==>
            && result.value.db.issues.rows[a].updatedAt == now
            && result.value.db.issues.rows[a].updaterId == Unlink(Some(userId), {id}))
      && (result.Ok? && db.issues.rows[a].assigneeId != Some(id) ==>
            result.value.db.issues.rows[a].assigneeId == db.issues.rows[a].assigneeId)
      && (db.issues.rows[a].assigneeId == Some(id) ==>
            (result.Ok? <==> id in db.users.rows && userId in db.users.rows && !IsLastSysAdmin(db, id)))
  {
    hide InsertHistory, IsLastSysAdmin, TasksOf, CommentsOf, RefsValid;
    if db.issues.rows[a].assigneeId == Some(id) {
      assert a in AffectedIssues(db, id);
    }
  }

  lemma {:induction false} DeleteUserStamps(db: Database, id: int, userId: int, userName: string, now: int, a: int)
    requires Valid(db) && Archived(db, a)
    ensures var after := Handle(db, Request.DeleteUser(id, userId, userName), now).0;
      && a in after.issues.rows
      && (!MayDeleteAssignee(db, id, userId, a) ==> AssigneeKept(db, after, a))
      && (MayDeleteAssignee(db, id, userId, a) ==>
            after.issues.rows[a].updatedAt == now && after.issues.rows[a].updaterId == Some(userId))
  {
    hide Db.DeleteUser, IsLastSysAdmin, Valid;
    UnassignStamps(db, id, userId, userName, now, a);
    PerformOne(db, Statement.DeleteUser(id, Some(userId), userName, now));
  }

  /**
   * The one request that stamps an archived issue, and then also writes its actor into it, is the
   * deletion of the issue's assignee, exactly when its guards let it pass.
   */
  lemma {:induction false} StampMovesExactly(db: Database, req: Request, now: int, a: int)
    requires Valid(db) && Archived(db, a) && db.issues.rows[a].updatedAt != now && !(req.UnarchiveIssue? && req.id == a)
    ensures var after := Handle(db, req, now).0;
            var clears := req.DeleteUser? && MayDeleteAssignee(db, req.id, req.userId, a);
      && a in after.issues.rows
      && (after.issues.rows[a].updatedAt != db.issues.rows[a].updatedAt <==> clears)
      && (clears ==> after.issues.rows[a].updaterId == Some(req.userId))
      && (!clears ==> NullKept(db.issues.rows[a].updaterId, after.issues.rows[a].updaterId))
  {
    hide Valid, Handle, TasksOf, BodiesOf, MayDeleteAssignee;
    HandleKeepsArchived(db, req, now, a);
    if req.DeleteUser? {
      DeleteUserStamps(db, req.id, req.userId, req.userName, now, a);
    } else {
      RequestKeepsAssignee(db, req, now, a);
    }
  }
}
