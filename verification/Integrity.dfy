/**
 * What every SQL statement keeps: foreign keys, ids that are never used twice, labels and releases
 * that stay in their project, and an active sysadmin.
 */
module Integrity {
  import opened Common
  import opened Model
  import opened Db

  /** Every statement that writes; a transaction counts as one. */
  datatype Statement =
    | InsertIssue(issue: Issue)
    | UpdateIssue(id: int, issue: Issue)
    | UpdateIssuePosition(id: int, position: int)
    | UpdateIssuePositions(projectId: int, updates: seq<PositionUpdate>)
    | DeleteIssue(id: int)
    | InsertTask(task: Task)
    | UpdateTask(issueId: int, id: int, task: Task)
    | UpdateTaskPositions(issueId: int, updates: seq<PositionUpdate>)
    | DeleteTask(issueId: int, id: int)
    | InsertComment(comment: Comment)
    | UpdateComment(issueId: int, id: int, author: Option<int>, body: string)
    | DeleteComment(issueId: int, id: int, author: Option<int>)
    | InsertProject
    | DeleteProject(id: int)
    | InsertLabel(newLabel: Label)
    | DeleteLabel(id: int, projectId: int)
    | InsertRelease(release: Release)
    | UpdateRelease(id: int, ownerId: Option<int>)
    | DeleteRelease(id: int)
    | SetReleaseClosed(id: int, closed: bool)
    | ArchiveDone(releaseId: int, now: int)
    | InsertUser(user: User)
    | UpdateUser(id: int, user: User)
    | DeleteUser(id: int, actor: Option<int>, userName: string, now: int)
    | InsertSession(session: Session)
    | UpdateSession(id: int, tokenHash: Mac, expiresAt: int)
    | DeleteSession(id: int)
    | DeleteSessionsByUser(userId: int)
    | DeleteExpiredSessions(now: int)

  function Try(db: Database, st: Statement): Outcome {
    match st
    case InsertIssue(i) => Db.InsertIssue(db, i)
    case UpdateIssue(id, i) => Db.UpdateIssue(db, id, i)
    case UpdateIssuePosition(id, position) => Db.UpdateIssuePosition(db, id, position)
    case UpdateIssuePositions(projectId, updates) => Db.UpdateIssuePositions(db, projectId, updates)
    case DeleteIssue(id) => Db.DeleteIssue(db, id)
    case InsertTask(t) => Db.InsertTask(db, t)
    case UpdateTask(issueId, id, t) => Db.UpdateTask(db, issueId, id, t)
    case UpdateTaskPositions(issueId, updates) => Db.UpdateTaskPositions(db, issueId, updates)
    case DeleteTask(issueId, id) => Db.DeleteTask(db, issueId, id)
    case InsertComment(c) => Db.InsertComment(db, c)
    case UpdateComment(issueId, id, author, body) => Db.UpdateComment(db, issueId, id, author, body)
    case DeleteComment(issueId, id, author) => Db.DeleteComment(db, issueId, id, author)
    case InsertProject => Db.InsertProject(db)
    case DeleteProject(id) => Db.DeleteProject(db, id)
    case InsertLabel(l) => Db.InsertLabel(db, l)
    case DeleteLabel(id, projectId) => Db.DeleteLabel(db, id, projectId)
    case InsertRelease(r) => Db.InsertRelease(db, r)
    case UpdateRelease(id, ownerId) => Db.UpdateRelease(db, id, ownerId)
    case DeleteRelease(id) => Db.DeleteRelease(db, id)
    case SetReleaseClosed(id, closed) => Db.SetReleaseClosed(db, id, closed)
    case ArchiveDone(releaseId, now) => Ok(Db.ArchiveDone(db, releaseId, now))
    case InsertUser(u) => Db.InsertUser(db, u)
    case UpdateUser(id, u) => Db.UpdateUser(db, id, u)
    case DeleteUser(id, actor, userName, now) =>
      (match Db.DeleteUser(db, id, actor, userName, now) case Err(e) => Err(e) case Ok(d) => Ok(d.db))
    case InsertSession(s) => Db.InsertSession(db, s)
    case UpdateSession(id, tokenHash, expiresAt) => Db.UpdateSession(db, id, tokenHash, expiresAt)
    case DeleteSession(id) => Db.DeleteSession(db, id)
    case DeleteSessionsByUser(userId) => Ok(Db.DeleteSessionsByUser(db, userId))
    case DeleteExpiredSessions(now) => Ok(Db.DeleteExpiredSessions(db, now))
  }

  /** A failed statement changes nothing. */
  function Exec(db: Database, st: Statement): Database {
    match Try(db, st) case Ok(after) => after case Err(_) => db
  }

  // --------------------------------------------------------------------------------- foreign keys

  lemma {:induction false} RemoveLabelsValid(db: Database, gone: set<int>)
    requires Valid(db)
    ensures Valid(RemoveLabels(db, gone))
  {
  }

  lemma {:induction false} RemoveReleasesValid(db: Database, gone: set<int>)
    requires Valid(db)
    ensures Valid(RemoveReleases(db, gone))
  {
  }

  lemma {:induction false} RemoveUserValid(db: Database, id: int)
    requires Valid(db)
    ensures Valid(RemoveUser(db, id))
  {
  }

  lemma {:induction false} InsertHistoryRows(h: Table<History>, issues: set<int>, actor: Option<int>, from: string)
    requires h.Valid()
    ensures var after := InsertHistory(h, issues, actor, from);
      && after.Valid() && after.next == h.next + |issues|
      && (forall id :: id in h.rows ==> id in after.rows && after.rows[id] == h.rows[id])
      && (forall id :: id in after.rows && id !in h.rows ==>
            && h.next <= id && after.rows[id].issueId in issues
            && after.rows[id] == History(after.rows[id].issueId, actor, EVENT_UPDATED, "assignee", from))
    decreases issues
  {
    if |issues| > 0 {
      var id := Min(issues);
      InsertHistoryRows(h.Insert(History(id, actor, EVENT_UPDATED, "assignee", from)), issues - {id}, actor, from);
    }
  }

  lemma {:induction false} DeleteUserValid(db: Database, id: int, actor: Option<int>, userName: string, now: int)
    requires Valid(db) && Db.DeleteUser(db, id, actor, userName, now).Ok?
    ensures Valid(Db.DeleteUser(db, id, actor, userName, now).value.db)
  {
    var affected := AffectedIssues(db, id);
    var before := db.(
      history := InsertHistory(db.history, affected, actor, userName + " (user deleted)"),
      issues := Unassign(db.issues, id, actor, now));
    InsertHistoryRows(db.history, affected, actor, userName + " (user deleted)");
    forall i | i in before.issues.rows ensures IssueRefs(before, before.issues.rows[i]) {
      if db.issues.rows[i].assigneeId == Some(id) {
        assert i in affected;
      }
    }
    RemoveUserValid(before, id);
  }

  lemma {:induction false} DeleteProjectValid(db: Database, id: int)
    requires Valid(db) && Db.DeleteProject(db, id).Ok?
    ensures Valid(Db.DeleteProject(db, id).value)
  {
    var labels, releases := LabelsOf(db, id), ReleasesOf(db, id);
    RemoveLabelsValid(db, labels);
    RemoveReleasesValid(RemoveLabels(db, labels), releases);
  }

  lemma {:induction false} PositionsValid(db: Database, projectId: int, updates: seq<PositionUpdate>)
    requires Valid(db) && Db.UpdateIssuePositions(db, projectId, updates).Ok?
    ensures Valid(Db.UpdateIssuePositions(db, projectId, updates).value)
    decreases |updates|
  {
    if updates != [] {
      var row := db.issues.rows[updates[0].id].(position := updates[0].position);
      PositionsValid(db.(issues := db.issues.Put(updates[0].id, row)), projectId, updates[1..]);
    }
  }

  lemma {:induction false} TaskPositionsValid(db: Database, issueId: int, updates: seq<PositionUpdate>)
    requires Valid(db) && Db.UpdateTaskPositions(db, issueId, updates).Ok?
    ensures Valid(Db.UpdateTaskPositions(db, issueId, updates).value)
    decreases |updates|
  {
    if updates != [] {
      var row := db.tasks.rows[updates[0].id].(position := updates[0].position);
      TaskPositionsValid(db.(tasks := db.tasks.Put(updates[0].id, row)), issueId, updates[1..]);
    }
  }

  predicate TouchesIssues(st: Statement) {
    st.InsertIssue? || st.UpdateIssue? || st.UpdateIssuePosition? || st.DeleteIssue? || st.ArchiveDone?
  }

  predicate TouchesTasks(st: Statement) {
    st.InsertTask? || st.UpdateTask? || st.DeleteTask? || st.InsertComment? || st.UpdateComment? || st.DeleteComment?
  }

  predicate TouchesParents(st: Statement) {
    || st.InsertProject? || st.InsertLabel? || st.InsertRelease? || st.UpdateRelease? || st.SetReleaseClosed?
    || st.InsertUser? || st.UpdateUser?
  }

  predicate TouchesSessions(st: Statement) {
    st.InsertSession? || st.UpdateSession? || st.DeleteSession? || st.DeleteSessionsByUser? || st.DeleteExpiredSessions?
  }

  lemma {:induction false} IssueStatementValid(db: Database, st: Statement)
    requires Valid(db) && TouchesIssues(st)
    ensures Valid(Exec(db, st))
  {
  }

  lemma {:induction false} TaskStatementValid(db: Database, st: Statement)
    requires Valid(db) && TouchesTasks(st)
    ensures Valid(Exec(db, st))
  {
  }

  lemma {:induction false} UserStatementValid(db: Database, st: Statement)
    requires Valid(db) && (st.InsertUser? || st.UpdateUser?)
    ensures Valid(Exec(db, st))
  {
    hide EmailFree, IsLastSysAdmin;
  }

  lemma {:induction false} ReleaseStatementValid(db: Database, st: Statement)
    requires Valid(db) && (st.InsertRelease? || st.UpdateRelease? || st.SetReleaseClosed?)
    ensures Valid(Exec(db, st))
  {
  }

  lemma {:induction false} ParentStatementValid(db: Database, st: Statement)
    requires Valid(db) && TouchesParents(st)
    ensures Valid(Exec(db, st))
  {
    if st.InsertUser? || st.UpdateUser? {
      UserStatementValid(db, st);
    } else if st.InsertProject? {
      assert Valid(Exec(db, st));
    } else if st.InsertLabel? {
      assert Valid(Exec(db, st));
    } else {
      ReleaseStatementValid(db, st);
    }
  }

  lemma {:induction false} SessionWriteValid(db: Database, st: Statement)
    requires Valid(db) && (st.InsertSession? || st.UpdateSession?)
    ensures Valid(Exec(db, st))
  {
  }

  lemma {:induction false} SessionStatementValid(db: Database, st: Statement)
    requires Valid(db) && TouchesSessions(st)
    ensures Valid(Exec(db, st))
  {
    if st.InsertSession? || st.UpdateSession? {
      SessionWriteValid(db, st);
    } else if st.DeleteSession? {
      assert Valid(Exec(db, st));
    } else {
      assert Valid(Exec(db, st));
    }
  }

  /** Every foreign key still points to a row, and every id is below its counter, after any statement. */
  lemma {:induction false} ExecValid(db: Database, st: Statement)
    requires Valid(db)
    ensures Valid(Exec(db, st))
  {
    hide Valid;
    if TouchesIssues(st) {
      IssueStatementValid(db, st);
    } else if TouchesTasks(st) {
      TaskStatementValid(db, st);
    } else if TouchesParents(st) {
      ParentStatementValid(db, st);
    } else if TouchesSessions(st) {
      SessionStatementValid(db, st);
    } else if Try(db, st).Ok? {
      match st
      case UpdateIssuePositions(projectId, updates) => PositionsValid(db, projectId, updates);
      case UpdateTaskPositions(issueId, updates) => TaskPositionsValid(db, issueId, updates);
      case DeleteProject(id) => DeleteProjectValid(db, id);
      case DeleteLabel(id, projectId) => RemoveLabelsValid(db, {id});
      case DeleteRelease(id) => RemoveReleasesValid(db, {id});
      case DeleteUser(id, actor, userName, now) => DeleteUserValid(db, id, actor, userName, now);
    }
  }

  // ------------------------------------------------------------------------------ monotone facts

  ghost predicate LabelsLater(t: Table<Label>, later: Table<Label>) {
    && t.next <= later.next
    && forall l :: l in later.rows && l < t.next ==> l in t.rows && later.rows[l].projectId == t.rows[l].projectId
  }

  ghost predicate ReleasesLater(t: Table<Release>, later: Table<Release>) {
    && t.next <= later.next
    && forall r :: r in later.rows && r < t.next ==> r in t.rows && later.rows[r].projectId == t.rows[r].projectId
  }

  ghost predicate IssuesLater(t: Table<Issue>, later: Table<Issue>) {
    t.next <= later.next && forall id :: id in later.rows && id < t.next ==> id in t.rows
  }

  /** Deleted rows never come back, and labels and releases never change their project. */
  ghost predicate Later(db: Database, after: Database) {
    LabelsLater(db.labels, after.labels) && ReleasesLater(db.releases, after.releases)
      && IssuesLater(db.issues, after.issues)
  }

  lemma {:induction false} PositionsLater(db: Database, projectId: int, updates: seq<PositionUpdate>)
    requires Db.UpdateIssuePositions(db, projectId, updates).Ok?
    ensures Later(db, Db.UpdateIssuePositions(db, projectId, updates).value)
    decreases |updates|
  {
    if updates != [] {
      var row := db.issues.rows[updates[0].id].(position := updates[0].position);
      PositionsLater(db.(issues := db.issues.Put(updates[0].id, row)), projectId, updates[1..]);
    }
  }

  lemma {:induction false} TaskPositionsKeep(db: Database, issueId: int, updates: seq<PositionUpdate>)
    requires Db.UpdateTaskPositions(db, issueId, updates).Ok?
    ensures Db.UpdateTaskPositions(db, issueId, updates).value
        == db.(tasks := Db.UpdateTaskPositions(db, issueId, updates).value.tasks)
    decreases |updates|
  {
    if updates != [] {
      var row := db.tasks.rows[updates[0].id].(position := updates[0].position);
      TaskPositionsKeep(db.(tasks := db.tasks.Put(updates[0].id, row)), issueId, updates[1..]);
    }
  }

  /** Statements on tasks, comments, sessions and the users table leave the other tables alone. */
  lemma {:induction false} OnlyTasks(db: Database, st: Statement)
    requires TouchesTasks(st) || TouchesSessions(st) || st.UpdateTaskPositions? || st.InsertUser? || st.UpdateUser?
    ensures var after := Exec(db, st);
      && after.projects == db.projects && after.labels == db.labels && after.releases == db.releases
      && after.issues == db.issues
  {
    if st.UpdateTaskPositions? && Try(db, st).Ok? {
      TaskPositionsKeep(db, st.issueId, st.updates);
    }
  }

  lemma {:induction false} IssueStatementLater(db: Database, st: Statement)
    requires TouchesIssues(st)
    ensures Later(db, Exec(db, st))
  {
    hide IssueRefs, TasksOf, CommentsOf, HistoryOf;
  }

  lemma {:induction false} ParentStatementLater(db: Database, st: Statement)
    requires TouchesParents(st)
    ensures Later(db, Exec(db, st))
  {
  }

  lemma {:induction false} ExecLater(db: Database, st: Statement)
    ensures Later(db, Exec(db, st))
  {
    if TouchesIssues(st) {
      IssueStatementLater(db, st);
    } else if TouchesParents(st) {
      ParentStatementLater(db, st);
    } else {
      hide Later, Exec, Try;
      if TouchesTasks(st) || TouchesSessions(st) || st.UpdateTaskPositions? {
        OnlyTasks(db, st);
        SameTablesLater(db, Exec(db, st));
      } else {
        TransactionLater(db, st);
      }
    }
  }

  lemma {:induction false} SameTablesLater(db: Database, after: Database)
    requires after.labels == db.labels && after.releases == db.releases && after.issues == db.issues
    ensures Later(db, after)
  {
  }

  lemma {:induction false} TransactionLater(db: Database, st: Statement)
    requires st.UpdateIssuePositions? || st.DeleteUser? || st.DeleteProject? || st.DeleteLabel? || st.DeleteRelease?
    ensures Later(db, Exec(db, st))
  {
    hide Db.DeleteUser, UnlinkIssues;
    SameTablesLater(db, db);
    match st
    case UpdateIssuePositions(projectId, updates) =>
      if Try(db, st).Ok? { PositionsLater(db, projectId, updates); }
    case DeleteUser(id, actor, userName, now) => DeleteUserLater(db, id, actor, userName, now);
    case DeleteProject(id) => RemoveLater(db, LabelsOf(db, id), ReleasesOf(db, id));
    case DeleteLabel(id, projectId) => RemoveLater(db, {id}, {});
    case DeleteRelease(id) => RemoveLater(db, {}, {id});
  }

  lemma {:induction false} RemoveLater(db: Database, labels: set<int>, releases: set<int>)
    ensures Later(db, RemoveLabels(db, labels)) && Later(db, RemoveReleases(db, releases))
    ensures Later(db, RemoveReleases(RemoveLabels(db, labels), releases))
  {
  }

  lemma {:induction false} DeleteUserLater(db: Database, id: int, actor: Option<int>, userName: string, now: int)
    ensures Later(db, Exec(db, Statement.DeleteUser(id, actor, userName, now)))
  {
  }

  // ------------------------------------------------------------------------- project consistency

  /** The label and the release of a row exist and belong to the row's project. */
  predicate Fits(db: Database, i: Issue) {
    && (i.labelId.Some? ==>
          i.labelId.value in db.labels.rows && db.labels.rows[i.labelId.value].projectId == i.projectId)
    && (i.releaseId.Some? ==>
          i.releaseId.value in db.releases.rows && db.releases.rows[i.releaseId.value].projectId == i.projectId)
  }

  ghost predicate Consistent(db: Database) {
    forall id :: id in db.issues.rows ==> Fits(db, db.issues.rows[id])
  }

  predicate LabelKnown(db: Database, projectId: int, labelId: Option<int>) {
    labelId.Some? ==>
      && labelId.value < db.labels.next
      && (labelId.value in db.labels.rows ==> db.labels.rows[labelId.value].projectId == projectId)
  }

  predicate ReleaseKnown(db: Database, projectId: int, releaseId: Option<int>) {
    releaseId.Some? ==>
      && releaseId.value < db.releases.next
      && (releaseId.value in db.releases.rows ==> db.releases.rows[releaseId.value].projectId == projectId)
  }

  /** What a check against an earlier database still guarantees: the references fit or are gone for good. */
  predicate Known(db: Database, i: Issue) {
    LabelKnown(db, i.projectId, i.labelId) && ReleaseKnown(db, i.projectId, i.releaseId)
  }

  /** Writing references that are still Known keeps the database consistent, thanks to the foreign keys. */
  lemma {:induction false} WriteConsistent(db: Database, st: Statement)
    requires Consistent(db) && (st.InsertIssue? || st.UpdateIssue?) && Known(db, st.issue)
    ensures Consistent(Exec(db, st))
  {
  }

  lemma {:induction false} PositionsConsistent(db: Database, projectId: int, updates: seq<PositionUpdate>)
    requires Consistent(db) && Db.UpdateIssuePositions(db, projectId, updates).Ok?
    ensures Consistent(Db.UpdateIssuePositions(db, projectId, updates).value)
    decreases |updates|
  {
    if updates != [] {
      var row := db.issues.rows[updates[0].id].(position := updates[0].position);
      PositionsConsistent(db.(issues := db.issues.Put(updates[0].id, row)), projectId, updates[1..]);
    }
  }

  lemma {:induction false} RemoveConsistent(db: Database, labels: set<int>, releases: set<int>)
    requires Consistent(db)
    ensures Consistent(RemoveLabels(db, labels)) && Consistent(RemoveReleases(db, releases))
  {
  }

  lemma {:induction false} DeleteUserConsistent(db: Database, id: int, actor: Option<int>, userName: string, now: int)
    requires Consistent(db)
    ensures Consistent(Exec(db, Statement.DeleteUser(id, actor, userName, now)))
  {
    hide InsertHistory, IsLastSysAdmin, TablesValid, RefsValid;
  }

  lemma {:induction false} SameTablesConsistent(db: Database, after: Database)
    requires Consistent(db) && after.labels == db.labels && after.releases == db.releases && after.issues == db.issues
    ensures Consistent(after)
  {
  }

  lemma {:induction false} SimpleConsistent(db: Database, st: Statement)
    requires Valid(db) && Consistent(db) && (TouchesIssues(st) || TouchesParents(st)) && !st.InsertIssue?
        && !st.UpdateIssue?
    ensures Consistent(Exec(db, st))
  {
    hide TasksOf, CommentsOf, HistoryOf, RefsValid;
  }

  lemma {:induction false} TransactionConsistent(db: Database, st: Statement)
    requires Consistent(db)
    requires st.UpdateIssuePositions? || st.DeleteUser? || st.DeleteProject? || st.DeleteLabel? || st.DeleteRelease?
    ensures Consistent(Exec(db, st))
  {
    hide Db.DeleteUser, UnlinkIssues;
    match st
    case UpdateIssuePositions(projectId, updates) =>
      if Try(db, st).Ok? { PositionsConsistent(db, projectId, updates); }
    case DeleteUser(id, actor, userName, now) => DeleteUserConsistent(db, id, actor, userName, now);
    case DeleteProject(id) =>
      RemoveConsistent(db, LabelsOf(db, id), {});
      RemoveConsistent(RemoveLabels(db, LabelsOf(db, id)), {}, ReleasesOf(db, id));
    case DeleteLabel(id, projectId) => RemoveConsistent(db, {id}, {});
    case DeleteRelease(id) => RemoveConsistent(db, {}, {id});
  }

  /** No other statement can break the consistency. */
  lemma {:induction false} OthersConsistent(db: Database, st: Statement)
    requires Valid(db) && Consistent(db) && !st.InsertIssue? && !st.UpdateIssue?
    ensures Consistent(Exec(db, st))
  {
    hide Consistent, Valid, Exec, Try;
    if TouchesIssues(st) || TouchesParents(st) {
      SimpleConsistent(db, st);
    } else if TouchesTasks(st) || TouchesSessions(st) || st.UpdateTaskPositions? {
      OnlyTasks(db, st);
      SameTablesConsistent(db, Exec(db, st));
    } else {
      TransactionConsistent(db, st);
    }
  }

  // ---------------------------------------------------------------------------------- sysadmins

  ghost predicate HasSysAdmin(db: Database) {
    exists id :: id in db.users.rows && IsActiveSysAdmin(db.users.rows[id])
  }

  lemma {:induction false} AnotherSysAdmin(db: Database, id: int)
    requires HasSysAdmin(db) && !IsLastSysAdmin(db, id)
    ensures exists other :: other != id && other in db.users.rows && IsActiveSysAdmin(db.users.rows[other])
  {
    var admins := ActiveSysAdmins(db);
    if id in admins {
      assert |admins - {id}| > 0;
      var other := SomeElement(admins - {id});
    }
  }

  predicate TouchesUsers(st: Statement) {
    st.InsertUser? || st.UpdateUser? || st.DeleteUser?
  }

  lemma {:induction false} OtherStatementsKeepUsers(db: Database, st: Statement)
    requires !TouchesUsers(st)
    ensures Exec(db, st).users == db.users
  {
    if st.UpdateIssuePositions? && Try(db, st).Ok? {
      PositionsKeepUsers(db, st.projectId, st.updates);
    }
    if st.UpdateTaskPositions? && Try(db, st).Ok? {
      TaskPositionsKeep(db, st.issueId, st.updates);
    }
  }

  lemma {:induction false} InsertUserKeepsSysAdmin(db: Database, u: User, admin: int)
    requires db.users.Valid() && admin in db.users.rows && IsActiveSysAdmin(db.users.rows[admin])
    ensures HasSysAdmin(Exec(db, Statement.InsertUser(u)))
  {
    assert admin in Exec(db, Statement.InsertUser(u)).users.rows;
  }

  lemma {:induction false} UpdateUserKeepsSysAdmin(db: Database, id: int, u: User)
    requires HasSysAdmin(db)
    ensures HasSysAdmin(Exec(db, Statement.UpdateUser(id, u)))
  {
    if Db.UpdateUser(db, id, u).Ok? {
      var after := Exec(db, Statement.UpdateUser(id, u));
      if IsActiveSysAdmin(u) {
        assert id in after.users.rows;
      } else {
        AnotherSysAdmin(db, id);
        var other :| other != id && other in db.users.rows && IsActiveSysAdmin(db.users.rows[other]);
        assert other in after.users.rows;
      }
    }
  }

  lemma {:induction false} DeleteUserKeepsSysAdmin(db: Database, id: int, actor: Option<int>, userName: string,
      now: int)
    requires HasSysAdmin(db)
    ensures HasSysAdmin(Exec(db, Statement.DeleteUser(id, actor, userName, now)))
  {
    hide InsertHistory, Unassign, UnlinkIssues;
    if Db.DeleteUser(db, id, actor, userName, now).Ok? {
      AnotherSysAdmin(db, id);
      var other :| other != id && other in db.users.rows && IsActiveSysAdmin(db.users.rows[other]);
      assert other in Exec(db, Statement.DeleteUser(id, actor, userName, now)).users.rows;
    }
  }

  /** The guard inside the statements: no statement takes the last active sysadmin away. */
  lemma {:induction false} ExecKeepsSysAdmin(db: Database, st: Statement)
    requires Valid(db) && HasSysAdmin(db)
    ensures HasSysAdmin(Exec(db, st))
  {
    hide Exec;
    match st
    case UpdateUser(id, u) => UpdateUserKeepsSysAdmin(db, id, u);
    case DeleteUser(id, actor, userName, now) => DeleteUserKeepsSysAdmin(db, id, actor, userName, now);
    case InsertUser(u) =>
      var admin :| admin in db.users.rows && IsActiveSysAdmin(db.users.rows[admin]);
      InsertUserKeepsSysAdmin(db, u, admin);
    case _ => OtherStatementsKeepUsers(db, st);
  }

  lemma {:induction false} PositionsKeepUsers(db: Database, projectId: int, updates: seq<PositionUpdate>)
    requires Db.UpdateIssuePositions(db, projectId, updates).Ok?
    ensures Db.UpdateIssuePositions(db, projectId, updates).value
            == db.(issues := Db.UpdateIssuePositions(db, projectId, updates).value.issues)
    decreases |updates|
  {
    if updates != [] {
      var row := db.issues.rows[updates[0].id].(position := updates[0].position);
      PositionsKeepUsers(db.(issues := db.issues.Put(updates[0].id, row)), projectId, updates[1..]);
    }
  }
}
