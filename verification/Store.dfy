/**
 * backend/db.go as an object: its tables are fields, each write function is a method that changes
 * them in place, and the transactions roll back. Every method does what the statement it names in
 * its ensures does to the database, or fails like it.
 */
module Store {
  import opened Common
  import opened Model
  import opened Db
  import opened Checks

  class DB {
    var projects: Table<()>
    var labels: Table<Label>
    var releases: Table<Release>
    var issues: Table<Issue>
    var tasks: Table<Task>
    var comments: Table<Comment>
    var history: Table<History>
    var users: Table<User>
    var sessions: Table<Session>

    constructor (db: Database)
      ensures View() == db
    {
      projects, labels, releases, issues, tasks := db.projects, db.labels, db.releases, db.issues, db.tasks;
      comments, history, users, sessions := db.comments, db.history, db.users, db.sessions;
    }

    function View(): Database
      reads this
    {
      Database(projects, labels, releases, issues, tasks, comments, history, users, sessions)
    }

    /** ROLLBACK. */
    method Rollback(db: Database)
      modifies this
      ensures View() == db
    {
      projects, labels, releases, issues, tasks := db.projects, db.labels, db.releases, db.issues, db.tasks;
      comments, history, users, sessions := db.comments, db.history, db.users, db.sessions;
    }

    /** How a method that models a statement ends: its new database, or its error and no change. */
    predicate Ends(begun: Database, error: Option<DbError>, outcome: Outcome)
      reads this
    {
      match outcome
      case Ok(after) => error.None? && View() == after
      case Err(e) => error == Some(e) && View() == begun
    }

    // ---------------------------------------------------------------------------------- issues

    method CreateIssue(i: Issue, now: int) returns (error: Option<DbError>, id: int)
      modifies this
      ensures Ends(old(View()), error, Db.InsertIssue(old(View()), NewRow(old(View()), i, now)))
      ensures id == old(issues).next
    {
      id, error := issues.next, None;
      var row := i;
      if row.priority == "" {
        row := row.(priority := PRIORITY_NORMAL);
      }
      var sameStatus := set k | k in issues.rows && issues.rows[k].status == i.status :: issues.rows[k].position;
      row := row.(position := EndPosition(sameStatus), updatedAt := now);
      if !IssueRefs(View(), row) {
        error := Some(ForeignKey);
        return;
      }
      issues := Table(issues.rows[id := row], id + 1);
    }

    method UpdateIssue(id: int, i: Issue) returns (error: Option<DbError>)
      modifies this
      ensures Ends(old(View()), error, Db.UpdateIssue(old(View()), id, i))
    {
      if id !in issues.rows {
        return Some(NotFound);
      }
      var row := i.(creatorId := issues.rows[id].creatorId);
      if !IssueRefs(View(), row) {
        return Some(ForeignKey);
      }
      issues := issues.(rows := issues.rows[id := row]);
      error := None;
    }

    method UpdateIssuePosition(id: int, position: int) returns (error: Option<DbError>)
      modifies this
      ensures Ends(old(View()), error, Db.UpdateIssuePosition(old(View()), id, position))
    {
      if id !in issues.rows {
        return Some(NotFound);
      }
      issues := issues.(rows := issues.rows[id := issues.rows[id].(position := position)]);
      error := None;
    }

    /** applyPositionUpdates: one statement per update, and a rollback when one matches no row. */
    method UpdateIssuePositions(projectId: int, updates: seq<PositionUpdate>) returns (error: Option<DbError>)
      modifies this
      ensures Ends(old(View()), error, Db.UpdateIssuePositions(old(View()), projectId, updates))
    {
      var begun := View();
      for k := 0 to |updates|
        invariant Db.UpdateIssuePositions(begun, projectId, updates)
            == Db.UpdateIssuePositions(View(), projectId, updates[k..])
      {
        var u := updates[k];
        assert updates[k..][0] == u && updates[k..][1..] == updates[k + 1..];
        if !Reorderable(View(), projectId, u.id) {
          Rollback(begun);
          return Some(NotFound);
        }
        issues := issues.(rows := issues.rows[u.id := issues.rows[u.id].(position := u.position)]);
      }
      error := None;
    }

    /** ON DELETE CASCADE takes tasks, comments and history along. */
    method DeleteIssue(id: int) returns (error: Option<DbError>)
      modifies this
      ensures Ends(old(View()), error, Db.DeleteIssue(old(View()), id))
    {
      if id !in issues.rows {
        return Some(NotFound);
      }
      var gone := View();
      issues := issues.Without({id});
      tasks := tasks.Without(TasksOf(gone, id).Keys);
      comments := comments.Without(CommentsOf(gone, id).Keys);
      history := history.Without(HistoryOf(gone, id).Keys);
      error := None;
    }

    // ----------------------------------------------------------------------- tasks and comments

    method UpdateTask(issueId: int, id: int, t: Task) returns (error: Option<DbError>)
      modifies this
      ensures Ends(old(View()), error, Db.UpdateTask(old(View()), issueId, id, t))
    {
      if !IsTask(View(), issueId, id) {
        return Some(NotFound);
      }
      tasks := tasks.(rows := tasks.rows[id := t.(issueId := issueId)]);
      error := None;
    }

    method UpdateTaskPositions(issueId: int, updates: seq<PositionUpdate>) returns (error: Option<DbError>)
      modifies this
      ensures Ends(old(View()), error, Db.UpdateTaskPositions(old(View()), issueId, updates))
    {
      var begun := View();
      for k := 0 to |updates|
        invariant Db.UpdateTaskPositions(begun, issueId, updates)
            == Db.UpdateTaskPositions(View(), issueId, updates[k..])
      {
        var u := updates[k];
        assert updates[k..][0] == u && updates[k..][1..] == updates[k + 1..];
        if !IsTask(View(), issueId, u.id) {
          Rollback(begun);
          return Some(NotFound);
        }
        tasks := tasks.(rows := tasks.rows[u.id := tasks.rows[u.id].(position := u.position)]);
      }
      error := None;
    }

    method UpdateComment(issueId: int, id: int, author: Option<int>, body: string) returns (error: Option<DbError>)
      modifies this
      ensures Ends(old(View()), error, Db.UpdateComment(old(View()), issueId, id, author, body))
    {
      if !IsComment(View(), issueId, id, author) {
        return Some(NotFound);
      }
      comments := comments.(rows := comments.rows[id := comments.rows[id].(body := body, edited := true)]);
      error := None;
    }

    // ------------------------------------------------------------ projects, labels and releases

    /** ON DELETE SET NULL clears the label of its issues. */
    method DeleteLabel(id: int, projectId: int) returns (error: Option<DbError>)
      modifies this
      ensures Ends(old(View()), error, Db.DeleteLabel(old(View()), id, projectId))
    {
      if id !in labels.rows || labels.rows[id].projectId != projectId {
        return Some(NotFound);
      }
      labels := labels.Without({id});
      issues := UnlinkIssues(issues, {id}, {}, {});
      error := None;
    }

    method DeleteRelease(id: int) returns (error: Option<DbError>)
      modifies this
      ensures Ends(old(View()), error, Db.DeleteRelease(old(View()), id))
    {
      if id !in releases.rows {
        return Some(NotFound);
      }
      releases := releases.Without({id});
      issues := UnlinkIssues(issues, {}, {id}, {});
      error := None;
    }

    /** Two statements without a transaction: the second only runs if the first closed the release. */
    method TriggerRelease(id: int, archiveDone: bool, now: int) returns (error: Option<DbError>)
      modifies this
      ensures Ends(old(View()), error, Db.TriggerRelease(old(View()), id, archiveDone, now))
    {
      if id !in releases.rows || releases.rows[id].closed {
        return Some(NotFound);
      }
      releases := releases.(rows := releases.rows[id := releases.rows[id].(closed := true)]);
      if archiveDone {
        issues := issues.(rows := map i | i in issues.rows ::
          var row := issues.rows[i];
          if row.releaseId == Some(id) && row.status == STATUS_DONE
            then row.(status := STATUS_ARCHIVE, updatedAt := now) else row);
        assert View() == ArchiveDone(old(View()).(releases := releases), id, now);
      }
      error := None;
    }

    // ------------------------------------------------------------------------------------ users

    method UpdateUser(id: int, u: User) returns (error: Option<DbError>)
      modifies this
      ensures Ends(old(View()), error, Db.UpdateUser(old(View()), id, u))
    {
      if id !in users.rows {
        return Some(NotFound);
      }
      if !IsActiveSysAdmin(u) && IsLastSysAdmin(View(), id) {
        return Some(LastSysAdmin);
      }
      if !EmailFree(View(), u.email, id) {
        return Some(DuplicateEmail);
      }
      users := users.(rows := users.rows[id := u]);
      error := None;
    }

    /** DELETE FROM users, with ON DELETE SET NULL and, for sessions, CASCADE. */
    method RemoveUserRow(id: int)
      modifies this
      ensures View() == RemoveUser(old(View()), id)
    {
      var gone := {id};
      users := users.Without(gone);
      issues := UnlinkIssues(issues, {}, {}, gone);
      releases := releases.(rows := map r | r in releases.rows ::
        releases.rows[r].(ownerId := Unlink(releases.rows[r].ownerId, gone)));
      comments := comments.(rows := map c | c in comments.rows ::
        comments.rows[c].(userId := Unlink(comments.rows[c].userId, gone)));
      history := history.(rows := map h | h in history.rows ::
        history.rows[h].(userId := Unlink(history.rows[h].userId, gone)));
      sessions := sessions.Without(set s | s in sessions.rows && sessions.rows[s].userId == id);
    }

    /** The transaction of DeleteUser: history and issues first, undone if the user may not go. */
    method DeleteUser(id: int, actor: Option<int>, userName: string, now: int)
        returns (error: Option<DbError>, unassigned: nat)
      modifies this
      ensures match Db.DeleteUser(old(View()), id, actor, userName, now)
        case Ok(d) => error.None? && unassigned == d.unassigned && View() == d.db
        case Err(e) => error == Some(e) && unassigned == 0 && View() == old(View())
    {
      hide InsertHistory, Unassign, RemoveUser;
      var begun := View();
      var affected := AffectedIssues(begun, id);
      unassigned := 0;
      if affected != {} && !Exists(users, actor) {
        error := Some(ForeignKey);
        return;
      }
      history := InsertHistory(history, affected, actor, userName + " (user deleted)");
      issues := Unassign(issues, id, actor, now);
      if id !in users.rows || IsLastSysAdmin(View(), id) {
        error := Some(if id in users.rows then LastSysAdmin else NotFound);
        Rollback(begun);
        return;
      }
      unassigned := |affected|;
      RemoveUserRow(id);
      error := None;
    }

    // --------------------------------------------------------------------------------- sessions

    method CreateSession(s: Session) returns (error: Option<DbError>)
      modifies this
      ensures Ends(old(View()), error, Db.InsertSession(old(View()), s))
    {
      if s.userId !in users.rows {
        return Some(ForeignKey);
      }
      sessions := Table(sessions.rows[sessions.next := s], sessions.next + 1);
      error := None;
    }

    method UpdateSession(id: int, tokenHash: Mac, expiresAt: int) returns (error: Option<DbError>)
      modifies this
      ensures Ends(old(View()), error, Db.UpdateSession(old(View()), id, tokenHash, expiresAt))
    {
      if id !in sessions.rows {
        return Some(NotFound);
      }
      sessions := sessions.(rows :=
        sessions.rows[id := sessions.rows[id].(tokenHash := tokenHash, expiresAt := expiresAt)]);
      error := None;
    }

    method DeleteSession(id: int) returns (error: Option<DbError>)
      modifies this
      ensures Ends(old(View()), error, Db.DeleteSession(old(View()), id))
    {
      if id !in sessions.rows {
        return Some(NotFound);
      }
      sessions := sessions.Without({id});
      error := None;
    }

    method DeleteSessionsByUserID(userId: int)
      modifies this
      ensures View() == Db.DeleteSessionsByUser(old(View()), userId)
    {
      sessions := sessions.Without(SessionsOf(View(), userId));
    }
  }
}
