/** DeleteUser of backend/db.go: one transaction that unassigns, records and deletes. */
module UserDeletion {
  import opened Common
  import opened Model
  import opened Db
  import opened Integrity

  /** The history rows of an issue that are in after but not in before. */
  function NewEntries(before: Table<History>, after: Table<History>, issueId: int): set<int> {
    set h | h in after.rows && h !in before.rows && after.rows[h].issueId == issueId
  }

  /** INSERT ... SELECT adds exactly one row for each selected issue. */
  lemma {:induction false} OneEntryEach(h: Table<History>, issues: set<int>, actor: Option<int>, from: string,
      issueId: int)
    requires h.Valid()
    ensures |NewEntries(h, InsertHistory(h, issues, actor, from), issueId)| == if issueId in issues then 1 else 0
    decreases issues
  {
    var after := InsertHistory(h, issues, actor, from);
    if |issues| == 0 {
      assert NewEntries(h, after, issueId) == {};
    } else {
      var id := Min(issues);
      var row := History(id, actor, EVENT_UPDATED, "assignee", from);
      var mid := h.Insert(row);
      OneEntryEach(mid, issues - {id}, actor, from, issueId);
      InsertHistoryRows(mid, issues - {id}, actor, from);
      var rest := NewEntries(mid, after, issueId);
      assert h.next in after.rows && after.rows[h.next] == row;
      assert NewEntries(h, after, issueId) == rest + if id == issueId then {h.next} else {};
    }
  }

  /** No row refers to the user any more. */
  ghost predicate Unreferenced(db: Database, id: int) {
    && id !in db.users.rows
    && (forall i :: i in db.issues.rows ==>
          db.issues.rows[i].creatorId != Some(id) && db.issues.rows[i].assigneeId != Some(id)
            && db.issues.rows[i].updaterId != Some(id))
    && (forall r :: r in db.releases.rows ==> db.releases.rows[r].ownerId != Some(id))
    && (forall c :: c in db.comments.rows ==> db.comments.rows[c].userId != Some(id))
    && (forall h :: h in db.history.rows ==> db.history.rows[h].userId != Some(id))
    && (forall s :: s in db.sessions.rows ==> db.sessions.rows[s].userId != id)
  }

  /** An issue after the deletion: unassigned and stamped if it was the user's, else without the user at most. */
  predicate IssueReleased(a: Issue, b: Issue, id: int, actor: Option<int>, now: int) {
    b == if a.assigneeId == Some(id)
      then a.(assigneeId := None, creatorId := Unlink(a.creatorId, {id}), updaterId := Unlink(actor, {id}),
        updatedAt := now)
      else a.(creatorId := Unlink(a.creatorId, {id}), updaterId := Unlink(a.updaterId, {id}))
  }

  lemma {:induction false} DeletionReleasesIssues(db: Database, id: int, actor: Option<int>, userName: string, now: int)
    requires Db.DeleteUser(db, id, actor, userName, now).Ok?
    ensures var after := Db.DeleteUser(db, id, actor, userName, now).value.db;
      && after.issues.rows.Keys == db.issues.rows.Keys
      && (forall i :: i in db.issues.rows ==> IssueReleased(db.issues.rows[i], after.issues.rows[i], id, actor, now))
  {
    hide InsertHistory;
  }

  lemma {:induction false} DeletionUnreferenced(db: Database, id: int, actor: Option<int>, userName: string, now: int)
    requires Db.DeleteUser(db, id, actor, userName, now).Ok?
    ensures Unreferenced(Db.DeleteUser(db, id, actor, userName, now).value.db, id)
  {
    hide InsertHistory;
  }

  function Without(userId: Option<int>, id: int): Option<int> {
    if userId == Some(id) then None else userId
  }

  /** The user's sessions end, and no other; releases, comments and earlier history stay, at most without the user. */
  ghost predicate OthersKept(db: Database, after: Database, id: int) {
    && after.sessions.rows == (map s | s in db.sessions.rows && db.sessions.rows[s].userId != id :: db.sessions.rows[s])
    && after.releases.rows == (map r | r in db.releases.rows ::
         db.releases.rows[r].(ownerId := Without(db.releases.rows[r].ownerId, id)))
    && after.comments.rows == (map c | c in db.comments.rows ::
         db.comments.rows[c].(userId := Without(db.comments.rows[c].userId, id)))
    && forall h :: h in db.history.rows ==>
         h in after.history.rows
         && after.history.rows[h] == db.history.rows[h].(userId := Without(db.history.rows[h].userId, id))
  }

  lemma {:induction false} RemovalKeepsOthers(db: Database, id: int)
    ensures OthersKept(db, RemoveUser(db, id), id)
  {
    hide UnlinkIssues;
    var after := RemoveUser(db, id);
    assert forall userId :: Unlink(userId, {id}) == Without(userId, id);
    hide Unlink;
    assert after.sessions.rows
        == map s | s in db.sessions.rows && db.sessions.rows[s].userId != id :: db.sessions.rows[s];
    assert after.releases.rows
        == map r | r in db.releases.rows :: db.releases.rows[r].(ownerId := Without(db.releases.rows[r].ownerId, id));
    assert after.comments.rows
        == map c | c in db.comments.rows :: db.comments.rows[c].(userId := Without(db.comments.rows[c].userId, id));
  }

  lemma {:induction false} DeletionKeepsOthers(db: Database, id: int, actor: Option<int>, userName: string, now: int)
    requires Valid(db) && Db.DeleteUser(db, id, actor, userName, now).Ok?
    ensures OthersKept(db, Db.DeleteUser(db, id, actor, userName, now).value.db, id)
  {
    var affected, from := AffectedIssues(db, id), userName + " (user deleted)";
    InsertHistoryRows(db.history, affected, actor, from);
    hide InsertHistory, Unassign, UnlinkIssues, RemoveUser;
    RemovalKeepsOthers(db.(history := InsertHistory(db.history, affected, actor, from),
                           issues := Unassign(db.issues, id, actor, now)), id);
  }

  /** Deleting the user keeps every history row's id and issue, so it adds what the INSERT added. */
  lemma {:induction false} DeletionEntries(db: Database, id: int, actor: Option<int>, userName: string, now: int,
      issueId: int)
    requires Valid(db) && Db.DeleteUser(db, id, actor, userName, now).Ok?
    ensures var after := Db.DeleteUser(db, id, actor, userName, now).value.db;
            var entries := NewEntries(db.history, after.history, issueId);
      && |entries| == (if issueId in AffectedIssues(db, id) then 1 else 0)
      && (forall h :: h in entries ==>
            after.history.rows[h] == History(issueId, Unlink(actor, {id}), EVENT_UPDATED, "assignee",
              userName + " (user deleted)"))
  {
    var affected, from := AffectedIssues(db, id), userName + " (user deleted)";
    OneEntryEach(db.history, affected, actor, from, issueId);
    InsertHistoryRows(db.history, affected, actor, from);
    var after := Db.DeleteUser(db, id, actor, userName, now).value.db;
    assert NewEntries(db.history, after.history, issueId)
           == NewEntries(db.history, InsertHistory(db.history, affected, actor, from), issueId);
  }

  /**
   * All or nothing: the deletion fails, without a change, exactly for a user that does not exist, the
   * last active sysadmin, or an actor that is gone when there is something to record. Otherwise
   * every issue of the user has one new history entry, no other issue has any, the count is the
   * number of those issues, nothing refers to the user, and nothing else changes.
   */
  lemma {:induction false} DeleteUserExact(db: Database, id: int, actor: Option<int>, userName: string, now: int)
    requires Valid(db)
    ensures var result := Db.DeleteUser(db, id, actor, userName, now);
            var after := Exec(db, Statement.DeleteUser(id, actor, userName, now));
            var affected := AffectedIssues(db, id);
      && (result.Err? <==>
            id !in db.users.rows || IsLastSysAdmin(db, id) || (affected != {} && !Exists(db.users, actor)))
      && (result.Err? ==> after == db)
      && (result.Ok? ==>
            && result.value.unassigned == |affected| && Valid(after) && Unreferenced(after, id)
            && after.users.rows == db.users.rows - {id}
            && after.issues.rows.Keys == db.issues.rows.Keys
            && (forall i :: i in db.issues.rows ==>
                  IssueReleased(db.issues.rows[i], after.issues.rows[i], id, actor, now))
            && (forall i :: |NewEntries(db.history, after.history, i)| == if i in affected then 1 else 0)
            && OthersKept(db, after, id)
            && after.tasks == db.tasks && after.labels == db.labels && after.projects == db.projects)
  {
    var result := Db.DeleteUser(db, id, actor, userName, now);
    var affected := AffectedIssues(db, id);
    if result.Ok? {
      var after := result.value.db;
      DeleteUserValid(db, id, actor, userName, now);
      DeletionUnreferenced(db, id, actor, userName, now);
      DeletionReleasesIssues(db, id, actor, userName, now);
      DeletionKeepsOthers(db, id, actor, userName, now);
      forall i ensures |NewEntries(db.history, after.history, i)| == if i in affected then 1 else 0 {
        DeletionEntries(db, id, actor, userName, now, i);
      }
    }
    hide Valid, Unreferenced, IssueReleased, NewEntries, InsertHistory, OthersKept;
  }
}
