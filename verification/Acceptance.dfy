/**
 * When the server accepts a request and what it then writes, in terms of the tables and the body
 * alone.
 */
module Acceptance {
  import opened Common
  import opened Model
  import opened Db
  import opened Integrity
  import opened Checks
  import opened Handlers
  import opened PutIssue
  import opened Text
  import Positions
  import Reorder
  import Sanitize

  // ------------------------------------------------------------------------------------ issues

  /** Nobody, an active user, or the user the issue has already, who may have been deactivated since. */
  predicate MayBeAssigned(db: Database, assignee: Option<int>, before: Option<int>) {
    assignee.None? || (assignee.value in db.users.rows && (db.users.rows[assignee.value].active || assignee == before))
  }

  predicate LabelOf(db: Database, labelId: Option<int>, projectId: int) {
    labelId.None? || (labelId.value in db.labels.rows && db.labels.rows[labelId.value].projectId == projectId)
  }

  predicate ReleaseOf(db: Database, releaseId: Option<int>, projectId: int) {
    releaseId.None? || (releaseId.value in db.releases.rows && db.releases.rows[releaseId.value].projectId == projectId)
  }

  predicate IssueOf(db: Database, projectId: int, id: int) {
    projectId in db.projects.rows && id in db.issues.rows && db.issues.rows[id].projectId == projectId
  }

  /** The tag of a PUT, if it has one, names the stamp of the row. */
  predicate TagCurrent(ifMatch: Option<ETag>, row: Issue) {
    ifMatch.None? || ifMatch.value.stamp == Some(row.updatedAt)
  }

  ghost predicate PutAcceptable(db: Database, req: Request)
    requires req.PutIssue?
  {
    && IssueOf(db, req.projectId, req.id) && TagCurrent(req.ifMatch, db.issues.rows[req.id])
    && db.issues.rows[req.id].status != "Archive" && req.body.status != "Archive" && Acceptable(req.body)
    && MayBeAssigned(db, req.body.assigneeId, db.issues.rows[req.id].assigneeId)
    && LabelOf(db, req.body.labelId, req.projectId) && ReleaseOf(db, req.body.releaseId, req.projectId)
  }

  lemma {:induction false} PutAllowedExactly(db: Database, req: Request)
    requires req.PutIssue?
    ensures PutAllowed(db, req) <==> PutAcceptable(db, req)
  {
    ValidateIssueExactly(req.body);
    hide ValidateIssue, Acceptable;
  }

  /**
   * A PUT with an actor that exists is accepted exactly if it is acceptable: an inactive assignee only
   * if the issue has it already. What is stored has the assignee, label and release that were sent.
   */
  lemma {:induction false} PutAcceptedExactly(db: Database, req: Request, now: int)
    requires Valid(db) && Stored(db) && req.PutIssue? && Decodable(req.body) && req.userId in db.users.rows
    ensures var (after, status) := Handle(db, req, now);
      && (status == 200 <==> PutAcceptable(db, req))
      && (status == 404 <==> !IssueOf(db, req.projectId, req.id))
      && (status == 409 <==> IssueOf(db, req.projectId, req.id) && !TagCurrent(req.ifMatch, db.issues.rows[req.id]))
      && (status == 200 ==>
            && req.id in after.issues.rows
            && var row := after.issues.rows[req.id];
               && row.assigneeId == req.body.assigneeId && row.labelId == req.body.labelId
               && row.releaseId == req.body.releaseId && row.status == req.body.status
               && row.priority == req.body.priority
               && row.position == req.body.position
               && MayBeAssigned(db, row.assigneeId, db.issues.rows[req.id].assigneeId))
  {
    PutExact(db, req, now);
    PutAllowedExactly(db, req);
    PutNotFound(db, req, now);
    hide Handle, PutAllowed, Valid, Stored, Acceptable;
  }

  lemma {:induction false} PutNotFound(db: Database, req: Request, now: int)
    requires req.PutIssue?
    ensures Handle(db, req, now).1 == 404 <==> !IssueOf(db, req.projectId, req.id)
  {
    hide ValidateIssue, AssigneePasses, LabelPasses, ReleasePasses, Persist, PutRow;
    if IssueOf(db, req.projectId, req.id) && Decide(db, req, now).Execute? {
      var current := db.issues.rows[req.id];
      var i := PutRow(ValidateIssue(req.body).value, current, req.projectId, req.userId);
      PersistStatus(db, req.id, i, current, now);
    }
  }

  /** A POST is accepted exactly for an actor and a project that exist and such a body; nobody is assigned yet. */
  lemma {:induction false} CreateAcceptedExactly(db: Database, projectId: int, userId: int, body: Issue, now: int)
    requires Valid(db)
    ensures var (after, status) := Handle(db, CreateIssue(projectId, userId, body), now);
      && (status == 200 <==>
            && projectId in db.projects.rows && userId in db.users.rows && Acceptable(body)
            && MayBeAssigned(db, body.assigneeId, None) && LabelOf(db, body.labelId, projectId)
            && ReleaseOf(db, body.releaseId, projectId))
      && (status == 200 ==>
            && db.issues.next in after.issues.rows
            && var row := after.issues.rows[db.issues.next];
               && row.assigneeId == body.assigneeId && row.labelId == body.labelId && row.releaseId == body.releaseId
               && row.status == body.status && row.projectId == projectId
               && (row.assigneeId.Some? ==> db.users.rows[row.assigneeId.value].active))
  {
    CreateExact(db, projectId, userId, body, now);
    ValidateIssueExactly(body);
    hide Handle, Valid, Acceptable, ValidateIssue;
  }

  // ------------------------------------------------------------------------- tasks and comments

  predicate OpenIssueOf(db: Database, projectId: int, id: int) {
    IssueOf(db, projectId, id) && db.issues.rows[id].status != "Archive"
  }

  ghost predicate AcceptableTask(t: Task) {
    && (exists k :: Sanitize.Outside(TrimSpace(Sanitize.RemoveNul(t.title)), k))
    && |Sanitize.SanitizeString(t.title)| <= 100 && t.position >= 0
    && (t.deadline.Some? ==> 2000 <= t.deadline.value.year <= 2100)
  }

  lemma {:induction false} ValidateTaskExactly(t: Task)
    ensures ValidateTask(t).Some? <==> AcceptableTask(t)
    ensures ValidateTask(t).Some? ==> ValidateTask(t).value == t.(title := Sanitize.SanitizeString(t.title))
  {
    var text := TrimSpace(Sanitize.RemoveNul(t.title));
    var picks := Sanitize.StripTagsKeeps(text);
    assert (exists k :: Sanitize.Outside(text, k)) <==> picks != [] by {
      if picks != [] {
        assert picks[0] in picks;
      }
    }
  }

  lemma {:induction false} PerformChild(db: Database, st: Statement)
    ensures Perform(db, [st])
        == (if Try(db, st).Ok? then (Try(db, st).value, 200) else (db, ErrorStatus(Try(db, st).error)))
  {
    PerformOne(db, st);
  }

  /** A new task of an issue that is not archived, with a title that is cleaned. */
  lemma {:induction false} CreateTaskExact(db: Database, projectId: int, issueId: int, task: Task, now: int)
    ensures var (after, status) := Handle(db, CreateTask(projectId, issueId, task), now);
      && (status == 200 <==> OpenIssueOf(db, projectId, issueId) && AcceptableTask(task))
      && after == if status != 200 then db
                  else db.(tasks := Table(db.tasks.rows[db.tasks.next :=
                    Task(issueId, Sanitize.SanitizeString(task.title),
                                                          task.done, task.position, task.deadline)], db.tasks.next + 1))
  {
    ValidateTaskExactly(task);
    hide ValidateTask, AcceptableTask;
    if ValidateTask(task).Some? {
      PerformChild(db, InsertTask(ValidateTask(task).value.(issueId := issueId)));
    }
  }

  /** The task is replaced as a whole, under its own issue. */
  lemma {:induction false} PutTaskExact(db: Database, projectId: int, issueId: int, id: int, task: Task, now: int)
    ensures var (after, status) := Handle(db, PutTask(projectId, issueId, id, task), now);
      && (status == 200 <==>
            && OpenIssueOf(db, projectId, issueId) && AcceptableTask(task)
            && id in db.tasks.rows && db.tasks.rows[id].issueId == issueId)
      && after == if status != 200 then db
                  else db.(tasks := db.tasks.(rows :=
                    db.tasks.rows[id := Task(issueId, Sanitize.SanitizeString(task.title),
                                                          task.done, task.position, task.deadline)]))
  {
    ValidateTaskExactly(task);
    hide ValidateTask, AcceptableTask;
    if ValidateTask(task).Some? {
      PerformChild(db, UpdateTask(issueId, id, ValidateTask(task).value));
    }
  }

  lemma {:induction false} DeleteTaskExact(db: Database, projectId: int, issueId: int, id: int, now: int)
    ensures var (after, status) := Handle(db, Request.DeleteTask(projectId, issueId, id), now);
      && (status == 200 <==>
            OpenIssueOf(db, projectId, issueId) && id in db.tasks.rows && db.tasks.rows[id].issueId == issueId)
      && after == if status != 200 then db else db.(tasks := db.tasks.(rows := db.tasks.rows - {id}))
  {
    PerformChild(db, Statement.DeleteTask(issueId, id));
  }

  predicate AcceptableComment(text: string) {
    0 < |Sanitize.CleanDescription(text)| <= 1000
  }

  lemma {:induction false} CreateCommentExact(db: Database, projectId: int, issueId: int, userId: int, text: string,
      now: int)
    ensures var (after, status) := Handle(db, CreateComment(projectId, issueId, userId, text), now);
      && (status == 200 <==> OpenIssueOf(db, projectId, issueId) && AcceptableComment(text) && userId in db.users.rows)
      && after == if status != 200 then db
                  else db.(comments := Table(db.comments.rows[db.comments.next := Comment(issueId, Some(userId),
                                               Sanitize.CleanDescription(text), false)], db.comments.next + 1))
  {
    hide Sanitize.CleanDescription;
    PerformChild(db, InsertComment(Comment(issueId, Some(userId), Sanitize.CleanDescription(text), false)));
  }

  /** Only its text changes, and it is marked as edited; only its author's comment, if an author is required. */
  lemma {:induction false} PutCommentExact(
    db: Database, projectId: int, issueId: int, id: int, author: Option<int>, text: string, now: int)
    ensures var (after, status) := Handle(db, PutComment(projectId, issueId, id, author, text), now);
      && (status == 200 <==>
            && OpenIssueOf(db, projectId, issueId) && AcceptableComment(text)
            && id in db.comments.rows && db.comments.rows[id].issueId == issueId
            && (author.Some? ==> db.comments.rows[id].userId == author))
      && after == if status != 200 then db
                  else db.(comments := db.comments.(rows := db.comments.rows[id := Comment(
                             issueId, db.comments.rows[id].userId, Sanitize.CleanDescription(text), true)]))
  {
    hide Sanitize.CleanDescription;
    PerformChild(db, UpdateComment(issueId, id, author, Sanitize.CleanDescription(text)));
  }

  lemma {:induction false} DeleteCommentExact(
    db: Database, projectId: int, issueId: int, id: int, author: Option<int>, now: int)
    ensures var (after, status) := Handle(db, Request.DeleteComment(projectId, issueId, id, author), now);
      && (status == 200 <==>
            && OpenIssueOf(db, projectId, issueId) && id in db.comments.rows && db.comments.rows[id].issueId == issueId
            && (author.Some? ==> db.comments.rows[id].userId == author))
      && after == if status != 200 then db else db.(comments := db.comments.(rows := db.comments.rows - {id}))
  {
    PerformChild(db, Statement.DeleteComment(issueId, id, author));
  }

  // ------------------------------------------------------------------------------------ positions

  /** Between 1 and 500 updates with positive ids, each once, and no negative position. */
  ghost predicate AcceptableUpdates(updates: seq<PositionUpdate>) {
    && 1 <= |updates| <= 500 && (forall u :: u in updates ==> u.id > 0 && u.position >= 0)
    && forall i, j :: 0 <= i < j < |updates| ==> updates[i].id != updates[j].id
  }

  lemma {:induction false} ValidUpdatesExactly(updates: seq<PositionUpdate>)
    ensures Positions.ValidUpdates(updates) <==> AcceptableUpdates(updates)
  {
    if Positions.ValidUpdates(updates) {
      forall u | u in updates ensures u.id > 0 && u.position >= 0 {
        var i :| 0 <= i < |updates| && updates[i] == u;
      }
    }
    if AcceptableUpdates(updates) {
      forall i | 0 <= i < |updates| ensures updates[i].id > 0 && updates[i].position >= 0 {
        assert updates[i] in updates;
      }
    }
  }

  /** Issues of the project that are not archived get the positions sent, and nothing else changes. */
  lemma {:induction false} PutPositionsAcceptedExactly(
    db: Database, projectId: int, updates: seq<PositionUpdate>, now: int)
    ensures var (after, status) := Handle(db, PutIssuePositions(projectId, updates), now);
      && (status == 200 <==>
            && projectId in db.projects.rows && AcceptableUpdates(updates)
            && forall u :: u in updates ==> OpenIssueOf(db, projectId, u.id))
      && (status != 200 ==> after == db)
      && (status == 200 ==>
            && after == db.(issues := after.issues) && after.issues.rows.Keys == db.issues.rows.Keys
            && (forall u :: u in updates ==> after.issues.rows[u.id] == db.issues.rows[u.id].(position := u.position))
            && forall id :: id in db.issues.rows && (forall u :: u in updates ==> u.id != id) ==>
                 after.issues.rows[id] == db.issues.rows[id])
  {
    hide Handle, Positions.ValidUpdates, AcceptableUpdates;
    ValidUpdatesExactly(updates);
    Reorder.PutPositionsExact(db, projectId, updates, now);
  }

  /** The tasks of one issue, all or none. */
  lemma {:induction false} TaskPositionsExact(db: Database, issueId: int, updates: seq<PositionUpdate>)
    requires Positions.DistinctIds(updates)
    ensures var result := Db.UpdateTaskPositions(db, issueId, updates);
      && (result.Ok? <==> forall u :: u in updates ==> u.id in db.tasks.rows && db.tasks.rows[u.id].issueId == issueId)
      && (result.Ok? ==>
            && result.value == db.(tasks := result.value.tasks)
            && result.value.tasks.next == db.tasks.next && result.value.tasks.rows.Keys == db.tasks.rows.Keys
            && (forall u :: u in updates ==>
                  result.value.tasks.rows[u.id] == db.tasks.rows[u.id].(position := u.position))
            && forall id :: id in db.tasks.rows && (forall u :: u in updates ==> u.id != id) ==>
                 result.value.tasks.rows[id] == db.tasks.rows[id])
    decreases |updates|
  {
    if updates != [] && IsTask(db, issueId, updates[0].id) {
      var first, rest := updates[0], updates[1..];
      var mid := db.(tasks := db.tasks.Put(first.id, db.tasks.rows[first.id].(position := first.position)));
      TaskPositionsExact(mid, issueId, rest);
      Reorder.SplitUpdates(updates);
    } else if updates != [] {
      assert updates[0] in updates;
    }
  }

  lemma {:induction false} PutTaskPositionsExact(
    db: Database, projectId: int, issueId: int, updates: seq<PositionUpdate>, now: int)
    ensures var (after, status) := Handle(db, PutTaskPositions(projectId, issueId, updates), now);
      && (status == 200 <==>
            && OpenIssueOf(db, projectId, issueId) && AcceptableUpdates(updates)
            && forall u :: u in updates ==> u.id in db.tasks.rows && db.tasks.rows[u.id].issueId == issueId)
      && (status != 200 ==> after == db)
      && (status == 200 ==>
            && after == db.(tasks := after.tasks) && after.tasks.rows.Keys == db.tasks.rows.Keys
            && (forall u :: u in updates ==> after.tasks.rows[u.id] == db.tasks.rows[u.id].(position := u.position))
            && forall id :: id in db.tasks.rows && (forall u :: u in updates ==> u.id != id) ==>
                 after.tasks.rows[id] == db.tasks.rows[id])
  {
    ValidUpdatesExactly(updates);
    PerformChild(db, Statement.UpdateTaskPositions(issueId, updates));
    if AcceptableUpdates(updates) {
      assert Positions.DistinctIds(updates);
      hide AcceptableUpdates, Positions.ValidUpdates, Db.UpdateTaskPositions, Positions.DistinctIds;
      TaskPositionsExact(db, issueId, updates);
    }
    hide AcceptableUpdates, Positions.ValidUpdates, Db.UpdateTaskPositions;
  }

  // ------------------------------------------------------------------- deleting and closing

  /** An issue that is not archived goes with its tasks, comments and history, and nothing else does. */
  lemma {:induction false} DeleteIssueExact(db: Database, projectId: int, id: int, now: int)
    ensures var (after, status) := Handle(db, Request.DeleteIssue(projectId, id), now);
      && (status == 200 <==> OpenIssueOf(db, projectId, id))
      && (status != 200 ==> after == db)
      && (status == 200 ==>
            && after == db.(issues := after.issues, tasks := after.tasks, comments := after.comments,
                  history := after.history)
            && after.issues == db.issues.(rows := db.issues.rows - {id})
            && after.tasks == db.tasks.(rows := map t | t in db.tasks.rows && db.tasks.rows[t].issueId != id ::
                  db.tasks.rows[t])
            && after.comments == db.comments.(rows :=
                 map c | c in db.comments.rows && db.comments.rows[c].issueId != id :: db.comments.rows[c])
            && after.history == db.history.(rows :=
                 map h | h in db.history.rows && db.history.rows[h].issueId != id :: db.history.rows[h]))
  {
    PerformChild(db, Statement.DeleteIssue(id));
  }

  /**
   * Closing a release archives, on request, exactly the Done issues assigned to it, stamps them, and
   * changes no other issue.
   */
  lemma {:induction false} TriggerReleaseExact(db: Database, projectId: int, id: int, archiveDone: bool, now: int)
    ensures var (after, status) := Handle(db, Request.TriggerRelease(projectId, id, archiveDone), now);
      && (status == 200 <==> projectId in db.projects.rows && id in db.releases.rows
                             && db.releases.rows[id].projectId == projectId && !db.releases.rows[id].closed)
      && (status != 200 ==> after == db)
      && (status == 200 ==>
            && after == db.(releases := after.releases, issues := after.issues)
            && after.releases == db.releases.(rows := db.releases.rows[id := db.releases.rows[id].(closed := true)])
            && after.issues.next == db.issues.next && after.issues.rows.Keys == db.issues.rows.Keys
            && forall i :: i in db.issues.rows ==>
                 var row := db.issues.rows[i];
                 after.issues.rows[i] == if archiveDone && row.releaseId == Some(id) && row.status == "Done"
                                         then row.(status := "Archive", updatedAt := now) else row)
  {
    var close := SetReleaseClosed(id, true);
    PerformChild(db, close);
    if archiveDone && Try(db, close).Ok? {
      var closed := Try(db, close).value;
      assert [close, Statement.ArchiveDone(id, now)][1..] == [Statement.ArchiveDone(id, now)];
      PerformChild(closed, Statement.ArchiveDone(id, now));
    }
  }

  /** Its references from issues become null, and nothing else changes. */
  lemma {:induction false} DeleteLabelExact(db: Database, projectId: int, id: int, now: int)
    ensures var (after, status) := Handle(db, Request.DeleteLabel(projectId, id), now);
      && (status == 200 <==>
            projectId in db.projects.rows && id in db.labels.rows && db.labels.rows[id].projectId == projectId)
      && (status != 200 ==> after == db)
      && (status == 200 ==>
            && after == db.(labels := db.labels.(rows := db.labels.rows - {id}), issues := after.issues)
            && after.issues.next == db.issues.next && after.issues.rows.Keys == db.issues.rows.Keys
            && forall i :: i in db.issues.rows ==>
                 after.issues.rows[i] == db.issues.rows[i].(
                   labelId := if db.issues.rows[i].labelId == Some(id) then None else db.issues.rows[i].labelId))
  {
    PerformChild(db, Statement.DeleteLabel(id, projectId));
  }

  lemma {:induction false} DeleteReleaseExact(db: Database, projectId: int, id: int, now: int)
    ensures var (after, status) := Handle(db, Request.DeleteRelease(projectId, id), now);
      && (status == 200 <==> projectId in db.projects.rows && id in db.releases.rows
                             && db.releases.rows[id].projectId == projectId)
      && (status != 200 ==> after == db)
      && (status == 200 ==>
            && after == db.(releases := db.releases.(rows := db.releases.rows - {id}), issues := after.issues)
            && after.issues.next == db.issues.next && after.issues.rows.Keys == db.issues.rows.Keys
            && forall i :: i in db.issues.rows ==>
                 after.issues.rows[i] == db.issues.rows[i].(
                   releaseId := if db.issues.rows[i].releaseId == Some(id) then None else db.issues.rows[i].releaseId))
  {
    PerformChild(db, Statement.DeleteRelease(id));
  }

  lemma {:induction false} CreateLabelExact(db: Database, projectId: int, now: int)
    ensures Handle(db, CreateLabel(projectId), now)
            == if projectId !in db.projects.rows then (db, 404)
               else (db.(labels := Table(db.labels.rows[db.labels.next := Label(projectId)], db.labels.next + 1)), 200)
  {
    PerformChild(db, InsertLabel(Label(projectId)));
  }

  /** A new release is open. */
  lemma {:induction false} CreateReleaseExact(db: Database, projectId: int, ownerId: Option<int>, now: int)
    ensures var (after, status) := Handle(db, CreateRelease(projectId, ownerId), now);
      && (status == 200 <==> projectId in db.projects.rows && (ownerId.Some? ==> ownerId.value in db.users.rows))
      && after == if status != 200 then db
                  else db.(releases := Table(db.releases.rows[db.releases.next := Release(projectId, false, ownerId)],
                                             db.releases.next + 1))
  {
    PerformChild(db, InsertRelease(Release(projectId, false, ownerId)));
  }

  /** A release of the project. */
  predicate ReleaseIn(db: Database, projectId: int, id: int) {
    projectId in db.projects.rows && id in db.releases.rows && db.releases.rows[id].projectId == projectId
  }

  /** Only an open release gets another owner. */
  lemma {:induction false} PutReleaseExact(db: Database, projectId: int, id: int, ownerId: Option<int>, now: int)
    ensures var (after, status) := Handle(db, PutRelease(projectId, id, ownerId), now);
      && (status == 200 <==>
            && ReleaseIn(db, projectId, id) && !db.releases.rows[id].closed
            && (ownerId.Some? ==> ownerId.value in db.users.rows))
      && after == if status != 200 then db
                  else db.(releases := db.releases.(rows := db.releases.rows[id := Release(projectId, false, ownerId)]))
  {
    PerformChild(db, UpdateRelease(id, ownerId));
  }

  /** Only a closed release is opened again; its archived issues stay archived. */
  lemma {:induction false} ReopenReleaseExact(db: Database, projectId: int, id: int, now: int)
    ensures var (after, status) := Handle(db, ReopenRelease(projectId, id), now);
      && (status == 200 <==> ReleaseIn(db, projectId, id) && db.releases.rows[id].closed)
      && after == if status != 200 then db
                  else db.(releases := db.releases.(rows :=
                         db.releases.rows[id := db.releases.rows[id].(closed := false)]))
  {
    PerformChild(db, SetReleaseClosed(id, false));
  }

  // ----------------------------------------------------------------------------------- projects

  lemma {:induction false} CreateProjectExact(db: Database, now: int)
    ensures Handle(db, CreateProject, now)
            == (db.(projects := Table(db.projects.rows[db.projects.next := ()], db.projects.next + 1)), 200)
  {
    PerformChild(db, InsertProject);
  }

  /** A project without issues, other than the first, goes with its labels and releases. */
  lemma {:induction false} DeleteProjectExact(db: Database, id: int, now: int)
    requires Valid(db) && Consistent(db)
    ensures var (after, status) := Handle(db, Request.DeleteProject(id), now);
      && (status == 200 <==>
            id != 1 && id in db.projects.rows && forall i :: i in db.issues.rows ==> db.issues.rows[i].projectId != id)
      && (status != 200 ==> after == db)
      && (status == 200 ==>
            && after == db.(projects := db.projects.(rows := db.projects.rows - {id}), labels := after.labels,
                            releases := after.releases)
            && after.labels == db.labels.(rows :=
                 map l | l in db.labels.rows && db.labels.rows[l].projectId != id :: db.labels.rows[l])
            && after.releases == db.releases.(rows :=
                 map r | r in db.releases.rows && db.releases.rows[r].projectId != id :: db.releases.rows[r]))
  {
    PerformChild(db, Statement.DeleteProject(id));
    if Handle(db, Request.DeleteProject(id), now).1 == 200 {
      NothingUnlinked(db, id);
    }
  }

  /** Where every issue's label and release are of its own project, deleting another project unlinks none. */
  lemma {:induction false} NothingUnlinked(db: Database, projectId: int)
    requires Consistent(db) && forall i :: i in db.issues.rows ==> db.issues.rows[i].projectId != projectId
    ensures RemoveReleases(RemoveLabels(db, LabelsOf(db, projectId)), ReleasesOf(db, projectId)).issues == db.issues
  {
    var after := RemoveReleases(RemoveLabels(db, LabelsOf(db, projectId)), ReleasesOf(db, projectId));
    forall i | i in db.issues.rows ensures after.issues.rows[i] == db.issues.rows[i] {
      assert Fits(db, db.issues.rows[i]);
    }
    assert after.issues.rows == db.issues.rows;
  }

  // -------------------------------------------------------------------------------------- users

  lemma {:induction false} CreateUserExact(db: Database, user: User, now: int)
    requires db.users.Valid()
    ensures var (after, status) := Handle(db, CreateUser(user), now);
      && (status == 200 <==> forall other :: other in db.users.rows ==> db.users.rows[other].email != user.email)
      && after == if status != 200 then db
                  else db.(users := Table(db.users.rows[db.users.next := user], db.users.next + 1))
  {
    PerformChild(db, InsertUser(user));
  }

  predicate SysAdmin(u: User) {
    u.role == "sysadmin" && u.active
  }

  /**
   * A user is replaced as a whole, unless the e-mail is taken or nobody else would be an active
   * sysadmin; on request all sessions of the user, and no others, end.
   */
  lemma {:induction false} UpdateUserExact(db: Database, id: int, user: User, revoke: bool, now: int)
    ensures var (after, status) := Handle(db, Request.UpdateUser(id, user, revoke), now);
      && (status == 200 <==>
            && id in db.users.rows
            && (SysAdmin(db.users.rows[id]) && !SysAdmin(user) ==>
                  exists other :: other != id && other in db.users.rows && SysAdmin(db.users.rows[other]))
            && forall other :: other in db.users.rows && other != id ==> db.users.rows[other].email != user.email)
      && (status != 200 ==> after == db)
      && (status == 200 ==>
            && after == db.(users := db.users.(rows := db.users.rows[id := user]), sessions := after.sessions)
            && after.sessions == db.sessions.(rows :=
                 map s | s in db.sessions.rows && !(revoke && db.sessions.rows[s].userId == id) :: db.sessions.rows[s]))
  {
    var update := Statement.UpdateUser(id, user);
    LastExactly(db, id);
    hide IsLastSysAdmin, ActiveSysAdmins;
    PerformChild(db, update);
    if revoke && Try(db, update).Ok? {
      assert [update, Statement.DeleteSessionsByUser(id)][1..] == [Statement.DeleteSessionsByUser(id)];
      PerformChild(Try(db, update).value, Statement.DeleteSessionsByUser(id));
    }
  }

  /** The counting guard is about the others: somebody is the last exactly if no other is active. */
  lemma {:induction false} LastExactly(db: Database, id: int)
    ensures IsLastSysAdmin(db, id) <==>
      && id in db.users.rows && SysAdmin(db.users.rows[id])
      && forall other :: other != id && other in db.users.rows ==> !SysAdmin(db.users.rows[other])
  {
    var admins := ActiveSysAdmins(db);
    assert forall u :: u in admins <==> u in db.users.rows && SysAdmin(db.users.rows[u]);
    if id in admins {
      if |admins| <= 1 {
        forall other | other in admins ensures other == id {
          if other != id {
            assert |{id, other}| == 2 && {id, other} <= admins;
            SubsetSize({id, other}, admins);
          }
        }
      } else {
        var other := SomeElement(admins - {id});
        assert other in admins && other != id;
      }
    }
  }

  lemma {:induction false} SubsetSize(a: set<int>, b: set<int>)
    requires a <= b
    ensures |a| <= |b|
  {
    assert b == a + (b - a);
  }
}
