/** The reads and existence checks that the handlers of backend/handlers.go share. */
module Checks {
  import opened Common
  import opened Db
  import opened Model
  import Sanitize

  function InProject(db: Database, id: int, projectId: int): Option<Issue> {
    if id in db.issues.rows && db.issues.rows[id].projectId == projectId then Some(db.issues.rows[id]) else None
  }

  predicate AssigneePasses(db: Database, issue: Issue, current: Option<Issue>) {
    issue.assigneeId.Some? ==>
      && issue.assigneeId.value in db.users.rows
      && ((current.Some? && current.value.assigneeId == issue.assigneeId)
            || db.users.rows[issue.assigneeId.value].active)
  }

  predicate LabelPasses(db: Database, issue: Issue) {
    issue.labelId.Some? ==>
      issue.labelId.value in db.labels.rows && db.labels.rows[issue.labelId.value].projectId == issue.projectId
  }

  predicate ReleasePasses(db: Database, issue: Issue) {
    issue.releaseId.Some? ==>
      issue.releaseId.value in db.releases.rows && db.releases.rows[issue.releaseId.value].projectId == issue.projectId
  }

  const MAX_COMMENT_LENGTH := 1000

  /** validateTask. */
  function ValidateTask(t: Task): Option<Task> {
    var title := Sanitize.SanitizeString(t.title);
    if title == "" || |title| > MAX_TITLE_LENGTH || t.position < 0 then None
    else if t.deadline.Some? && !(2000 <= t.deadline.value.year <= 2100) then None
    else Some(t.(title := title))
  }

  /** validateComment. */
  function ValidateComment(body: string): Option<string> {
    var text := Sanitize.CleanDescription(body);
    if text == "" || |text| > MAX_COMMENT_LENGTH then None else Some(text)
  }

  /** MAX(position) + 1, where no position counts as 0. */
  function EndPosition(positions: set<int>): int {
    var negated := set p | p in positions :: -p;
    if |negated| == 0 then 1 else 1 - Min(negated)
  }

  /** CreateIssue up to its INSERT: the default priority, the last position of its status, the stamp. */
  function NewRow(db: Database, i: Issue, now: int): Issue {
    i.(priority := if i.priority == "" then PRIORITY_NORMAL else i.priority,
       position := EndPosition(
         set id | id in db.issues.rows && db.issues.rows[id].status == i.status :: db.issues.rows[id].position),
       updatedAt := now)
  }
}
