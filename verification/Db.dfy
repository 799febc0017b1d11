/**
 * backend/db.go: the tables with their foreign keys, and the SQL statements as functions from
 * one database to the next. Ids come from AUTOINCREMENT counters and are never used twice.
 */
module Db {
  import opened Common
  import opened Model
  import RefreshToken

  datatype Table<T> = Table(rows: map<int, T>, next: int) {
    ghost predicate Valid() {
      0 < next && forall id :: id in rows ==> 0 < id < next
    }

    function Insert(row: T): Table<T> { Table(rows[next := row], next + 1) }

    function Put(id: int, row: T): Table<T> { this.(rows := rows[id := row]) }

    function Without(gone: set<int>): Table<T> { this.(rows := rows - gone) }
  }

  datatype Label = Label(projectId: int)
  datatype Release = Release(projectId: int, closed: bool, ownerId: Option<int>)
  datatype Task = Task(issueId: int, title: string, done: bool, position: int, deadline: Option<Moment>)
  datatype Comment = Comment(issueId: int, userId: Option<int>, body: string, edited: bool)
  datatype History = History(issueId: int, userId: Option<int>, event: string, field: string, from: string)
  datatype User = User(email: string, firstName: string, lastName: string, passwordHash: string, role: string,
    active: bool)

  /** computeTokenMAC, taken as collision-free. */
  datatype Mac = Mac(secret: seq<RefreshToken.Byte>)
  datatype Session = Session(userId: int, sessionToken: seq<RefreshToken.Byte>, tokenHash: Mac, expiresAt: int)

  const ROLE_SYSADMIN := "sysadmin"
  const EVENT_UPDATED := "updated"

  datatype Database = Database(
    projects: Table<()>, labels: Table<Label>, releases: Table<Release>, issues: Table<Issue>,
    tasks: Table<Task>, comments: Table<Comment>, history: Table<History>,
    users: Table<User>, sessions: Table<Session>)

  datatype DbError = NotFound | ForeignKey | DuplicateEmail | LastSysAdmin

  type Outcome = Result<Database, DbError>

  // ------------------------------------------------------------------------------- foreign keys

  predicate Exists<T>(t: Table<T>, id: Option<int>) {
    id.Some? ==> id.value in t.rows
  }

  /** The foreign keys of one issues row. */
  predicate IssueRefs(db: Database, i: Issue) {
    && i.projectId in db.projects.rows
    && Exists(db.labels, i.labelId) && Exists(db.releases, i.releaseId)
    && Exists(db.users, i.creatorId) && Exists(db.users, i.assigneeId) && Exists(db.users, i.updaterId)
  }

  ghost predicate RefsValid(db: Database) {
    && (forall id :: id in db.issues.rows ==> IssueRefs(db, db.issues.rows[id]))
    && (forall id :: id in db.labels.rows ==> db.labels.rows[id].projectId in db.projects.rows)
    && (forall id :: id in db.releases.rows ==>
          db.releases.rows[id].projectId in db.projects.rows && Exists(db.users, db.releases.rows[id].ownerId))
    && (forall id :: id in db.tasks.rows ==> db.tasks.rows[id].issueId in db.issues.rows)
    && (forall id :: id in db.comments.rows ==>
          db.comments.rows[id].issueId in db.issues.rows && Exists(db.users, db.comments.rows[id].userId))
    && (forall id :: id in db.history.rows ==>
          db.history.rows[id].issueId in db.issues.rows && Exists(db.users, db.history.rows[id].userId))
    && (forall id :: id in db.sessions.rows ==> db.sessions.rows[id].userId in db.users.rows)
  }

  ghost predicate TablesValid(db: Database) {
    && db.projects.Valid() && db.labels.Valid() && db.releases.Valid() && db.issues.Valid() && db.tasks.Valid()
    && db.comments.Valid() && db.history.Valid() && db.users.Valid() && db.sessions.Valid()
  }

  ghost predicate Valid(db: Database) {
    TablesValid(db) && RefsValid(db)
  }

  // ------------------------------------------------------------ ON DELETE SET NULL and CASCADE

  function Unlink(id: Option<int>, gone: set<int>): Option<int> {
    if id.Some? && id.value in gone then None else id
  }

  function UnlinkIssues(issues: Table<Issue>, labels: set<int>, releases: set<int>, users: set<int>): Table<Issue> {
    issues.(rows := map id | id in issues.rows ::
      var i := issues.rows[id];
      i.(labelId := Unlink(i.labelId, labels), releaseId := Unlink(i.releaseId, releases),
         creatorId := Unlink(i.creatorId, users), assigneeId := Unlink(i.assigneeId, users),
         updaterId := Unlink(i.updaterId, users)))
  }

  function LabelsOf(db: Database, projectId: int): set<int> {
    set id | id in db.labels.rows && db.labels.rows[id].projectId == projectId
  }

  function ReleasesOf(db: Database, projectId: int): set<int> {
    set id | id in db.releases.rows && db.releases.rows[id].projectId == projectId
  }

  function TasksOf(db: Database, issueId: int): map<int, Task> {
    map id | id in db.tasks.rows && db.tasks.rows[id].issueId == issueId :: db.tasks.rows[id]
  }

  function CommentsOf(db: Database, issueId: int): map<int, Comment> {
    map id | id in db.comments.rows && db.comments.rows[id].issueId == issueId :: db.comments.rows[id]
  }

  function HistoryOf(db: Database, issueId: int): map<int, History> {
    map id | id in db.history.rows && db.history.rows[id].issueId == issueId :: db.history.rows[id]
  }

  function RemoveLabels(db: Database, gone: set<int>): Database {
    db.(labels := db.labels.Without(gone), issues := UnlinkIssues(db.issues, gone, {}, {}))
  }

  function RemoveReleases(db: Database, gone: set<int>): Database {
    db.(releases := db.releases.Without(gone), issues := UnlinkIssues(db.issues, {}, gone, {}))
  }

  function RemoveIssue(db: Database, id: int): Database {
    db.(issues := db.issues.Without({id}), tasks := db.tasks.Without(TasksOf(db, id).Keys),
        comments := db.comments.Without(CommentsOf(db, id).Keys), history := db.history.Without(HistoryOf(db, id).Keys))
  }

  function RemoveUser(db: Database, id: int): Database {
    var gone := {id};
    db.(users := db.users.Without(gone),
        issues := UnlinkIssues(db.issues, {}, {}, gone),
        releases := db.releases.(rows := map r | r in db.releases.rows ::
          db.releases.rows[r].(ownerId := Unlink(db.releases.rows[r].ownerId, gone))),
        comments := db.comments.(rows := map c | c in db.comments.rows ::
          db.comments.rows[c].(userId := Unlink(db.comments.rows[c].userId, gone))),
        history := db.history.(rows := map h | h in db.history.rows ::
          db.history.rows[h].(userId := Unlink(db.history.rows[h].userId, gone))),
        sessions := db.sessions.Without(set s | s in db.sessions.rows && db.sessions.rows[s].userId == id))
  }

  // ----------------------------------------------------------------------------- issue statements

  function InsertIssue(db: Database, i: Issue): Outcome {
    if !IssueRefs(db, i) then Err(ForeignKey) else Ok(db.(issues := db.issues.Insert(i)))
  }

  /** UPDATE issues: every column but the creator. */
  function UpdateIssue(db: Database, id: int, i: Issue): Outcome {
    if id !in db.issues.rows then Err(NotFound)
    else
      var row := i.(creatorId := db.issues.rows[id].creatorId);
      if !IssueRefs(db, row) then Err(ForeignKey) else Ok(db.(issues := db.issues.Put(id, row)))
  }

  function UpdateIssuePosition(db: Database, id: int, position: int): Outcome {
    if id !in db.issues.rows then Err(NotFound)
    else Ok(db.(issues := db.issues.Put(id, db.issues.rows[id].(position := position))))
  }

  datatype PositionUpdate = PositionUpdate(id: int, position: int)

  /** WHERE id = ? AND project_id = ? AND status != 'Archive'. */
  predicate Reorderable(db: Database, projectId: int, id: int) {
    id in db.issues.rows && db.issues.rows[id].projectId == projectId && db.issues.rows[id].status != STATUS_ARCHIVE
  }

  /** UpdateIssuePositions: one statement per update in one transaction. */
  function UpdateIssuePositions(db: Database, projectId: int, updates: seq<PositionUpdate>): Outcome
    decreases |updates|
  {
    if updates == [] then Ok(db)
    else if !Reorderable(db, projectId, updates[0].id) then Err(NotFound)
    else
      var row := db.issues.rows[updates[0].id].(position := updates[0].position);
      UpdateIssuePositions(db.(issues := db.issues.Put(updates[0].id, row)), projectId, updates[1..])
  }

  function DeleteIssue(db: Database, id: int): Outcome {
    if id !in db.issues.rows then Err(NotFound) else Ok(RemoveIssue(db, id))
  }

  // --------------------------------------------------------------- task and comment statements

  function InsertTask(db: Database, t: Task): Outcome {
    if t.issueId !in db.issues.rows then Err(NotFound) else Ok(db.(tasks := db.tasks.Insert(t)))
  }

  predicate IsTask(db: Database, issueId: int, id: int) {
    id in db.tasks.rows && db.tasks.rows[id].issueId == issueId
  }

  function UpdateTask(db: Database, issueId: int, id: int, t: Task): Outcome {
    if !IsTask(db, issueId, id) then Err(NotFound)
    else Ok(db.(tasks := db.tasks.Put(id, t.(issueId := issueId))))
  }

  function UpdateTaskPositions(db: Database, issueId: int, updates: seq<PositionUpdate>): Outcome
    decreases |updates|
  {
    if updates == [] then Ok(db)
    else if !IsTask(db, issueId, updates[0].id) then Err(NotFound)
    else
      var row := db.tasks.rows[updates[0].id].(position := updates[0].position);
      UpdateTaskPositions(db.(tasks := db.tasks.Put(updates[0].id, row)), issueId, updates[1..])
  }

  function DeleteTask(db: Database, issueId: int, id: int): Outcome {
    if !IsTask(db, issueId, id) then Err(NotFound) else Ok(db.(tasks := db.tasks.Without({id})))
  }

  function InsertComment(db: Database, c: Comment): Outcome {
    if c.issueId !in db.issues.rows || !Exists(db.users, c.userId) then Err(ForeignKey)
    else Ok(db.(comments := db.comments.Insert(c)))
  }

  /** The comment belongs to the issue, and to the author if one is required. */
  predicate IsComment(db: Database, issueId: int, id: int, author: Option<int>) {
    && id in db.comments.rows && db.comments.rows[id].issueId == issueId
    && (author.Some? ==> db.comments.rows[id].userId == author)
  }

  function UpdateComment(db: Database, issueId: int, id: int, author: Option<int>, body: string): Outcome {
    if !IsComment(db, issueId, id, author) then Err(NotFound)
    else Ok(db.(comments := db.comments.Put(id, db.comments.rows[id].(body := body, edited := true))))
  }

  function DeleteComment(db: Database, issueId: int, id: int, author: Option<int>): Outcome {
    if !IsComment(db, issueId, id, author) then Err(NotFound) else Ok(db.(comments := db.comments.Without({id})))
  }

  // --------------------------------------------------- project, label and release statements

  function InsertProject(db: Database): Outcome {
    Ok(db.(projects := db.projects.Insert(())))
  }

  /** NO ACTION on issues, CASCADE on labels and releases. */
  function DeleteProject(db: Database, id: int): Outcome {
    if id !in db.projects.rows then Err(NotFound)
    else if exists i :: i in db.issues.rows && db.issues.rows[i].projectId == id then Err(ForeignKey)
    else
      var cleared := RemoveReleases(RemoveLabels(db, LabelsOf(db, id)), ReleasesOf(db, id));
      Ok(cleared.(projects := db.projects.Without({id})))
  }

  function InsertLabel(db: Database, l: Label): Outcome {
    if l.projectId !in db.projects.rows then Err(ForeignKey) else Ok(db.(labels := db.labels.Insert(l)))
  }

  function DeleteLabel(db: Database, id: int, projectId: int): Outcome {
    if id !in db.labels.rows || db.labels.rows[id].projectId != projectId then Err(NotFound)
    else Ok(RemoveLabels(db, {id}))
  }

  function InsertRelease(db: Database, r: Release): Outcome {
    if r.projectId !in db.projects.rows || !Exists(db.users, r.ownerId) then Err(ForeignKey)
    else Ok(db.(releases := db.releases.Insert(r.(closed := false))))
  }

  function UpdateRelease(db: Database, id: int, ownerId: Option<int>): Outcome {
    if id !in db.releases.rows then Err(NotFound)
    else if !Exists(db.users, ownerId) then Err(ForeignKey)
    else Ok(db.(releases := db.releases.Put(id, db.releases.rows[id].(ownerId := ownerId))))
  }

  function DeleteRelease(db: Database, id: int): Outcome {
    if id !in db.releases.rows then Err(NotFound) else Ok(RemoveReleases(db, {id}))
  }

  function SetReleaseClosed(db: Database, id: int, closed: bool): Outcome {
    if id !in db.releases.rows || db.releases.rows[id].closed == closed then Err(NotFound)
    else Ok(db.(releases := db.releases.Put(id, db.releases.rows[id].(closed := closed))))
  }

  /** The second statement of TriggerRelease. */
  function ArchiveDone(db: Database, releaseId: int, now: int): Database {
    db.(issues := db.issues.(rows := map id | id in db.issues.rows ::
      var i := db.issues.rows[id];
      if i.releaseId == Some(releaseId) && i.status == STATUS_DONE then i.(status := STATUS_ARCHIVE, updatedAt := now)
      else i))
  }

  function TriggerRelease(db: Database, id: int, archiveDone: bool, now: int): Outcome {
    match SetReleaseClosed(db, id, true)
    case Err(e) => Err(e)
    case Ok(closed) => Ok(if archiveDone then ArchiveDone(closed, id, now) else closed)
  }

  // ------------------------------------------------------------------------------ user statements

  predicate EmailFree(db: Database, email: string, except: int) {
    forall id :: id in db.users.rows && id != except ==> db.users.rows[id].email != email
  }

  predicate IsActiveSysAdmin(u: User) {
    u.role == ROLE_SYSADMIN && u.active
  }

  function ActiveSysAdmins(db: Database): set<int> {
    set id | id in db.users.rows && IsActiveSysAdmin(db.users.rows[id])
  }

  /** lastActiveSysAdminCond for the row id. */
  predicate IsLastSysAdmin(db: Database, id: int) {
    id in ActiveSysAdmins(db) && |ActiveSysAdmins(db)| <= 1
  }

  function InsertUser(db: Database, u: User): Outcome {
    if !EmailFree(db, u.email, 0) then Err(DuplicateEmail) else Ok(db.(users := db.users.Insert(u)))
  }

  function UpdateUser(db: Database, id: int, u: User): Outcome {
    if id !in db.users.rows then Err(NotFound)
    else if !IsActiveSysAdmin(u) && IsLastSysAdmin(db, id) then Err(LastSysAdmin)
    else if !EmailFree(db, u.email, id) then Err(DuplicateEmail)
    else Ok(db.(users := db.users.Put(id, u)))
  }

  // ------------------------------------------------------------------- DeleteUser, one transaction

  function AffectedIssues(db: Database, userId: int): set<int> {
    set id | id in db.issues.rows && db.issues.rows[id].assigneeId == Some(userId)
  }

  lemma {:induction false} SomeElement<T>(s: set<T>) returns (x: T)
    requires |s| > 0
    ensures x in s
  {
    x :| x in s;
  }

  lemma {:induction false} MinExists(s: set<int>)
    requires |s| > 0
    ensures exists x :: x in s && forall y :: y in s ==> x <= y
    decreases s
  {
    var x := SomeElement(s);
    var rest := s - {x};
    if |rest| > 0 {
      MinExists(rest);
      var m :| m in rest && forall y :: y in rest ==> m <= y;
      var least := if x < m then x else m;
      forall y | y in s ensures least <= y {
        assert y != x ==> y in rest;
      }
    } else {
      forall y | y in s ensures x <= y {
        assert y == x || y in rest;
      }
    }
  }

  function Min(s: set<int>): (x: int)
    requires |s| > 0
    ensures x in s && forall y :: y in s ==> x <= y
  {
    MinExists(s);
    var x :| x in s && forall y :: y in s ==> x <= y;
    x
  }

  /** INSERT INTO issue_history SELECT: one row per issue, in the order of their ids. */
  function InsertHistory(history: Table<History>, issues: set<int>, actor: Option<int>, from: string): Table<History>
    decreases issues
  {
    if |issues| == 0 then history
    else
      var id := Min(issues);
      InsertHistory(history.Insert(History(id, actor, EVENT_UPDATED, "assignee", from)), issues - {id}, actor, from)
  }

  function Unassign(issues: Table<Issue>, userId: int, actor: Option<int>, now: int): Table<Issue> {
    issues.(rows := map id | id in issues.rows ::
      if issues.rows[id].assigneeId == Some(userId)
      then issues.rows[id].(assigneeId := None, updaterId := actor, updatedAt := now)
      else issues.rows[id])
  }

  datatype Deleted = Deleted(db: Database, unassigned: nat)

  function DeleteUser(db: Database, id: int, actor: Option<int>, userName: string, now: int): Result<Deleted, DbError> {
    var affected := AffectedIssues(db, id);
    if affected != {} && !Exists(db.users, actor) then Err(ForeignKey)
    else if id !in db.users.rows then Err(NotFound)
    else if IsLastSysAdmin(db, id) then Err(LastSysAdmin)
    else
      var unassigned := db.(
        history := InsertHistory(db.history, affected, actor, userName + " (user deleted)"),
        issues := Unassign(db.issues, id, actor, now));
      Ok(Deleted(RemoveUser(unassigned, id), |affected|))
  }

  // --------------------------------------------------------------------------- session statements

  function InsertSession(db: Database, s: Session): Outcome {
    if s.userId !in db.users.rows then Err(ForeignKey) else Ok(db.(sessions := db.sessions.Insert(s)))
  }

  function UpdateSession(db: Database, id: int, tokenHash: Mac, expiresAt: int): Outcome {
    if id !in db.sessions.rows then Err(NotFound)
    else Ok(db.(sessions := db.sessions.Put(id, db.sessions.rows[id].(tokenHash := tokenHash, expiresAt := expiresAt))))
  }

  function DeleteSession(db: Database, id: int): Outcome {
    if id !in db.sessions.rows then Err(NotFound) else Ok(db.(sessions := db.sessions.Without({id})))
  }

  function SessionsOf(db: Database, userId: int): set<int> {
    set s | s in db.sessions.rows && db.sessions.rows[s].userId == userId
  }

  function DeleteSessionsByUser(db: Database, userId: int): Database {
    db.(sessions := db.sessions.Without(SessionsOf(db, userId)))
  }

  function DeleteExpiredSessions(db: Database, now: int): Database {
    db.(sessions := db.sessions.Without(set s | s in db.sessions.rows && db.sessions.rows[s].expiresAt < now))
  }
}
