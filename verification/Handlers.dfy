/**
 * The request handlers of backend/handlers.go, each as one step: the checks a handler makes decide
 * either a refusal or the statements it executes.
 */
module Handlers {
  import opened Common
  import opened Model
  import opened Db
  import opened Integrity
  import opened Checks
  import ContentHash
  import Positions

  /** An entity tag: stamp is None for a tag no issue ever had. */
  datatype ETag = ETag(weak: bool, stamp: Option<int>)

  datatype Request =
    | CreateIssue(projectId: int, userId: int, body: Issue)
    | PutIssue(projectId: int, id: int, userId: int, ifMatch: Option<ETag>, body: Issue)
    | PutIssuePositions(projectId: int, updates: seq<PositionUpdate>)
    | ArchiveIssue(projectId: int, id: int)
    | UnarchiveIssue(projectId: int, id: int)
    | MoveIssue(projectId: int, id: int, userId: int, newProjectId: int)
    | DeleteIssue(projectId: int, id: int)
    | CreateTask(projectId: int, issueId: int, task: Task)
    | PutTask(projectId: int, issueId: int, id: int, task: Task)
    | PutTaskPositions(projectId: int, issueId: int, updates: seq<PositionUpdate>)
    | DeleteTask(projectId: int, issueId: int, id: int)
    | CreateComment(projectId: int, issueId: int, userId: int, text: string)
    | PutComment(projectId: int, issueId: int, id: int, author: Option<int>, text: string)
    | DeleteComment(projectId: int, issueId: int, id: int, author: Option<int>)
    | CreateProject
    | DeleteProject(id: int)
    | CreateLabel(projectId: int)
    | DeleteLabel(projectId: int, id: int)
    | CreateRelease(projectId: int, ownerId: Option<int>)
    | PutRelease(projectId: int, id: int, ownerId: Option<int>)
    | DeleteRelease(projectId: int, id: int)
    | TriggerRelease(projectId: int, id: int, archiveDone: bool)
    | ReopenRelease(projectId: int, id: int)
    | CreateUser(user: User)
    | UpdateUser(id: int, user: User, revoke: bool)
    | DeleteUser(id: int, userId: int, userName: string)

  datatype Decision = Refuse(status: nat) | Execute(statements: seq<Statement>)

  // ------------------------------------------------------------------------------ issue handlers

  function NormalizeETag(e: ETag): ETag { e.(weak := false) }

  function FormatETag(updatedAt: int): ETag { ETag(false, Some(updatedAt)) }

  /** checkIfMatchConflict, and the missing header that skips it. */
  predicate IfMatchConflict(current: Issue, ifMatch: Option<ETag>) {
    ifMatch.Some? && NormalizeETag(ifMatch.value) != NormalizeETag(FormatETag(current.updatedAt))
  }

  function DecideCreate(db: Database, projectId: int, userId: int, body: Issue, now: int): Decision {
    match ValidateIssue(body)
    case None => Refuse(400)
    case Some(valid) =>
      var i := valid.(projectId := projectId, creatorId := Some(userId), updaterId := Some(userId));
      if !AssigneePasses(db, i, None) || !LabelPasses(db, i) || !ReleasePasses(db, i) then Refuse(400)
      else Execute([Statement.InsertIssue(NewRow(db, i, now))])
  }

  /** persistIssueUpdate: only the position if nothing else changed, the whole row with a new stamp otherwise. */
  function Persist(id: int, i: Issue, current: Issue, now: int): seq<Statement> {
    if ContentHash.IssueContentHash(i) == ContentHash.IssueContentHash(current) then
      if i.position == current.position then [] else [Statement.UpdateIssuePosition(id, i.position)]
    else [Statement.UpdateIssue(id, i.(updatedAt := now))]
  }

  /** The row handlePutIssue wants to store for a validated body. */
  function PutRow(valid: Issue, current: Issue, projectId: int, userId: int): Issue {
    valid.(creatorId := current.creatorId, projectId := projectId, updaterId := Some(userId))
  }

  function DecidePut(db: Database, projectId: int, id: int, userId: int, ifMatch: Option<ETag>, body: Issue,
      now: int): Decision {
    match InProject(db, id, projectId)
    case None => Refuse(404)
    case Some(current) =>
      if IfMatchConflict(current, ifMatch) then Refuse(409)
      else match ValidateIssue(body)
        case None => Refuse(400)
        case Some(valid) =>
          var i := PutRow(valid, current, projectId, userId);
          if !AssigneePasses(db, i, Some(current)) || !LabelPasses(db, i) || !ReleasePasses(db, i) then Refuse(400)
          else if current.status == STATUS_ARCHIVE then Refuse(403)
          else if i.status == STATUS_ARCHIVE then Refuse(400)
          else Execute(Persist(id, i, current, now))
  }

  /** handleIssueArchiveToggle. */
  function DecideToggle(db: Database, projectId: int, id: int, archive: bool, now: int): Decision {
    match InProject(db, id, projectId)
    case None => Refuse(404)
    case Some(current) =>
      if (current.status == STATUS_ARCHIVE) == archive then Refuse(400)
      else
        var status := if archive then STATUS_ARCHIVE else STATUS_DONE;
        Execute([Statement.UpdateIssue(id, current.(status := status, updatedAt := now))])
  }

  function DecideMove(db: Database, projectId: int, id: int, userId: int, newProjectId: int, now: int): Decision {
    match InProject(db, id, projectId)
    case None => Refuse(404)
    case Some(current) =>
      if current.status == STATUS_ARCHIVE then Refuse(403)
      else if newProjectId <= 0 || newProjectId == projectId || newProjectId !in db.projects.rows then Refuse(400)
      else Execute([Statement.UpdateIssue(id, current.(projectId := newProjectId, labelId := None, releaseId := None,
                                                       status := STATUS_OPEN, updaterId := Some(userId),
                                                         updatedAt := now))])
  }

  function DecideDelete(db: Database, projectId: int, id: int): Decision {
    match InProject(db, id, projectId)
    case None => Refuse(404)
    case Some(current) => if current.status == STATUS_ARCHIVE then Refuse(403) else Execute([Statement.DeleteIssue(id)])
  }

  /** The project's own requests about issues; the project exists. */
  function DecideIssueRequest(db: Database, req: Request, now: int): Decision {
    match req
    case CreateIssue(projectId, userId, body) => DecideCreate(db, projectId, userId, body, now)
    case PutIssue(projectId, id, userId, ifMatch, body) => DecidePut(db, projectId, id, userId, ifMatch, body, now)
    case PutIssuePositions(projectId, updates) =>
      if Positions.ValidUpdates(updates) then Execute([Statement.UpdateIssuePositions(projectId, updates)])
        else Refuse(400)
    case ArchiveIssue(projectId, id) => DecideToggle(db, projectId, id, true, now)
    case UnarchiveIssue(projectId, id) => DecideToggle(db, projectId, id, false, now)
    case MoveIssue(projectId, id, userId, newProjectId) => DecideMove(db, projectId, id, userId, newProjectId, now)
    case DeleteIssue(projectId, id) => DecideDelete(db, projectId, id)
    case _ => Refuse(404)
  }

  // -------------------------------------------------------------------- task and comment handlers

  predicate IsChildRequest(req: Request) {
    || req.CreateTask? || req.PutTask? || req.PutTaskPositions? || req.DeleteTask?
    || req.CreateComment? || req.PutComment? || req.DeleteComment?
  }

  /** None for a body that fails its validation. */
  function ChildStatement(req: Request): Option<Statement>
    requires IsChildRequest(req)
  {
    match req
    case CreateTask(_, issueId, task) =>
      (match ValidateTask(task) case None => None case Some(t) => Some(InsertTask(t.(issueId := issueId))))
    case PutTask(_, issueId, id, task) =>
      (match ValidateTask(task) case None => None case Some(t) => Some(UpdateTask(issueId, id, t)))
    case PutTaskPositions(_, issueId, updates) =>
      if Positions.ValidUpdates(updates) then Some(UpdateTaskPositions(issueId, updates)) else None
    case DeleteTask(_, issueId, id) => Some(Statement.DeleteTask(issueId, id))
    case CreateComment(_, issueId, userId, text) =>
      (match ValidateComment(text) case None => None case Some(t) => Some(InsertComment(Comment(issueId, Some(userId),
        t, false))))
    case PutComment(_, issueId, id, author, text) =>
      (match ValidateComment(text) case None => None case Some(t) => Some(UpdateComment(issueId, id, author, t)))
    case DeleteComment(_, issueId, id, author) => Some(Statement.DeleteComment(issueId, id, author))
  }

  /** withIssue and withIssueResource, then the body, then the archive check. */
  function DecideChild(db: Database, req: Request): Decision
    requires IsChildRequest(req)
  {
    match InProject(db, req.issueId, req.projectId)
    case None => Refuse(404)
    case Some(issue) =>
      match ChildStatement(req)
      case None => Refuse(400)
      case Some(st) => if issue.status == STATUS_ARCHIVE then Refuse(403) else Execute([st])
  }

  // ------------------------------------------------------------ project, label and release handlers

  predicate IsParentRequest(req: Request) {
    || req.CreateLabel? || req.DeleteLabel? || req.CreateRelease? || req.PutRelease? || req.DeleteRelease?
    || req.TriggerRelease? || req.ReopenRelease?
  }

  function ReleaseInProject(db: Database, id: int, projectId: int): Option<Release> {
    if id in db.releases.rows && db.releases.rows[id].projectId == projectId then Some(db.releases.rows[id]) else None
  }

  function DecideParent(db: Database, req: Request, now: int): Decision
    requires IsParentRequest(req)
  {
    match req
    case CreateLabel(projectId) => Execute([InsertLabel(Label(projectId))])
    case DeleteLabel(projectId, id) => Execute([Statement.DeleteLabel(id, projectId)])
    case CreateRelease(projectId, ownerId) => Execute([InsertRelease(Release(projectId, false, ownerId))])
    case PutRelease(projectId, id, ownerId) =>
      (match ReleaseInProject(db, id, projectId)
       case None => Refuse(404)
       case Some(r) => if r.closed then Refuse(403) else Execute([UpdateRelease(id, ownerId)]))
    case DeleteRelease(projectId, id) =>
      if ReleaseInProject(db, id, projectId).None? then Refuse(404) else Execute([Statement.DeleteRelease(id)])
    case TriggerRelease(projectId, id, archiveDone) =>
      if ReleaseInProject(db, id, projectId).None? then Refuse(404)
      else Execute([SetReleaseClosed(id, true)] + if archiveDone then [ArchiveDone(id, now)] else [])
    case ReopenRelease(projectId, id) =>
      if ReleaseInProject(db, id, projectId).None? then Refuse(404) else Execute([SetReleaseClosed(id, false)])
  }

  // -------------------------------------------------------------------------------- all handlers

  /** The handlers outside any project. */
  function DecideGlobal(db: Database, req: Request, now: int): Decision {
    match req
    case CreateProject => Execute([InsertProject])
    case DeleteProject(id) =>
      if id == 1 || exists i :: i in db.issues.rows && db.issues.rows[i].projectId == id then Refuse(400)
      else Execute([Statement.DeleteProject(id)])
    case CreateUser(user) => Execute([InsertUser(user)])
    case UpdateUser(id, user, revoke) =>
      if id !in db.users.rows then Refuse(404)
      else Execute([Statement.UpdateUser(id, user)] + if revoke then [DeleteSessionsByUser(id)] else [])
    case DeleteUser(id, userId, userName) =>
      if id == userId then Refuse(400)
      else if id !in db.users.rows then Refuse(404)
      else Execute([Statement.DeleteUser(id, Some(userId), userName, now)])
    case _ => Refuse(404)
  }

  predicate IsIssueRequest(req: Request) {
    || req.CreateIssue? || req.PutIssue? || req.PutIssuePositions? || req.ArchiveIssue? || req.UnarchiveIssue?
    || req.MoveIssue? || req.DeleteIssue?
  }

  /** checkProjectAccess comes first in every route below a project. */
  function Decide(db: Database, req: Request, now: int): Decision {
    if !IsIssueRequest(req) && !IsChildRequest(req) && !IsParentRequest(req) then DecideGlobal(db, req, now)
    else if req.projectId !in db.projects.rows then Refuse(404)
    else if IsIssueRequest(req) then DecideIssueRequest(db, req, now)
    else if IsChildRequest(req) then DecideChild(db, req)
    else DecideParent(db, req, now)
  }

  function ErrorStatus(e: DbError): nat {
    match e
    case NotFound => 404
    case ForeignKey => 500
    case DuplicateEmail => 409
    case LastSysAdmin => 400
  }

  /** The statements of a handler, up to the first that fails. */
  function Perform(db: Database, statements: seq<Statement>): (Database, nat)
    decreases |statements|
  {
    if statements == [] then (db, 200)
    else match Try(db, statements[0])
      case Err(e) => (db, ErrorStatus(e))
      case Ok(after) => Perform(after, statements[1..])
  }

  /** One request: the database after it and the status of the answer. */
  function Handle(db: Database, req: Request, now: int): (Database, nat) {
    match Decide(db, req, now)
    case Refuse(status) => (db, status)
    case Execute(statements) => Perform(db, statements)
  }

  lemma {:induction false} PerformOne(db: Database, st: Statement)
    ensures Try(db, st).Ok? ==> Perform(db, [st]) == (Try(db, st).value, 200)
    ensures Try(db, st).Err? ==> Perform(db, [st]) == (db, ErrorStatus(Try(db, st).error))
  {
    assert [st][1..] == [];
  }

  // ------------------------------------------------------------------ what a request may write

  /** Whatever a statement stamps, it stamps with the current time. */
  predicate Stamped(st: Statement, now: int) {
    && (st.InsertIssue? || st.UpdateIssue? ==> st.issue.updatedAt == now)
    && (st.ArchiveDone? || st.DeleteUser? ==> st.now == now)
  }

  lemma {:induction false} IssueDecisionStamped(db: Database, req: Request, now: int)
    requires DecideIssueRequest(db, req, now).Execute?
    ensures forall k :: 0 <= k < |DecideIssueRequest(db, req, now).statements| ==>
      Stamped(DecideIssueRequest(db, req, now).statements[k], now)
  {
    hide ValidateIssue, ContentHash.IssueContentHash, Positions.ValidUpdates, AssigneePasses, LabelPasses,
         ReleasePasses;
  }

  lemma {:induction false} DecisionStamped(db: Database, req: Request, now: int)
    requires Decide(db, req, now).Execute?
    ensures forall k :: 0 <= k < |Decide(db, req, now).statements| ==> Stamped(Decide(db, req, now).statements[k], now)
  {
    hide DecideIssueRequest, ValidateTask, ValidateComment, Positions.ValidUpdates;
    if IsIssueRequest(req) {
      IssueDecisionStamped(db, req, now);
    }
  }
}
