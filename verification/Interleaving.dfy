/**
 * Handlers that run at the same time: every SQL statement is one step, and the statements of
 * different requests interleave freely between a handler's checks and its write.
 */
module Interleaving {
  import opened Common
  import opened Model
  import opened Db
  import opened Integrity
  import opened Checks
  import ContentHash

  /**
   * The handlers of backend/handlers.go that check or read first and write later; at counts the
   * statements already done. issue is what the handler will write, current what it has read.
   */
  datatype Handler =
    | Create(at: nat, projectId: int, issue: Issue)
    | Put(at: nat, projectId: int, id: int, issue: Issue, current: Option<Issue>)
    | Toggle(at: nat, projectId: int, id: int, archive: bool, current: Option<Issue>)
    | Move(at: nat, projectId: int, id: int, newProjectId: int, userId: int, current: Option<Issue>)
    | Finished

  /** handleCreateIssue: project, assignee, label, release, MAX(position), INSERT. */
  function StepCreate(db: Database, at: nat, projectId: int, issue: Issue, now: int): (Database, Handler) {
    if at == 0 then (db, if projectId in db.projects.rows then Create(1, projectId, issue.(projectId := projectId))
      else Finished)
    else if at == 1 then (db, if AssigneePasses(db, issue, None) then Create(2, projectId, issue) else Finished)
    else if at == 2 then (db, if LabelPasses(db, issue) then Create(3, projectId, issue) else Finished)
    else if at == 3 then (db, if ReleasePasses(db, issue) then Create(4, projectId, issue) else Finished)
    else if at == 4 then (db, Create(5, projectId, NewRow(db, issue, now)))
    else (Exec(db, InsertIssue(issue)), Finished)
  }

  /** handlePutIssue after its If-Match check: project, SELECT, assignee, label, release, UPDATE. */
  function StepPut(db: Database, at: nat, projectId: int, id: int, issue: Issue, current: Option<Issue>, now: int):
    (Database, Handler)
  {
    if at == 0 then
      (db, if projectId in db.projects.rows then Put(1, projectId, id, issue.(projectId := projectId), current)
        else Finished)
    else if at == 1 then
      var found := InProject(db, id, projectId);
      (db, if found.Some? then Put(2, projectId, id, issue, found) else Finished)
    else if at == 2 then (db, if AssigneePasses(db, issue, current) then Put(3, projectId, id, issue, current)
      else Finished)
    else if at == 3 then (db, if LabelPasses(db, issue) then Put(4, projectId, id, issue, current) else Finished)
    else if at == 4 then (db, if ReleasePasses(db, issue) then Put(5, projectId, id, issue, current) else Finished)
    else if current.None? || current.value.status == STATUS_ARCHIVE || issue.status == STATUS_ARCHIVE
      then (db, Finished)
    else if ContentHash.IssueContentHash(issue) == ContentHash.IssueContentHash(current.value) then
      (if issue.position == current.value.position then db
        else Exec(db, UpdateIssuePosition(id, issue.position)), Finished)
    else (Exec(db, UpdateIssue(id, issue.(updatedAt := now))), Finished)
  }

  /** handleIssueArchiveToggle: project, SELECT, UPDATE of the whole row as it was read. */
  function StepToggle(db: Database, at: nat, projectId: int, id: int, archive: bool, current: Option<Issue>, now: int):
    (Database, Handler)
  {
    if at == 0 then (db, if projectId in db.projects.rows then Toggle(1, projectId, id, archive, current) else Finished)
    else if at == 1 then
      var found := InProject(db, id, projectId);
      (db, if found.Some? && (found.value.status == STATUS_ARCHIVE) != archive
           then Toggle(2, projectId, id, archive, found) else Finished)
    else if current.None? then (db, Finished)
    else
      var status := if archive then STATUS_ARCHIVE else STATUS_DONE;
      (Exec(db, UpdateIssue(id, current.value.(status := status, updatedAt := now))), Finished)
  }

  /** handleMoveIssue: project, SELECT, target project, UPDATE. */
  function StepMove(db: Database, at: nat, projectId: int, id: int, newProjectId: int, userId: int,
      current: Option<Issue>, now: int):
    (Database, Handler)
  {
    if at == 0 then (db, if projectId in db.projects.rows then Move(1, projectId, id, newProjectId, userId, current)
      else Finished)
    else if at == 1 then
      var found := InProject(db, id, projectId);
      (db, if found.Some? && found.value.status != STATUS_ARCHIVE && newProjectId != projectId
           then Move(2, projectId, id, newProjectId, userId, found) else Finished)
    else if at == 2 then
      (db, if newProjectId in db.projects.rows then Move(3, projectId, id, newProjectId, userId, current) else Finished)
    else if current.None? then (db, Finished)
    else
      (Exec(db, UpdateIssue(id, current.value.(
         projectId := newProjectId, labelId := None, releaseId := None, status := STATUS_OPEN,
         updaterId := Some(userId), updatedAt := now))), Finished)
  }

  function StepHandler(db: Database, h: Handler, now: int): (Database, Handler) {
    match h
    case Create(at, projectId, issue) => StepCreate(db, at, projectId, issue, now)
    case Put(at, projectId, id, issue, current) => StepPut(db, at, projectId, id, issue, current, now)
    case Toggle(at, projectId, id, archive, current) => StepToggle(db, at, projectId, id, archive, current, now)
    case Move(at, projectId, id, newProjectId, userId, current) =>
      StepMove(db, at, projectId, id, newProjectId, userId, current, now)
    case Finished => (db, Finished)
  }

  datatype World = World(db: Database, handlers: seq<Handler>)

  /** Begin starts a request, Advance runs its next statement, Other is a statement of any other handler. */
  datatype Step = Begin(handler: Handler) | Advance(index: nat, now: int) | Other(statement: Statement)

  ghost predicate Enabled(w: World, step: Step) {
    match step
    case Begin(h) => h != Finished ==> h.at == 0
    case Advance(i, _) => i < |w.handlers|
    case Other(st) => !st.InsertIssue? && !st.UpdateIssue?
  }

  function Next(w: World, step: Step): World {
    match step
    case Begin(h) => w.(handlers := w.handlers + [h])
    case Advance(i, now) =>
      if i >= |w.handlers| then w
      else
        var (db, h) := StepHandler(w.db, w.handlers[i], now);
        World(db, w.handlers[i := h])
    case Other(st) => w.(db := Exec(w.db, st))
  }

  /** What a handler in progress knows about what it is going to write. */
  ghost predicate Sound(db: Database, h: Handler) {
    match h
    case Create(at, projectId, issue) =>
      && (at >= 1 ==> issue.projectId == projectId)
      && (at >= 3 ==> LabelKnown(db, projectId, issue.labelId))
      && (at >= 4 ==> ReleaseKnown(db, projectId, issue.releaseId))
    case Put(at, projectId, _, issue, _) =>
      && (at >= 1 ==> issue.projectId == projectId)
      && (at >= 4 ==> LabelKnown(db, projectId, issue.labelId))
      && (at >= 5 ==> ReleaseKnown(db, projectId, issue.releaseId))
    case Toggle(at, _, _, _, current) => at >= 2 && current.Some? ==> Known(db, current.value)
    case Move(_, _, _, _, _, _) => true
    case Finished => true
  }

  ghost predicate Inv(w: World) {
    Valid(w.db) && Consistent(w.db) && forall i :: 0 <= i < |w.handlers| ==> Sound(w.db, w.handlers[i])
  }

  lemma {:induction false} SoundLater(db: Database, after: Database, h: Handler)
    requires Sound(db, h) && Later(db, after)
    ensures Sound(after, h)
  {
  }

  lemma {:induction false} FitsKnown(db: Database, i: Issue)
    requires TablesValid(db) && Fits(db, i)
    ensures Known(db, i)
  {
  }

  /** One handler step is at most one statement, and it writes only references it knows. */
  lemma {:induction false} HandlerWrites(db: Database, h: Handler, now: int) returns (st: Option<Statement>)
    requires Sound(db, h)
    ensures StepHandler(db, h, now).0 == if st.None? then db else Exec(db, st.value)
    ensures st.Some? && (st.value.InsertIssue? || st.value.UpdateIssue?) ==> Known(db, st.value.issue)
  {
    hide Exec, ContentHash.IssueContentHash;
    st := None;
    match h
    case Create(at, _, issue) =>
      if at >= 5 { st := Some(InsertIssue(issue)); }
    case Put(at, _, id, issue, current) =>
      if at >= 5 && current.Some? && current.value.status != STATUS_ARCHIVE && issue.status != STATUS_ARCHIVE {
        if ContentHash.IssueContentHash(issue) != ContentHash.IssueContentHash(current.value) {
          st := Some(UpdateIssue(id, issue.(updatedAt := now)));
        } else if issue.position != current.value.position {
          st := Some(UpdateIssuePosition(id, issue.position));
        }
      }
    case Toggle(at, _, id, archive, current) =>
      if at >= 2 && current.Some? {
        st := Some(UpdateIssue(id, current.value.(
          status := if archive then STATUS_ARCHIVE else STATUS_DONE, updatedAt := now)));
      }
    case Move(at, _, id, newProjectId, userId, current) =>
      if at >= 3 && current.Some? {
        st := Some(UpdateIssue(id, current.value.(projectId := newProjectId, labelId := None, releaseId := None,
                                                  status := STATUS_OPEN, updaterId := Some(userId), updatedAt := now)));
      }
    case Finished =>
  }

  /** After its step the handler knows what the next steps rely on. */
  lemma {:induction false} HandlerStaysSound(db: Database, h: Handler, now: int)
    requires Valid(db) && Consistent(db) && Sound(db, h)
    ensures Sound(StepHandler(db, h, now).0, StepHandler(db, h, now).1)
  {
    hide Exec, ContentHash.IssueContentHash, RefsValid;
    if h.Toggle? && h.at == 1 {
      var current := InProject(db, h.id, h.projectId);
      if current.Some? {
        FitsKnown(db, current.value);
      }
    }
  }

  lemma {:induction false} StepConsistent(db: Database, st: Statement)
    requires Valid(db) && Consistent(db)
    requires st.InsertIssue? || st.UpdateIssue? ==> Known(db, st.issue)
    ensures Valid(Exec(db, st)) && Consistent(Exec(db, st)) && Later(db, Exec(db, st))
  {
    ExecValid(db, st);
    ExecLater(db, st);
    if st.InsertIssue? || st.UpdateIssue? {
      WriteConsistent(db, st);
    } else {
      OthersConsistent(db, st);
    }
  }

  lemma {:induction false} NextKeepsInv(w: World, step: Step)
    requires Inv(w) && Enabled(w, step)
    ensures Inv(Next(w, step))
  {
    hide Valid, Consistent, Exec, Sound, StepHandler, Later, Known;
    match step
    case Begin(h) => assert Sound(w.db, h) by { NothingKnownYet(w.db, h); }
    case Advance(i, now) =>
      var h := w.handlers[i];
      var after := StepHandler(w.db, h, now).0;
      var st := HandlerWrites(w.db, h, now);
      HandlerStaysSound(w.db, h, now);
      if st.Some? {
        StepConsistent(w.db, st.value);
        OthersStaySound(w, after);
      }
    case Other(st) =>
      StepConsistent(w.db, st);
      OthersStaySound(w, Exec(w.db, st));
  }

  lemma {:induction false} NothingKnownYet(db: Database, h: Handler)
    requires h != Finished ==> h.at == 0
    ensures Sound(db, h)
  {
  }

  lemma {:induction false} OthersStaySound(w: World, after: Database)
    requires Inv(w) && Later(w.db, after)
    ensures forall i :: 0 <= i < |w.handlers| ==> Sound(after, w.handlers[i])
  {
    forall i | 0 <= i < |w.handlers| ensures Sound(after, w.handlers[i]) {
      SoundLater(w.db, after, w.handlers[i]);
    }
  }

  // ------------------------------------------------------------------------------------ all runs

  /** The schema createTables sets up: only the default project. */
  const EMPTY_DB := Database(
    Table(map[1 := ()], 2), Table(map[], 1), Table(map[], 1), Table(map[], 1), Table(map[], 1),
    Table(map[], 1), Table(map[], 1), Table(map[], 1), Table(map[], 1))

  ghost predicate Run(ws: seq<World>, steps: seq<Step>) {
    && |ws| == |steps| + 1
    && forall k :: 0 <= k < |steps| ==> Enabled(ws[k], steps[k]) && ws[k + 1] == Next(ws[k], steps[k])
  }

  lemma {:induction false} RunKeepsInv(ws: seq<World>, steps: seq<Step>, k: nat)
    requires Run(ws, steps) && k < |ws| && Inv(ws[0])
    ensures Inv(ws[k])
  {
    if k > 0 {
      RunKeepsInv(ws, steps, k - 1);
      NextKeepsInv(ws[k - 1], steps[k - 1]);
    }
  }

  /**
   * In every state any interleaving can reach, the label and the release of every issue exist and
   * belong to the issue's own project, and every foreign key points to a row.
   */
  lemma {:induction false} AlwaysConsistent(ws: seq<World>, steps: seq<Step>, k: nat)
    requires Run(ws, steps) && k < |ws| && ws[0] == World(EMPTY_DB, [])
    ensures Consistent(ws[k].db) && RefsValid(ws[k].db)
  {
    RunKeepsInv(ws, steps, k);
  }

  /** The user tables of a step change by at most one statement, with whatever stale values it carries. */
  lemma {:induction false} StepKeepsSysAdmin(w: World, step: Step)
    requires Inv(w) && Enabled(w, step) && HasSysAdmin(w.db)
    ensures HasSysAdmin(Next(w, step).db)
  {
    match step
    case Begin(_) =>
    case Advance(i, now) =>
      var st := HandlerWrites(w.db, w.handlers[i], now);
      if st.Some? {
        ExecKeepsSysAdmin(w.db, st.value);
      }
    case Other(st) => ExecKeepsSysAdmin(w.db, st);
  }

  /** Once there is an active sysadmin, every later state of every interleaving has one. */
  lemma {:induction false} SysAdminForever(ws: seq<World>, steps: seq<Step>, j: nat, k: nat)
    requires Run(ws, steps) && j <= k < |ws| && Inv(ws[0]) && HasSysAdmin(ws[j].db)
    ensures HasSysAdmin(ws[k].db)
  {
    if j < k {
      SysAdminForever(ws, steps, j, k - 1);
      RunKeepsInv(ws, steps, k - 1);
      StepKeepsSysAdmin(ws[k - 1], steps[k - 1]);
    }
  }

  /** EnsureInitialAdmin: the first user is an active sysadmin, and an existing user is left alone. */
  function EnsureInitialAdmin(db: Database, email: string, passwordHash: string): Database {
    if |db.users.rows| > 0 then db
    else Exec(db, InsertUser(User(email, "Admin", "User", passwordHash, ROLE_SYSADMIN, true)))
  }

  lemma {:induction false} StartupHasSysAdmin(email: string, passwordHash: string)
    ensures var db := EnsureInitialAdmin(EMPTY_DB, email, passwordHash); Inv(World(db, [])) && HasSysAdmin(db)
  {
    var db := EnsureInitialAdmin(EMPTY_DB, email, passwordHash);
    assert |EMPTY_DB.users.rows| == 0;
    assert 1 in db.users.rows && IsActiveSysAdmin(db.users.rows[1]);
  }

  /** From an empty database on, startup and every run after it keep an active sysadmin. */
  lemma {:induction false} SysAdminFromStartup(email: string, passwordHash: string, ws: seq<World>, steps: seq<Step>,
      k: nat)
    requires Run(ws, steps) && k < |ws| && ws[0] == World(EnsureInitialAdmin(EMPTY_DB, email, passwordHash), [])
    ensures HasSysAdmin(ws[k].db)
  {
    hide EnsureInitialAdmin, HasSysAdmin;
    StartupHasSysAdmin(email, passwordHash);
    SysAdminForever(ws, steps, 0, k);
  }
}
