/** handlePutIssue as a whole: what an accepted, a refused and a position-only save leave behind. */
module PutIssue {
  import opened Common
  import opened Model
  import opened Db
  import opened Integrity
  import opened Checks
  import opened Handlers
  import opened ContentHash

  // ------------------------------------------------------------------------- every stored row

  /** Every row has been through validateIssue and references only real ids. */
  ghost predicate Stored(db: Database) {
    forall id :: id in db.issues.rows ==> Hashable(db.issues.rows[id])
  }

  ghost predicate WritesHashable(st: Statement) {
    st.InsertIssue? || st.UpdateIssue? ==> Hashable(st.issue)
  }

  /** The columns a row is hashed by, and nothing else, decide whether it is Hashable. */
  lemma {:induction false} HashableKept(a: Issue, b: Issue)
    requires Hashable(a)
    requires a.title == b.title && a.description == b.description && a.priority == b.priority
    requires a.deadline == b.deadline && a.planned == b.planned
    requires b.status == a.status || b.status == STATUS_ARCHIVE || b.status == STATUS_DONE || b.status == STATUS_OPEN
    requires b.labelId == a.labelId || b.labelId.None?
    requires b.releaseId == a.releaseId || b.releaseId.None?
    requires b.assigneeId == a.assigneeId || b.assigneeId.None?
    ensures Hashable(b)
  {
  }

  lemma {:induction false} PositionsStored(db: Database, projectId: int, updates: seq<PositionUpdate>)
    requires Stored(db) && Db.UpdateIssuePositions(db, projectId, updates).Ok?
    ensures Stored(Db.UpdateIssuePositions(db, projectId, updates).value)
    decreases |updates|
  {
    hide Hashable;
    if updates != [] {
      var row := db.issues.rows[updates[0].id].(position := updates[0].position);
      HashableKept(db.issues.rows[updates[0].id], row);
      PositionsStored(db.(issues := db.issues.Put(updates[0].id, row)), projectId, updates[1..]);
    }
  }

  lemma {:induction false} UnlinkStored(db: Database, labels: set<int>, releases: set<int>, users: set<int>)
    requires Stored(db)
    ensures Stored(db.(issues := UnlinkIssues(db.issues, labels, releases, users)))
  {
    hide Hashable;
    var after := UnlinkIssues(db.issues, labels, releases, users);
    forall id | id in after.rows ensures Hashable(after.rows[id]) {
      HashableKept(db.issues.rows[id], after.rows[id]);
    }
  }

  lemma {:induction false} UnassignStored(db: Database, userId: int, actor: Option<int>, now: int)
    requires Stored(db)
    ensures Stored(db.(issues := Unassign(db.issues, userId, actor, now)))
  {
    hide Hashable;
    var after := Unassign(db.issues, userId, actor, now);
    forall id | id in after.rows ensures Hashable(after.rows[id]) {
      HashableKept(db.issues.rows[id], after.rows[id]);
    }
  }

  lemma {:induction false} SameIssuesStored(db: Database, after: Database)
    requires Stored(db) && after.issues == db.issues
    ensures Stored(after)
  {
  }

  lemma {:induction false} IssueStatementStored(db: Database, st: Statement)
    requires db.issues.Valid() && Stored(db) && TouchesIssues(st) && WritesHashable(st)
    ensures Stored(Exec(db, st))
  {
    hide Hashable, IssueRefs, TasksOf, CommentsOf, HistoryOf;
    var after := Exec(db, st);
    forall id | id in after.issues.rows ensures Hashable(after.issues.rows[id]) {
      if id in db.issues.rows {
        if !(st.UpdateIssue? && st.id == id) {
          HashableKept(db.issues.rows[id], after.issues.rows[id]);
        } else if Try(db, st).Ok? {
          assert after.issues.rows[id] == st.issue.(creatorId := db.issues.rows[id].creatorId);
          HashableKept(st.issue, after.issues.rows[id]);
        }
      }
    }
  }

  lemma {:induction false} ExecStored(db: Database, st: Statement)
    requires Valid(db) && Stored(db) && WritesHashable(st)
    ensures Stored(Exec(db, st))
  {
    hide Stored, RefsValid, Db.DeleteUser, UnlinkIssues, Unassign;
    if TouchesIssues(st) {
      IssueStatementStored(db, st);
    } else if TouchesTasks(st) || TouchesSessions(st) || st.UpdateTaskPositions? {
      OnlyTasks(db, st);
      SameIssuesStored(db, Exec(db, st));
    } else if TouchesParents(st) {
      SameIssuesStored(db, Exec(db, st));
    } else {
      match st
      case UpdateIssuePositions(projectId, updates) =>
        if Try(db, st).Ok? { PositionsStored(db, projectId, updates); }
      case DeleteUser(id, actor, userName, now) => DeleteUserStored(db, id, actor, userName, now);
      case DeleteProject(id) => RemoveStored(db, LabelsOf(db, id), ReleasesOf(db, id)); DeleteProjectStored(db, id);
      case DeleteLabel(id, projectId) => RemoveStored(db, {id}, {});
      case DeleteRelease(id) => RemoveStored(db, {}, {id});
    }
  }

  lemma {:induction false} RemoveStored(db: Database, labels: set<int>, releases: set<int>)
    requires Stored(db)
    ensures Stored(RemoveLabels(db, labels)) && Stored(RemoveReleases(db, releases))
    ensures Stored(RemoveReleases(RemoveLabels(db, labels), releases))
  {
    hide Hashable, UnlinkIssues;
    UnlinkStored(db, labels, {}, {});
    UnlinkStored(db, {}, releases, {});
    UnlinkStored(RemoveLabels(db, labels), {}, releases, {});
  }

  lemma {:induction false} DeleteProjectStored(db: Database, id: int)
    requires Stored(db) && Stored(RemoveReleases(RemoveLabels(db, LabelsOf(db, id)), ReleasesOf(db, id)))
    ensures Stored(Exec(db, Statement.DeleteProject(id)))
  {
    hide Hashable, UnlinkIssues;
  }

  lemma {:induction false} DeleteUserStored(db: Database, id: int, actor: Option<int>, userName: string, now: int)
    requires Stored(db)
    ensures Stored(Exec(db, Statement.DeleteUser(id, actor, userName, now)))
  {
    hide Hashable, InsertHistory, UnlinkIssues, Unassign;
    UnassignStored(db, id, actor, now);
    UnlinkStored(db.(issues := Unassign(db.issues, id, actor, now)), {}, {}, {id});
  }

  /** A row that passed validation and the reference checks is Hashable. */
  lemma {:induction false} CheckedHashable(db: Database, body: Issue, i: Issue, current: Option<Issue>)
    requires Valid(db) && Decodable(body) && ValidateIssue(body).Some?
    requires i == ValidateIssue(body).value.(creatorId := i.creatorId, projectId := i.projectId,
        updaterId := i.updaterId)
    requires AssigneePasses(db, i, current) && LabelPasses(db, i) && ReleasePasses(db, i)
    ensures Hashable(i)
  {
    hide RefsValid, ValidateIssue;
    ValidateIssueValidated(body);
  }

  ghost predicate BodyDecodable(req: Request) {
    req.CreateIssue? || req.PutIssue? ==> Decodable(req.body)
  }

  lemma {:induction false} IssueDecisionHashable(db: Database, req: Request, now: int)
    requires Valid(db) && Stored(db) && BodyDecodable(req) && DecideIssueRequest(db, req, now).Execute?
    ensures forall k :: 0 <= k < |DecideIssueRequest(db, req, now).statements| ==>
      WritesHashable(DecideIssueRequest(db, req, now).statements[k])
  {
    hide Valid, Hashable, ValidateIssue, IssueContentHash, EndPosition, AssigneePasses, LabelPasses, ReleasePasses,
         Positions.ValidUpdates;
    match req
    case CreateIssue(projectId, userId, body) =>
      var i := ValidateIssue(body).value.(projectId := projectId, creatorId := Some(userId), updaterId := Some(userId));
      CheckedHashable(db, body, i, None);
      var placed := DecideIssueRequest(db, req, now).statements[0].issue;
      PriorityKept(i, placed, now);
    case PutIssue(projectId, id, userId, ifMatch, body) =>
      var current := db.issues.rows[id];
      var i := PutRow(ValidateIssue(body).value, current, projectId, userId);
      CheckedHashable(db, body, i, Some(current));
      HashableKept(i, i.(updatedAt := now));
    case ArchiveIssue(projectId, id) => HashableKept(db.issues.rows[id],
      db.issues.rows[id].(status := STATUS_ARCHIVE, updatedAt := now));
    case UnarchiveIssue(projectId, id) => HashableKept(db.issues.rows[id],
      db.issues.rows[id].(status := STATUS_DONE, updatedAt := now));
    case MoveIssue(projectId, id, userId, newProjectId) =>
      HashableKept(db.issues.rows[id],
        db.issues.rows[id].(projectId := newProjectId, labelId := None, releaseId := None,
                                          status := STATUS_OPEN, updaterId := Some(userId), updatedAt := now));
    case _ =>
  }

  lemma {:induction false} PriorityKept(i: Issue, placed: Issue, now: int)
    requires Hashable(i)
    requires placed == i.(priority := placed.priority, position := placed.position, updatedAt := now)
    requires placed.priority == i.priority || placed.priority == PRIORITY_NORMAL
    ensures Hashable(placed)
  {
  }

  lemma {:induction false} DecisionHashable(db: Database, req: Request, now: int)
    requires Valid(db) && Stored(db) && BodyDecodable(req) && Decide(db, req, now).Execute?
    ensures forall k :: 0 <= k < |Decide(db, req, now).statements| ==>
        WritesHashable(Decide(db, req, now).statements[k])
  {
    hide Valid, Stored, Hashable, DecideIssueRequest, ValidateTask, ValidateComment, Positions.ValidUpdates;
    if IsIssueRequest(req) {
      IssueDecisionHashable(db, req, now);
    }
  }

  lemma {:induction false} PerformStored(db: Database, statements: seq<Statement>)
    requires Valid(db) && Stored(db) && forall k :: 0 <= k < |statements| ==> WritesHashable(statements[k])
    ensures Stored(Perform(db, statements).0)
    decreases |statements|
  {
    hide Valid, Stored, Try, WritesHashable;
    if statements != [] && Try(db, statements[0]).Ok? {
      ExecValid(db, statements[0]);
      ExecStored(db, statements[0]);
      PerformStored(Exec(db, statements[0]), statements[1..]);
    }
  }

  /** Every request keeps every stored row validated, so the content hash stays exact on stored rows. */
  lemma {:induction false} HandleStored(db: Database, req: Request, now: int)
    requires Valid(db) && Stored(db) && BodyDecodable(req)
    ensures Stored(Handle(db, req, now).0)
  {
    hide Valid, Stored, Perform, Decide, WritesHashable;
    if Decide(db, req, now).Execute? {
      DecisionHashable(db, req, now);
      PerformStored(db, Decide(db, req, now).statements);
    }
  }

  // --------------------------------------------------------------------- the position-only path

  /**
   * What persistIssueUpdate leaves is what writing the whole row always would leave, except that
   * the stamp and the updater stay and the stored spelling of the deadline and of no dates does.
   */
  lemma {:induction false} FastPathRefines(db: Database, id: int, i: Issue, now: int)
    requires id in db.issues.rows && IssueRefs(db, i) && i.creatorId == db.issues.rows[id].creatorId
    requires Hashable(i) && Hashable(db.issues.rows[id])
    ensures var current := db.issues.rows[id];
            var slow := Db.UpdateIssue(db, id, i.(updatedAt := now));
            var (fast, status) := Perform(db, Persist(id, i, current, now));
      && slow.Ok? && status == 200
      && (!SameContent(i, current) ==> fast == slow.value)
      && (SameContent(i, current) ==>
            && id in fast.issues.rows
            && ToSecond(fast.issues.rows[id].deadline) == ToSecond(i.deadline)
            && Dates(fast.issues.rows[id].planned) == Dates(i.planned)
            && slow.value == fast.(issues := fast.issues.Put(id, fast.issues.rows[id].(
                 updatedAt := now, updaterId := i.updaterId, deadline := i.deadline, planned := i.planned))))
  {
    hide Hashable, IssueContentHash;
    var current := db.issues.rows[id];
    HashExact(i, current);
    PerformOne(db, Statement.UpdateIssuePosition(id, i.position));
    PerformOne(db, Statement.UpdateIssue(id, i.(updatedAt := now)));
    var fast := Perform(db, Persist(id, i, current, now)).0;
    var slow := Db.UpdateIssue(db, id, i.(updatedAt := now)).value;
    if SameContent(i, current) {
      assert slow.issues.rows[id] == fast.issues.rows[id].(
        updatedAt := now, updaterId := i.updaterId, deadline := i.deadline, planned := i.planned);
      assert slow.issues.rows == fast.issues.rows[id := slow.issues.rows[id]];
    }
  }

  // ------------------------------------------------------------------------------- the whole PUT

  /**
   * The row after an accepted PUT: without new content it keeps all but its position, its stamp
   * included; with new content it is the row that was sent, stamped now.
   */
  predicate Saved(current: Issue, i: Issue, row: Issue, now: int) {
    && SameContent(row, i) && row.position == i.position && row.creatorId == current.creatorId
    && row == (if SameContent(i, current) then current.(position := i.position) else i.(updatedAt := now))
  }

  lemma {:induction false} PersistSaves(db: Database, id: int, i: Issue, now: int)
    requires id in db.issues.rows && Hashable(i) && Hashable(db.issues.rows[id])
        && i.creatorId == db.issues.rows[id].creatorId
    ensures var current := db.issues.rows[id];
            var (after, status) := Perform(db, Persist(id, i, current, now));
      && (status != 200 ==> after == db && !IssueRefs(db, i))
      && (status == 200 ==>
            && id in after.issues.rows && Saved(current, i, after.issues.rows[id], now)
            && after == db.(issues := db.issues.Put(id, after.issues.rows[id])))
  {
    hide Hashable, IssueContentHash;
    var current := db.issues.rows[id];
    HashExact(i, current);
    PerformOne(db, Statement.UpdateIssuePosition(id, i.position));
    PerformOne(db, Statement.UpdateIssue(id, i.(updatedAt := now)));
    var after := Perform(db, Persist(id, i, current, now)).0;
    if SameContent(i, current) && i.position == current.position {
      assert db.issues.Put(id, current).rows == db.issues.rows;
    }
  }

  /** The preconditions handlePutIssue checks, in any order. */
  predicate PutAllowed(db: Database, req: Request)
    requires req.PutIssue?
  {
    && req.projectId in db.projects.rows
    && InProject(db, req.id, req.projectId).Some?
    && var current := db.issues.rows[req.id];
       && !IfMatchConflict(current, req.ifMatch) && current.status != STATUS_ARCHIVE
       && ValidateIssue(req.body).Some?
       && var i := PutRow(ValidateIssue(req.body).value, current, req.projectId, req.userId);
          && i.status != STATUS_ARCHIVE
          && AssigneePasses(db, i, Some(current)) && LabelPasses(db, i) && ReleasePasses(db, i)
  }

  lemma {:induction false} PutRowRefs(db: Database, i: Issue, current: Issue, id: int)
    requires Valid(db) && id in db.issues.rows && db.issues.rows[id] == current
    requires i.creatorId == current.creatorId && i.projectId in db.projects.rows
    requires AssigneePasses(db, i, Some(current)) && LabelPasses(db, i) && ReleasePasses(db, i)
    ensures IssueRefs(db, i) <==> Exists(db.users, i.updaterId)
  {
    assert IssueRefs(db, current);
  }

  /**
   * A PUT changes one row or nothing. With an actor that exists, it is accepted exactly if all
   * checks pass, and its row is then Saved; 409 means exactly that the tag is not the current one.
   */
  lemma {:induction false} PutExact(db: Database, req: Request, now: int)
    requires Valid(db) && Stored(db) && req.PutIssue? && Decodable(req.body)
    ensures var (after, status) := Handle(db, req, now);
      && (status == 200 ==> PutAllowed(db, req))
      && (PutAllowed(db, req) && req.userId in db.users.rows ==> status == 200)
      && (status != 200 ==> after == db)
      && (status == 200 ==>
            var current := db.issues.rows[req.id];
            && req.id in after.issues.rows
            && Saved(current, PutRow(ValidateIssue(req.body).value, current, req.projectId, req.userId),
                  after.issues.rows[req.id], now)
            && after == db.(issues := db.issues.Put(req.id, after.issues.rows[req.id])))
      && (status == 409 <==> req.projectId in db.projects.rows && InProject(db, req.id, req.projectId).Some?
                             && IfMatchConflict(db.issues.rows[req.id], req.ifMatch))
  {
    hide Valid, Hashable, ValidateIssue, IssueRefs, AssigneePasses, LabelPasses, ReleasePasses, Saved, Persist, Perform;
    if PutAllowed(db, req) {
      var current := db.issues.rows[req.id];
      var i := PutRow(ValidateIssue(req.body).value, current, req.projectId, req.userId);
      CheckedHashable(db, req.body, i, Some(current));
      PersistSaves(db, req.id, i, now);
      PersistStatus(db, req.id, i, current, now);
      PutRowRefs(db, i, current, req.id);
    }
  }

  lemma {:induction false} PersistStatus(db: Database, id: int, i: Issue, current: Issue, now: int)
    requires id in db.issues.rows
    ensures Perform(db, Persist(id, i, current, now)).1 in {200, 500}
  {
    hide IssueContentHash;
    PerformOne(db, Statement.UpdateIssuePosition(id, i.position));
    PerformOne(db, Statement.UpdateIssue(id, i.(updatedAt := now)));
  }

  /**
   * A move changes one row or nothing: it takes label and release away, reopens the issue and
   * stamps it, for an issue that is not archived and another project that exists.
   */
  lemma {:induction false} MoveExact(db: Database, projectId: int, id: int, userId: int, newProjectId: int, now: int)
    requires Valid(db)
    ensures var (after, status) := Handle(db, MoveIssue(projectId, id, userId, newProjectId), now);
      && (status == 200 <==>
            && InProject(db, id, projectId).Some? && db.issues.rows[id].status != STATUS_ARCHIVE
            && newProjectId > 0 && newProjectId != projectId && newProjectId in db.projects.rows
            && userId in db.users.rows)
      && (status != 200 ==> after == db && status != 409)
      && (status == 200 ==> after == db.(issues := db.issues.Put(id, db.issues.rows[id].(
            projectId := newProjectId, labelId := None, releaseId := None, status := STATUS_OPEN,
            updaterId := Some(userId), updatedAt := now))))
  {
    var req := MoveIssue(projectId, id, userId, newProjectId);
    if InProject(db, id, projectId).Some? {
      assert IssueRefs(db, db.issues.rows[id]);
    }
    if Decide(db, req, now).Execute? {
      PerformOne(db, Decide(db, req, now).statements[0]);
    }
  }

  // ---------------------------------------------------------------------------------- creation

  /** A new issue goes behind all others: right behind the last, or to position 1. */
  lemma {:induction false} EndPositionIsLast(positions: set<int>)
    ensures forall p :: p in positions ==> p < EndPosition(positions)
    ensures positions == {} ==> EndPosition(positions) == 1
    ensures positions != {} ==> EndPosition(positions) - 1 in positions
  {
    var negated := set p | p in positions :: -p;
    forall p | p in positions ensures -p in negated {
    }
    if positions != {} {
      var p :| p in positions;
      assert -p in negated && |negated| > 0;
    }
  }

  /** The row of a new issue: what was sent, in the URL's project, by its creator, behind its status list. */
  predicate Created(db: Database, valid: Issue, projectId: int, userId: int, row: Issue, now: int) {
    && row == valid.(projectId := projectId, creatorId := Some(userId), updaterId := Some(userId), updatedAt := now,
                     position := row.position, priority := if valid.priority == "" then PRIORITY_NORMAL
                       else valid.priority)
    && (forall id :: id in db.issues.rows && db.issues.rows[id].status == row.status ==>
          db.issues.rows[id].position < row.position)
  }

  lemma {:induction false} PlacedLast(db: Database, status: string, position: int)
    requires position == EndPosition(
      set id | id in db.issues.rows && db.issues.rows[id].status == status :: db.issues.rows[id].position)
    ensures forall id :: id in db.issues.rows && db.issues.rows[id].status == status ==>
        db.issues.rows[id].position < position
  {
    hide EndPosition;
    var positions := set id | id in db.issues.rows && db.issues.rows[id].status == status ::
      db.issues.rows[id].position;
    EndPositionIsLast(positions);
    forall id | id in db.issues.rows && db.issues.rows[id].status == status
      ensures db.issues.rows[id].position < position {
      assert db.issues.rows[id].position in positions;
    }
  }

  /** A creation adds one row under a fresh id, or changes nothing; and exactly when it is accepted. */
  lemma {:induction false} CreateExact(db: Database, projectId: int, userId: int, body: Issue, now: int)
    requires Valid(db)
    ensures var (after, status) := Handle(db, CreateIssue(projectId, userId, body), now);
      && (status == 200 ==>
            && ValidateIssue(body).Some? && db.issues.next !in db.issues.rows && db.issues.next in after.issues.rows
            && Created(db, ValidateIssue(body).value, projectId, userId, after.issues.rows[db.issues.next], now)
            && after == db.(issues := db.issues.Insert(after.issues.rows[db.issues.next])))
      && (status != 200 ==> after == db)
      && (status == 200 <==>
            && projectId in db.projects.rows && userId in db.users.rows && ValidateIssue(body).Some?
            && var i := ValidateIssue(body).value.(projectId := projectId);
               AssigneePasses(db, i, None) && LabelPasses(db, i) && ReleasePasses(db, i))
  {
    hide ValidateIssue, EndPosition, RefsValid;
    var decision := Decide(db, CreateIssue(projectId, userId, body), now);
    if decision.Execute? {
      var row := decision.statements[0].issue;
      PerformOne(db, decision.statements[0]);
      PlacedLast(db, row.status, row.position);
    }
  }
}
