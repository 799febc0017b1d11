/**
 * How issue rows change from one state to the next: a row with a stamp that has been seen before
 * still has the content it had then, apart from its position, its audit columns and references to
 * rows that have been deleted.
 */
module Evolution {
  import opened Common
  import opened Model
  import opened Db
  import opened Integrity
  import opened Handlers

  predicate RefKept<T>(before: Option<int>, after: Option<int>, table: Table<T>) {
    after == before || (before.Some? && after.None? && before.value !in table.rows && before.value < table.next)
  }

  /** Everything but position, creator and updater is the same, or is a label or release that is gone. */
  predicate Agrees(a: Issue, b: Issue, db: Database) {
    && b == a.(position := b.position, creatorId := b.creatorId, updaterId := b.updaterId,
               labelId := b.labelId, releaseId := b.releaseId)
    && RefKept(a.labelId, b.labelId, db.labels) && RefKept(a.releaseId, b.releaseId, db.releases)
  }

  /** A row after a step at time now: stamped now, or an earlier row with its stamp and its content. */
  predicate Traced(db: Database, after: Database, id: int, now: int)
    requires id in after.issues.rows
  {
    || after.issues.rows[id].updatedAt == now
    || (id in db.issues.rows && Agrees(db.issues.rows[id], after.issues.rows[id], after))
  }

  ghost predicate Evolves(db: Database, after: Database, now: int) {
    Later(db, after) && forall id :: id in after.issues.rows ==> Traced(db, after, id, now)
  }

  // ------------------------------------------------------------------------------- statements

  lemma {:induction false} RemoveEvolves(db: Database, labels: set<int>, releases: set<int>, now: int)
    requires Valid(db) && labels <= db.labels.rows.Keys && releases <= db.releases.rows.Keys
    ensures Evolves(db, RemoveLabels(db, labels), now)
    ensures Evolves(db, RemoveReleases(db, releases), now)
  {
    hide RefsValid;
  }

  lemma {:induction false} EvolvesThen(db: Database, mid: Database, after: Database, now: int)
    requires Evolves(db, mid, now) && Evolves(mid, after, now)
    ensures Evolves(db, after, now)
  {
    forall id | id in after.issues.rows ensures Traced(db, after, id, now) {
      if after.issues.rows[id].updatedAt != now {
        assert Traced(mid, after, id, now);
        assert Traced(db, mid, id, now);
      }
    }
  }

  lemma {:induction false} SameTablesEvolve(db: Database, after: Database, now: int)
    requires after.labels == db.labels && after.releases == db.releases && after.issues == db.issues
    ensures Evolves(db, after, now)
  {
  }

  lemma {:induction false} PositionsEvolve(db: Database, projectId: int, updates: seq<PositionUpdate>, now: int)
    requires Db.UpdateIssuePositions(db, projectId, updates).Ok?
    ensures Evolves(db, Db.UpdateIssuePositions(db, projectId, updates).value, now)
    decreases |updates|
  {
    if updates == [] {
      SameTablesEvolve(db, db, now);
    } else {
      var row := db.issues.rows[updates[0].id].(position := updates[0].position);
      var mid := db.(issues := db.issues.Put(updates[0].id, row));
      PositionsEvolve(mid, projectId, updates[1..], now);
      assert Evolves(db, mid, now);
      EvolvesThen(db, mid, Db.UpdateIssuePositions(mid, projectId, updates[1..]).value, now);
    }
  }

  /** The rows assigned to the user are stamped; the others only lose their creator or updater. */
  lemma {:induction false} DeleteUserEvolves(db: Database, id: int, actor: Option<int>, userName: string, now: int)
    ensures Evolves(db, Exec(db, Statement.DeleteUser(id, actor, userName, now)), now)
  {
    hide InsertHistory;
    DeleteUserLater(db, id, actor, userName, now);
  }

  lemma {:induction false} IssueStatementEvolves(db: Database, st: Statement, now: int)
    requires Valid(db) && TouchesIssues(st) && Stamped(st, now)
    ensures Evolves(db, Exec(db, st), now)
  {
    hide RefsValid, TasksOf, CommentsOf, HistoryOf, IssueRefs;
    IssueStatementLater(db, st);
  }

  lemma {:induction false} ParentStatementEvolves(db: Database, st: Statement, now: int)
    requires TouchesParents(st)
    ensures Evolves(db, Exec(db, st), now)
  {
    ParentStatementLater(db, st);
  }

  lemma {:induction false} DeleteProjectEvolves(db: Database, id: int, now: int)
    requires Valid(db)
    ensures Evolves(db, Exec(db, Statement.DeleteProject(id)), now)
  {
    var labels, releases := LabelsOf(db, id), ReleasesOf(db, id);
    assert releases <= RemoveLabels(db, labels).releases.rows.Keys;
    hide Evolves, Valid, RemoveLabels, RemoveReleases;
    SameTablesEvolve(db, db, now);
    RemoveEvolves(db, labels, {}, now);
    RemoveLabelsValid(db, labels);
    var mid := RemoveLabels(db, labels);
    RemoveEvolves(mid, {}, releases, now);
    EvolvesThen(db, mid, RemoveReleases(mid, releases), now);
    if Db.DeleteProject(db, id).Ok? {
      var after := Db.DeleteProject(db, id).value;
      SameTablesEvolve(RemoveReleases(mid, releases), after, now);
      EvolvesThen(db, RemoveReleases(mid, releases), after, now);
    }
  }

  /** Every statement keeps the content of every row that keeps its stamp. */
  lemma {:induction false} ExecEvolves(db: Database, st: Statement, now: int)
    requires Valid(db) && Stamped(st, now)
    ensures Evolves(db, Exec(db, st), now)
  {
    assert st.DeleteUser? ==> st.now == now;
    hide Evolves, Valid, Stamped, RemoveLabels, RemoveReleases, Db.DeleteUser, Db.DeleteProject;
    if TouchesIssues(st) {
      IssueStatementEvolves(db, st, now);
    } else if TouchesParents(st) {
      ParentStatementEvolves(db, st, now);
    } else if TouchesTasks(st) || TouchesSessions(st) || st.UpdateTaskPositions? {
      OnlyTasks(db, st);
      SameTablesEvolve(db, Exec(db, st), now);
    } else {
      SameTablesEvolve(db, db, now);
      match st
      case UpdateIssuePositions(projectId, updates) =>
        if Try(db, st).Ok? { PositionsEvolve(db, projectId, updates, now); }
      case DeleteUser(id, actor, userName, at) =>
        DeleteUserEvolves(db, id, actor, userName, now);
      case DeleteProject(id) => DeleteProjectEvolves(db, id, now);
      case DeleteLabel(id, projectId) => if Try(db, st).Ok? { RemoveEvolves(db, {id}, {}, now); }
      case DeleteRelease(id) => if Try(db, st).Ok? { RemoveEvolves(db, {}, {id}, now); }
    }
  }

  // --------------------------------------------------------------------------------- requests

  lemma {:induction false} PerformEvolves(db: Database, statements: seq<Statement>, now: int)
    requires Valid(db) && forall k :: 0 <= k < |statements| ==> Stamped(statements[k], now)
    ensures Valid(Perform(db, statements).0) && Evolves(db, Perform(db, statements).0, now)
    decreases |statements|
  {
    hide Valid, Evolves, Try, Stamped;
    SameTablesEvolve(db, db, now);
    if statements != [] && Try(db, statements[0]).Ok? {
      var mid := Exec(db, statements[0]);
      ExecValid(db, statements[0]);
      ExecEvolves(db, statements[0], now);
      PerformEvolves(mid, statements[1..], now);
      EvolvesThen(db, mid, Perform(mid, statements[1..]).0, now);
    }
  }

  /** One request at time now leaves every row stamped now or as it was. */
  lemma {:induction false} HandleEvolves(db: Database, req: Request, now: int)
    requires Valid(db)
    ensures Valid(Handle(db, req, now).0) && Evolves(db, Handle(db, req, now).0, now)
  {
    hide Valid, Evolves, Perform, Decide, Stamped;
    SameTablesEvolve(db, db, now);
    if Decide(db, req, now).Execute? {
      DecisionStamped(db, req, now);
      PerformEvolves(db, Decide(db, req, now).statements, now);
    }
  }

  // ---------------------------------------------------------------------------- served copies

  /**
   * What stays true of a copy of a row that the server once answered with: the row is still that
   * copy as far as Agrees goes, or has a later stamp, or is gone for good.
   */
  ghost predicate Served(db: Database, clock: int, id: int, copy: Issue) {
    && copy.updatedAt <= clock && id < db.issues.next
    && (id in db.issues.rows ==>
          var row := db.issues.rows[id];
          row.updatedAt >= copy.updatedAt && (row.updatedAt == copy.updatedAt ==> Agrees(copy, row, db)))
  }

  ghost predicate StampsBelow(db: Database, clock: int) {
    forall id :: id in db.issues.rows ==> db.issues.rows[id].updatedAt <= clock
  }

  lemma {:induction false} AgreesThen(a: Issue, b: Issue, c: Issue, db: Database, after: Database)
    requires Agrees(a, b, db) && Agrees(b, c, after) && Later(db, after)
    ensures Agrees(a, c, after)
  {
  }

  /** A fresh copy is served. */
  lemma {:induction false} FreshCopyServed(db: Database, clock: int, id: int)
    requires Valid(db) && StampsBelow(db, clock) && id in db.issues.rows
    ensures Served(db, clock, id, db.issues.rows[id])
  {
  }

  /** Time and every later change keep a served copy served. */
  lemma {:induction false} ServedLater(db: Database, after: Database, clock: int, now: int, id: int, copy: Issue)
    requires Served(db, clock, id, copy) && clock < now && Evolves(db, after, now)
    ensures Served(after, now, id, copy)
  {
    if id in after.issues.rows {
      assert Traced(db, after, id, now);
      var row := after.issues.rows[id];
      if row.updatedAt != now && row.updatedAt == copy.updatedAt {
        AgreesThen(copy, db.issues.rows[id], row, db, after);
      }
    }
  }

  lemma {:induction false} StampsStayBelow(db: Database, after: Database, clock: int, now: int)
    requires StampsBelow(db, clock) && clock < now && Evolves(db, after, now)
    ensures StampsBelow(after, now)
  {
    forall id | id in after.issues.rows ensures after.issues.rows[id].updatedAt <= now {
      assert Traced(db, after, id, now);
    }
  }
}
