/**
 * The modal's discipline is exact: a sound state can lead to no lost update, and opening an issue
 * against the discipline leads to one.
 */
module ModalLosses {
  import opened Common
  import opened Model
  import opened Db
  import opened Handlers
  import opened Evolution
  import opened PutIssue
  import opened ContentHash
  import opened Checks
  import opened Modal
  import Sanitize

  const NOTHING := Changes(None, None, None, None, None, None, None, None, None, None, None)

  // ------------------------------------------------------------------------- runs that lose

  /** Disciplined steps from one world to another. */
  ghost predicate Leads(w: World, steps: seq<Step>, u: World)
    decreases |steps|
  {
    if steps == [] then u == w
    else Enabled(w, steps[0]) && Disciplined(w, steps[0]) && Leads(Next(w, steps[0]), steps[1..], u)
  }

  /** A save is accepted and changes something that it does not set. */
  ghost predicate Loses(u: World, step: Step) {
    Enabled(u, step) && AcceptsSave(u, step, Next(u, step)) && !SaveLeavesRest(u, Next(u, step))
  }

  ghost predicate CanLose(w: World) {
    exists steps, u, step :: Leads(w, steps, u) && Loses(u, step)
  }

  lemma {:induction false} CanLoseEarlier(w: World, step: Step)
    ensures Enabled(w, step) && Disciplined(w, step) && CanLose(Next(w, step)) ==> CanLose(w)
  {
    hide Enabled, Disciplined, Loses, Next;
    if Enabled(w, step) && Disciplined(w, step) && CanLose(Next(w, step)) {
      var steps, u, last :| Leads(Next(w, step), steps, u) && Loses(u, last);
      var all := [step] + steps;
      assert all[1..] == steps;
      assert Leads(w, all, u);
    }
  }

  lemma {:induction false} LeadsKeepsInv(w: World, steps: seq<Step>, u: World)
    requires Inv(w) && Leads(w, steps, u)
    ensures Inv(u)
    decreases |steps|
  {
    hide Inv, Enabled, Disciplined, Next;
    if steps != [] {
      NextKeepsInv(w, steps[0]);
      LeadsKeepsInv(Next(w, steps[0]), steps[1..], u);
    }
  }

  /** From a sound state no disciplined run loses an update. */
  lemma {:induction false} SoundNeverLoses(w: World)
    requires Inv(w)
    ensures !CanLose(w)
  {
    hide Inv, Handle, PutRequest, LeavesRest, Leads;
    if CanLose(w) {
      var steps, u, step :| Leads(w, steps, u) && Loses(u, step);
      LeadsKeepsInv(w, steps, u);
      AcceptedSaveLeavesRest(u, step.userId, step.now);
    }
  }

  // --------------------------------------------------------------- a copy beside the row's tag

  /** The content of an issue once its title has been cleaned again, as any save does. */
  function TitleCleaned(i: Issue): Issue {
    i.(title := Sanitize.SanitizeString(i.title))
  }

  /** Saving this copy over the row as it is now changes its content. */
  predicate Differs(copy: Issue, row: Issue) {
    !SameContent(TitleCleaned(copy), TitleCleaned(row))
  }

  /** The server's checks, the tag apart, would let the user save this copy. */
  predicate Resavable(db: Database, id: int, copy: Issue, userId: int) {
    userId in db.users.rows && PutAllowed(db, PutIssue(copy.projectId, id, userId, None, copy))
  }

  function OtherPriority(priority: string): string {
    if priority == PRIORITY_HIGH then PRIORITY_NORMAL else PRIORITY_HIGH
  }

  /** A save of this copy that shows the difference: of nothing, or of another priority. */
  function Resave(copy: Issue, row: Issue): Changes {
    if Differs(copy, row) then NOTHING else NOTHING.(priority := Some(OtherPriority(copy.priority)))
  }

  lemma {:induction false} DecodableCopy(copy: Issue)
    requires Hashable(copy)
    ensures Decodable(copy)
  {
  }

  /** Copies of the same content that do not match differ in what the content hash leaves out. */
  lemma {:induction false} SameButFiner(copy: Issue, row: Issue, db: Database)
    requires !Differs(copy, row) && !Matches(copy, row, db)
    ensures copy.deadline != row.deadline || copy.planned != row.planned
  {
  }

  /** With the row's tag a copy that does not match is accepted, and the row does not stay as it was. */
  lemma {:induction false} ResaveLoses(db: Database, id: int, copy: Issue, weak: bool, userId: int, now: int)
    requires Valid(db) && Stored(db) && Hashable(copy) && Resavable(db, id, copy, userId)
    requires !Matches(copy, db.issues.rows[id], db)
    ensures var tag := ETag(weak, Some(db.issues.rows[id].updatedAt));
            var changes := Resave(copy, db.issues.rows[id]);
            var (after, status) := Handle(db, PutIssue(copy.projectId, id, userId, Some(tag), Apply(copy, changes)),
              now);
      status == 200 && id in after.issues.rows && !LeavesRest(db.issues.rows[id], after.issues.rows[id], changes)
  {
    hide Handle, Hashable, Valid, Stored, AssigneePasses, LabelPasses, ReleasePasses, Matches, SameContent;
    var tag := ETag(weak, Some(db.issues.rows[id].updatedAt));
    var current := db.issues.rows[id];
    var body := Apply(copy, Resave(copy, current));
    var req := PutIssue(copy.projectId, id, userId, Some(tag), body);
    DecodableCopy(copy);
    CleanDescriptionKept(copy);
    ResaveAllowed(db, id, copy, userId, tag);
    PutExact(db, req, now);
    var row := Handle(db, req, now).0.issues.rows[id];
    var i := PutRow(ValidateIssue(body).value, current, copy.projectId, userId);
    assert i == TitleCleaned(body).(creatorId := i.creatorId, projectId := i.projectId, updaterId := i.updaterId);
    ResavedDiffers(db, copy, current, i, row, now);
  }

  lemma {:induction false} ResaveAllowed(db: Database, id: int, copy: Issue, userId: int, tag: ETag)
    requires Resavable(db, id, copy, userId) && tag.stamp == Some(db.issues.rows[id].updatedAt)
    ensures PutAllowed(db, PutIssue(copy.projectId, id, userId, Some(tag),
        Apply(copy, Resave(copy, db.issues.rows[id]))))
  {
    hide Differs;
  }

  lemma {:induction false} ResavedDiffers(db: Database, copy: Issue, current: Issue, i: Issue, row: Issue, now: int)
    requires !Matches(copy, current, db) && Saved(current, i, row, now)
    requires var body := TitleCleaned(Apply(copy, Resave(copy, current)));
      i == body.(creatorId := i.creatorId, projectId := i.projectId, updaterId := i.updaterId)
        && i.projectId == copy.projectId
    ensures !LeavesRest(current, row, Resave(copy, current))
  {
    if !Differs(copy, current) {
      SameButFiner(copy, current, db);
    }
    hide Matches;
  }

  /** The modal is idle and holds a copy beside the tag of the row, whatever is queued. */
  ghost predicate CopyUnderTag(w: World, held: Held) {
    var c := w.client;
    && c.running.Idle? && c.issueLoad.None? && c.currentIssue == Some(held) && held.id in w.db.issues.rows
    && c.currentEtag.Some? && c.currentEtag.value.stamp == Some(w.db.issues.rows[held.id].updatedAt)
  }

  ghost predicate Harmful(w: World, held: Held, userId: int) {
    && CopyUnderTag(w, held) && ServerSound(w.db, w.clock) && Hashable(held.row)
    && Resavable(w.db, held.id, held.row, userId) && !Matches(held.row, w.db.issues.rows[held.id], w.db)
  }

  /** The running save of that copy loses. */
  lemma {:induction false} SentCopyLoses(w: World, held: Held, userId: int)
    requires ServerSound(w.db, w.clock) && Hashable(held.row) && Resavable(w.db, held.id, held.row, userId)
    requires !Matches(held.row, w.db.issues.rows[held.id], w.db)
    requires w.client.running.PutSent?
    requires w.client.running.save == Save(held.ref, held.id, held.row, Resave(held.row, w.db.issues.rows[held.id]))
    requires w.client.running.ifMatch.Some?
    requires w.client.running.ifMatch.value.stamp == Some(w.db.issues.rows[held.id].updatedAt)
    ensures CanLose(w)
  {
    hide Handle, Hashable, Valid, Stored, StampsBelow, Resavable, Differs, Matches, LeavesRest;
    var step := ServePut(userId, w.clock + 1);
    ResaveLoses(w.db, held.id, held.row, w.client.running.ifMatch.value.weak, userId, w.clock + 1);
    assert Loses(w, step);
    assert Leads(w, [], w);
  }

  /** The queue is worked off until the copy is saved. */
  lemma {:induction false} HarmfulLoses(w: World, held: Held, userId: int)
    requires Harmful(w, held, userId)
    ensures CanLose(w)
    decreases |w.client.queue|
  {
    hide ServerSound, Hashable, Resavable, Differs, Matches, CanLose;
    var changes := Resave(held.row, w.db.issues.rows[held.id]);
    if w.client.queue == [] {
      var u := Next(w, Enqueue(None));
      var v := Next(u, Start(changes));
      assert u.client.queue == [SaveWrite(Some(held.id))];
      SentCopyLoses(v, held, userId);
      CanLoseEarlier(u, Start(changes));
      CanLoseEarlier(w, Enqueue(None));
    } else {
      var u := Next(w, Start(changes));
      if w.client.queue[0].MoveWrite? {
        var v := Next(u, MoveChoice(false));
        HarmfulLoses(v, held, userId);
        CanLoseEarlier(u, MoveChoice(false));
      } else if w.client.queue[0].issueId == Some(held.id) {
        SentCopyLoses(u, held, userId);
      } else {
        HarmfulLoses(u, held, userId);
      }
      CanLoseEarlier(w, Start(changes));
    }
  }

  // ------------------------------------------------------------------ the states it excludes

  /** Right after opening: the copy is shown, and its revalidation has not been answered. */
  ghost predicate Opened(c: Client, held: Held) {
    && c.currentIssue == Some(held) && c.issueLoad == Some(c.issueLoadSeq) && c.issueLoadSeq in c.loads
    && c.loads[c.issueLoadSeq] == Load(held.id, held.row.projectId, held.row.updatedAt, None)
  }

  /** One disciplined step. */
  ghost predicate Goes(w: World, step: Step, u: World) {
    Enabled(w, step) && Disciplined(w, step) && u == Next(w, step)
  }

  lemma {:induction false} LoseBefore(w: World, step: Step, u: World)
    ensures Goes(w, step, u) && CanLose(u) ==> CanLose(w)
  {
    hide Enabled, Disciplined, CanLose, Next;
    CanLoseEarlier(w, step);
  }

  lemma {:induction false} JustOpened(w: World, id: int, card: Issue)
    ensures var u := Next(w, Open(id, card));
      && Opened(u.client, Held(w.client.nextRef, id, card))
      && u.db == w.db && u.clock == w.clock && u.client.running == w.client.running
      && u.client.nextRef == w.client.nextRef + 1
  {
    hide Handle;
  }

  /** The row is in the project that the copy names, so a revalidation of the copy finds it. */
  predicate Findable(db: Database, id: int, copy: Issue) {
    id in db.issues.rows && db.issues.rows[id].projectId == copy.projectId && copy.projectId in db.projects.rows
  }

  lemma {:induction false} ResavableFound(db: Database, id: int, copy: Issue, userId: int)
    requires Resavable(db, id, copy, userId)
    ensures Findable(db, id, copy)
  {
  }

  /** The pending revalidation finds the row as it is. */
  lemma {:induction false} RowServed(w: World, held: Held) returns (u: World)
    requires Opened(w.client, held) && Findable(w.db, held.id, held.row)
    ensures Goes(w, ServeLoad(w.client.issueLoadSeq, false), u)
    ensures u == w.(client := w.client.(loads := u.client.loads)) && u.client.issueLoadSeq in u.client.loads
    ensures u.client.loads[u.client.issueLoadSeq]
            == Load(held.id, held.row.projectId, held.row.updatedAt, Some(Some(w.db.issues.rows[held.id])))
  {
    hide Handle, Copy;
    u := Next(w, ServeLoad(w.client.issueLoadSeq, false));
  }

  /** The revalidation's answer arrives: it matches, or the user is editing. */
  lemma {:induction false} LoadArrives(w: World, fetched: Issue, editing: bool) returns (u: World)
    requires var c := w.client;
      && c.issueLoadSeq in c.loads && c.loads[c.issueLoadSeq].answer == Some(Some(fetched))
      && (editing || fetched.updatedAt == c.loads[c.issueLoadSeq].baseStamp)
    ensures Goes(w, DeliverLoadStep(w.client.issueLoadSeq, editing, false), u)
    ensures var tag := if fetched.updatedAt == w.client.loads[w.client.issueLoadSeq].baseStamp
                       then ETag(false, Some(fetched.updatedAt)) else STALE_ETAG;
      u == w.(client := w.client.(issueLoad := None, loads := w.client.loads - {w.client.issueLoadSeq},
        currentEtag := Some(tag)))
  {
    hide Handle, Copy;
    u := Next(w, DeliverLoadStep(w.client.issueLoadSeq, editing, false));
  }

  /** The answer of a save arrives for an object that is not open any more. */
  lemma {:induction false} PutArrives(w: World, held: Held) returns (u: World)
    requires var r := w.client.running;
      r.PutAnswered? && r.status == 200 && w.client.currentIssue == Some(held) && r.save.ref != held.ref
    ensures Goes(w, DeliverPutStep(false), u)
    ensures u == w.(client :=
        w.client.(running := Idle, currentEtag := Some(ETag(false, Some(w.client.running.row.updatedAt)))))
  {
    hide Handle, Copy;
    u := Next(w, DeliverPutStep(false));
  }

  /**
   * The answer of a save that is on its way replaces the tag of a copy opened meanwhile, which the
   * user is editing.
   */
  lemma {:induction false} AnswerOvertakes(w: World, held: Held, userId: int)
    requires ServerSound(w.db, w.clock) && Opened(w.client, held)
    requires var r := w.client.running;
      r.PutAnswered? && r.status == 200 && r.save.ref != held.ref && Carries(w.db, held.id, r.row.updatedAt)
    requires Hashable(held.row) && Resavable(w.db, held.id, held.row, userId)
    requires !Matches(held.row, w.db.issues.rows[held.id], w.db)
    ensures CanLose(w)
  {
    hide ServerSound, Hashable, Resavable, Matches, CanLose, Goes;
    var s := w.client.issueLoadSeq;
    ResavableFound(w.db, held.id, held.row, userId);
    var u := RowServed(w, held);
    var v := LoadArrives(u, w.db.issues.rows[held.id], true);
    var x := PutArrives(v, held);
    HarmfulLoses(x, held, userId);
    LoseBefore(v, DeliverPutStep(false), x);
    LoseBefore(u, DeliverLoadStep(s, true, false), v);
    LoseBefore(w, ServeLoad(s, false), u);
  }

  /** A reload or a move is about to bring this issue. */
  predicate BringsIssue(r: Running, id: int, late: Issue) {
    (r.ReloadAnswered? && r.save.id == id && r.found == Some(late))
      || (r.MoveAnswered? && r.id == id && r.status == 200 && r.row == late)
  }

  function Delivery(r: Running): Step {
    if r.ReloadAnswered? then DeliverReloadStep(false) else DeliverMoveStep(false)
  }

  lemma {:induction false} IssueArrives(w: World, id: int, late: Issue) returns (u: World)
    requires BringsIssue(w.client.running, id, late)
    ensures Goes(w, Delivery(w.client.running), u)
    ensures u == w.(client := w.client.(
      running := Idle, currentIssue := Some(Held(w.client.nextRef, id, late)), nextRef := w.client.nextRef + 1,
      currentEtag := Some(ETag(false, Some(late.updatedAt)))))
  {
    hide Handle, Copy;
    u := Next(w, Delivery(w.client.running));
  }

  /** An issue that a reload or a move brings late ends up beside the tag of its row. */
  lemma {:induction false} LateIssueOvertakes(w: World, held: Held, id: int, late: Issue, userId: int)
    requires ServerSound(w.db, w.clock) && Opened(w.client, held) && BringsIssue(w.client.running, id, late)
    requires Findable(w.db, held.id, held.row) && Carries(w.db, held.id, held.row.updatedAt)
    requires Carries(w.db, id, held.row.updatedAt)
    requires Hashable(late) && Resavable(w.db, id, late, userId) && !Matches(late, w.db.issues.rows[id], w.db)
    ensures CanLose(w)
  {
    hide ServerSound, Hashable, Resavable, Matches, CanLose, Goes, BringsIssue, Delivery, Findable;
    var s := w.client.issueLoadSeq;
    var deliver := Delivery(w.client.running);
    var u := RowServed(w, held);
    var v := IssueArrives(u, id, late);
    var x := LoadArrives(v, w.db.issues.rows[held.id], false);
    HarmfulLoses(x, Held(w.client.nextRef, id, late), userId);
    LoseBefore(v, DeliverLoadStep(s, false, false), x);
    LoseBefore(u, deliver, v);
    LoseBefore(w, ServeLoad(s, false), u);
  }

  /** A save always carries a tag, so a request without one is no state of the modal. */
  lemma {:induction false} TagAlwaysSent(w: World)
    requires Inv(w) && w.client.running.PutSent?
    ensures w.client.running.ifMatch.Some?
  {
    hide ServerSound, CurrentSound, LoadsSound, Copy, Fits, Beside;
  }

  lemma {:induction false} SoundServer(w: World)
    requires Inv(w)
    ensures ServerSound(w.db, w.clock)
  {
  }

  lemma {:induction false} OpenEnabled(w: World, id: int, card: Issue)
    requires Copy(w.db, w.clock, id, card)
    ensures Enabled(w, Open(id, card))
  {
    DecodableCopy(card);
  }

  /** Opening a copy as the discipline asks loses nothing. */
  lemma {:induction false} SafeOpenNeverLoses(w: World, id: int, card: Issue)
    requires Inv(w)
    ensures Disciplined(w, Open(id, card)) ==> !CanLose(Next(w, Open(id, card)))
  {
    hide Inv, Next, Enabled, Copy, CanLose, OpenSafe;
    if Disciplined(w, Open(id, card)) {
      OpenEnabled(w, id, card);
      NextKeepsInv(w, Open(id, card));
      SoundNeverLoses(Next(w, Open(id, card)));
    }
  }

  /** What a sound state knows of the answer of an accepted save. */
  lemma {:induction false} AnswerBelow(w: World)
    requires Inv(w) && w.client.running.PutAnswered? && w.client.running.status == 200
    ensures w.client.running.save.ref < w.client.nextRef && w.client.running.row.updatedAt <= w.clock
  {
    hide ServerSound, CurrentSound, LoadsSound, Hashable, Agrees, Beside;
  }

  /**
   * While the answer of an accepted save is on its way, opening a copy that the user could save
   * leads to a lost update exactly if it is against the discipline: if its row, which may be that of
   * another issue stamped together with the saved one, carries the answer's stamp and the copy does
   * not match it.
   */
  lemma {:induction false} OpenBeforeAnswerExactly(w: World, userId: int, id: int, card: Issue)
    requires Inv(w) && w.client.running.PutAnswered? && w.client.running.status == 200
    requires Copy(w.db, w.clock, id, card) && Resavable(w.db, id, card, userId)
    ensures var open := Open(id, card);
      && (CanLose(Next(w, open)) <==> !Disciplined(w, open))
      && (Disciplined(w, open) <==> Fits(w.db, w.clock, id, card, w.client.running.row.updatedAt))
  {
    SafeOpenNeverLoses(w, id, card);
    SoundServer(w);
    AnswerBelow(w);
    hide Inv, Resavable, Differs, Matches, CanLose, ServerSound, Handle, Next, Served, Hashable;
    if !Disciplined(w, Open(id, card)) {
      JustOpened(w, id, card);
      AnswerOvertakes(Next(w, Open(id, card)), Held(w.client.nextRef, id, card), userId);
    }
  }

  /** Opening an issue before or after the server takes the save comes to the same. */
  lemma {:induction false} OpenCommutes(w: World, userId: int, id: int, card: Issue) returns (served: World)
    requires w.client.running.PutSent?
    ensures Goes(Next(w, Open(id, card)), ServePut(userId, w.clock + 1), served)
    ensures served == Next(ServePutNext(w, userId, w.clock + 1), Open(id, card))
  {
    hide Handle;
    served := Next(Next(w, Open(id, card)), ServePut(userId, w.clock + 1));
  }

  /** A copy is still one after the server has taken the save. */
  lemma {:induction false} CopyAfterSave(w: World, userId: int, id: int, card: Issue)
    requires Inv(w) && w.client.running.PutSent? && Copy(w.db, w.clock, id, card)
    ensures var next := ServePutNext(w, userId, w.clock + 1);
      && Inv(next) && Copy(next.db, next.clock, id, card) && next.client.running.PutAnswered?
      && next.client.running.status == Handle(w.db, PutRequest(w.client.running, userId), w.clock + 1).1
  {
    ServePutSound(w, userId, w.clock + 1);
    hide ServerSound, CurrentSound, LoadsSound, Beside, Hashable, Served, Handle, Fits, Evolves, Apply;
    ApplyDecodable(w.client.running.save);
    HandleSound(w.db, w.clock, PutRequest(w.client.running, userId), w.clock + 1);
    CopyLater(w.db, w.clock, ServePutNext(w, userId, w.clock + 1).db, w.clock + 1, id, card);
  }

  /**
   * While a save is on its way that the server accepts, whatever it sets and whatever is queued:
   * opening a copy that the user could save afterwards leads to a lost update exactly if the save
   * makes the copy old, that is, if the copy does not match the row that carries the answer's stamp.
   * The discipline allows no such copy.
   */
  lemma {:induction false} OpenBeforeSaveExactly(w: World, userId: int, id: int, card: Issue)
    requires Inv(w) && w.client.running.PutSent? && Copy(w.db, w.clock, id, card)
    ensures var open := Open(id, card);
            var next := ServePutNext(w, userId, w.clock + 1);
            var served := Next(Next(w, open), ServePut(userId, w.clock + 1));
      next.client.running.status == 200 && Resavable(next.db, id, card, userId) ==>
        && (CanLose(served) <==> !Fits(next.db, next.clock, id, card, next.client.running.row.updatedAt))
        && (CanLose(served) ==> !Disciplined(w, open) && CanLose(Next(w, open)))
  {
    var open := Open(id, card);
    var next := ServePutNext(w, userId, w.clock + 1);
    var served := OpenCommutes(w, userId, id, card);
    CopyAfterSave(w, userId, id, card);
    SafeOpenNeverLoses(w, id, card);
    LoseBefore(Next(w, open), ServePut(userId, w.clock + 1), served);
    assert served == Next(Next(w, open), ServePut(userId, w.clock + 1));
    hide Inv, Resavable, CanLose, Handle, Next, Fits, Disciplined, Enabled, Copy, ServePutNext;
    if next.client.running.status == 200 && Resavable(next.db, id, card, userId) {
      OpenBeforeAnswerExactly(next, userId, id, card);
    }
  }

  // Why opening against the discipline loses while a save is on its way: the save keeps the row and
  // brings its tag, or the row that the revalidation has just brought is the one it overwrites.

  lemma {:induction false} KeptUnsafe(db: Database, clock: int, id: int, card: Issue, save: Save, after: Database,
      now: int)
    requires save.id in db.issues.rows && save.id in after.issues.rows
    requires after == db.(issues := db.issues.Put(save.id, after.issues.rows[save.id]))
    requires SavedAs(Written(save), db.issues.rows[save.id], after.issues.rows[save.id], now)
    requires SameContent(Written(save), db.issues.rows[save.id])
    ensures after.issues.rows[save.id].updatedAt == db.issues.rows[save.id].updatedAt
    ensures var stamp := db.issues.rows[save.id].updatedAt;
      stamp <= clock && Fits(after, now, id, card, stamp) ==> Fits(db, clock, id, card, stamp)
  {
  }

  /** A row that its save does not spare, and what is written, match no copy both. */
  lemma {:induction false} NotSpared(db: Database, written: Issue, row: Issue, after: Issue, copy: Issue, now: int)
    requires SavedAs(written, row, after, now) && !SameContent(written, row) && !Spares(written, row, db)
    requires LabelPasses(db, written) && ReleasePasses(db, written)
    requires Exists(db.labels, copy.labelId) && Exists(db.releases, copy.releaseId)
    ensures !(Matches(copy, row, db) && Matches(copy, after, db))
  {
  }

  /** The revalidation brings the row in place of the copy it started from. */
  lemma {:induction false} RowArrives(w: World, fetched: Issue) returns (u: World)
    requires var c := w.client;
      && c.issueLoadSeq in c.loads && c.loads[c.issueLoadSeq].answer == Some(Some(fetched))
      && fetched.updatedAt != c.loads[c.issueLoadSeq].baseStamp
    ensures Goes(w, DeliverLoadStep(w.client.issueLoadSeq, false, false), u)
    ensures u == w.(client := w.client.(
      issueLoad := None, loads := w.client.loads - {w.client.issueLoadSeq}, nextRef := w.client.nextRef + 1,
      currentIssue := Some(Held(w.client.nextRef, w.client.loads[w.client.issueLoadSeq].id, fetched)),
      currentEtag := Some(ETag(false, Some(fetched.updatedAt)))))
  {
    hide Handle, Copy;
    u := Next(w, DeliverLoadStep(w.client.issueLoadSeq, false, false));
  }

  lemma {:induction false} SparedBack(db: Database, written: Issue, row: Issue, after: Issue, copy: Issue, now: int)
    requires SavedAs(written, row, after, now) && !SameContent(written, row) && Spares(written, row, db)
    requires LabelPasses(db, written) && ReleasePasses(db, written) && Matches(copy, after, db)
    ensures Matches(copy, row, db)
  {
  }

  /** The server takes the save, in any world with this server and this save. */
  lemma {:induction false} SaveTaken(w: World, u: World, userId: int) returns (v: World)
    requires w.client.running.PutSent? && u.db == w.db && u.clock == w.clock && u.client.running == w.client.running
    ensures Goes(u, ServePut(userId, w.clock + 1), v)
    ensures var next := ServePutNext(w, userId, w.clock + 1);
      v == World(next.db, next.clock, u.client.(running := next.client.running))
  {
    hide Handle;
    v := Next(u, ServePut(userId, w.clock + 1));
  }

  /** The revalidation of an older copy brings the row, and the answer of the save its tag beside that. */
  lemma {:induction false} SaveOvertakesRow(w: World, userId: int, card: Issue)
    requires w.client.running.PutSent?
    requires var next := ServePutNext(w, userId, w.clock + 1);
             var id := w.client.running.save.id;
      && ServerSound(next.db, next.clock) && next.client.running.status == 200 && Findable(w.db, id, card)
      && w.db.issues.rows[id].updatedAt != card.updatedAt && w.client.running.save.ref < w.client.nextRef
      && id in next.db.issues.rows && Hashable(w.db.issues.rows[id])
      && Resavable(next.db, id, w.db.issues.rows[id], userId)
      && !Matches(w.db.issues.rows[id], next.db.issues.rows[id], next.db)
    ensures CanLose(Next(w, Open(w.client.running.save.id, card)))
  {
    assert w.client.running.save.id in w.db.issues.rows;
    hide Handle, ServerSound, Hashable, Resavable, Matches, CanLose, Goes, Next, Findable, PutRequest;
    var id := w.client.running.save.id;
    var row := w.db.issues.rows[id];
    JustOpened(w, id, card);
    var opening := Next(w, Open(id, card));
    var s := opening.client.issueLoadSeq;
    var t := RowServed(opening, Held(w.client.nextRef, id, card));
    var u := RowArrives(t, row);
    var v := SaveTaken(w, u, userId);
    var held := Held(w.client.nextRef + 1, id, row);
    var x := PutArrives(v, held);
    HarmfulLoses(x, held, userId);
    LoseBefore(v, DeliverPutStep(false), x);
    LoseBefore(u, ServePut(userId, w.clock + 1), v);
    LoseBefore(t, DeliverLoadStep(s, false, false), u);
    LoseBefore(opening, ServeLoad(s, false), t);
  }

  /** The server takes the save with this row before and this row after it. */
  ghost predicate Taken(w: World, next: World, row: Issue, after: Issue)
    requires w.client.running.PutSent?
  {
    var save := w.client.running.save;
    && next.client.running == PutAnswered(save, 200, after) && next.clock == w.clock + 1
    && save.id in w.db.issues.rows && w.db.issues.rows[save.id] == row
    && next.db == w.db.(issues := w.db.issues.Put(save.id, after)) && SavedAs(Written(save), row, after, next.clock)
    && w.client.running.ifMatch.Some? && w.client.running.ifMatch.value.stamp == Some(row.updatedAt)
    && LabelPasses(w.db, Written(save)) && ReleasePasses(w.db, Written(save))
    && row.projectId == Written(save).projectId
    && Exists(w.db.labels, row.labelId) && Exists(w.db.releases, row.releaseId) && row.updatedAt <= w.clock
  }

  lemma {:induction false} SaveFacts(w: World, userId: int)
    requires Inv(w) && w.client.running.PutSent?
    ensures var next := ServePutNext(w, userId, w.clock + 1);
            var save := w.client.running.save;
      next.client.running.status == 200 ==>
        && ServerSound(next.db, next.clock) && save.id in w.db.issues.rows && save.id in next.db.issues.rows
        && Taken(w, next, w.db.issues.rows[save.id], next.db.issues.rows[save.id])
        && save.ref < w.client.nextRef && Hashable(w.db.issues.rows[save.id])
  {
    PutAnswer(w, userId, w.clock + 1);
    ServePutSound(w, userId, w.clock + 1);
    SoundServer(ServePutNext(w, userId, w.clock + 1));
    hide Handle, PutRequest, CurrentSound, LoadsSound, TagFits, SentBeside, Hashable, SavedAs, LabelPasses,
         ReleasePasses, Written, Fits;
    var id := w.client.running.save.id;
    if id in w.db.issues.rows {
      assert IssueRefs(w.db, w.db.issues.rows[id]);
    }
  }

  /** The save takes off a label or a release and writes nothing else. */
  predicate TakesOff(written: Issue, row: Issue) {
    MayKeep(written, row) && !SameContent(written, row)
  }

  /**
   * The server accepts the save that is on its way, and the user could then save this copy, and the
   * row as it was if it is that of the same issue. Another issue's copy is left open if the save only
   * takes off a label or a release, for that may be deleted before the server takes the save.
   */
  ghost predicate Decided(w: World, userId: int, id: int, card: Issue)
    requires w.client.running.PutSent?
  {
    var next := ServePutNext(w, userId, w.clock + 1);
    var save := w.client.running.save;
    && next.client.running.status == 200 && Resavable(next.db, id, card, userId) && save.id in w.db.issues.rows
    && (id == save.id ==> Resavable(next.db, id, w.db.issues.rows[id], userId))
    && (id != save.id ==> !TakesOff(Written(save), w.db.issues.rows[save.id]))
  }

  /** A copy that is excluded although it fits the answer is an older one of the same issue. */
  lemma {:induction false} ExcludedFitting(w: World, next: World, row: Issue, after: Issue, id: int, card: Issue)
    requires w.client.running.PutSent? && Taken(w, next, row, after)
    requires Copy(w.db, w.clock, id, card) && !OpenSafe(w.db, w.clock, w.client.running, id, card)
    requires Fits(next.db, next.clock, id, card, after.updatedAt)
    requires Exists(w.db.labels, card.labelId) && Exists(w.db.releases, card.releaseId)
    requires id != w.client.running.save.id ==> !TakesOff(Written(w.client.running.save), row)
    ensures id == w.client.running.save.id && card.updatedAt != row.updatedAt && !Matches(row, after, next.db)
  {
    var save := w.client.running.save;
    var written := Written(save);
    KeptExactly(w.db, written, row);
    assert forall copy, i :: Matches(copy, i, w.db) <==> Matches(copy, i, next.db);
    if SameContent(written, row) {
      KeptUnsafe(w.db, w.clock, id, card, save, next.db, next.clock);
    } else {
      if Spares(written, row, w.db) && Matches(card, after, w.db) {
        SparedBack(w.db, written, row, after, card, next.clock);
      }
      if !Spares(written, row, w.db) {
        NotSpared(w.db, written, row, after, card, next.clock);
        NotSpared(w.db, written, row, after, row, next.clock);
      }
    }
  }

  lemma {:induction false} PassingRefs(db: Database, id: int, copy: Issue, userId: int)
    requires Resavable(db, id, copy, userId)
    ensures Exists(db.labels, copy.labelId) && Exists(db.releases, copy.releaseId) && Findable(db, id, copy)
  {
  }

  lemma {:induction false} Undisciplined(w: World, id: int, card: Issue)
    requires Copy(w.db, w.clock, id, card) && !Disciplined(w, Open(id, card))
    ensures !OpenSafe(w.db, w.clock, w.client.running, id, card)
  {
    hide Copy, OpenSafe;
  }

  lemma {:induction false} ExcludedLoses(w: World, userId: int, id: int, card: Issue)
    requires Inv(w) && w.client.running.PutSent? && Copy(w.db, w.clock, id, card) && Decided(w, userId, id, card)
    requires !Disciplined(w, Open(id, card))
    requires var next := ServePutNext(w, userId, w.clock + 1);
      next.client.running.PutAnswered? && Fits(next.db, next.clock, id, card, next.client.running.row.updatedAt)
    ensures CanLose(Next(w, Open(id, card)))
  {
    hide Inv, Handle, CanLose, Next, Copy, OpenSafe, Disciplined, Hashable, Fits, ServePutNext, ServerSound, Written,
         TakesOff, Matches, Resavable, SavedAs;
    assert !OpenSafe(w.db, w.clock, w.client.running, id, card) by { Undisciplined(w, id, card); }
    var save := w.client.running.save;
    var next := ServePutNext(w, userId, w.clock + 1);
    SaveFacts(w, userId);
    PassingRefs(next.db, id, card, userId);
    ExcludedFitting(w, next, w.db.issues.rows[save.id], next.db.issues.rows[save.id], id, card);
    assert Findable(w.db, id, card) by {
      SavedProject(Written(save), w.db.issues.rows[save.id], next.db.issues.rows[save.id], next.clock);
    }
    hide Taken;
    SaveOvertakesRow(w, userId, card);
  }

  lemma {:induction false} SavedProject(written: Issue, row: Issue, after: Issue, now: int)
    requires SavedAs(written, row, after, now) && row.projectId == written.projectId
    ensures after.projectId == row.projectId
  {
  }

  /**
   * While a save is on its way that the server accepts: opening a copy loses an update in some run
   * from there exactly if the discipline forbids it.
   */
  lemma {:induction false} OpenWhileSentExactly(w: World, userId: int, id: int, card: Issue)
    requires Inv(w) && w.client.running.PutSent? && Copy(w.db, w.clock, id, card)
    ensures Decided(w, userId, id, card) ==> (CanLose(Next(w, Open(id, card))) <==> !Disciplined(w, Open(id, card)))
  {
    hide Inv, Handle, CanLose, Next, Copy, ServePutNext, Resavable, TakesOff, Disciplined, Fits, Written, Enabled;
    SafeOpenNeverLoses(w, id, card);
    CopyAfterSave(w, userId, id, card);
    OpenBeforeSaveExactly(w, userId, id, card);
    var next := ServePutNext(w, userId, w.clock + 1);
    if Decided(w, userId, id, card) && !Disciplined(w, Open(id, card))
       && Fits(next.db, next.clock, id, card, next.client.running.row.updatedAt) {
      ExcludedLoses(w, userId, id, card);
    }
  }

  /** What a sound state knows of an issue that is on its way. */
  lemma {:induction false} LateCopy(w: World, id: int, late: Issue)
    requires Inv(w) && BringsIssue(w.client.running, id, late)
    ensures Hashable(late)
  {
    hide ServerSound, CurrentSound, LoadsSound, Hashable, Served, LoadFits;
  }

  lemma {:induction false} LiveCopyFound(db: Database, clock: int, id: int, card: Issue)
    requires Valid(db) && Copy(db, clock, id, card) && Carries(db, id, card.updatedAt)
    ensures Findable(db, id, card)
  {
    hide Hashable;
    assert IssueRefs(db, db.issues.rows[id]);
  }

  /** The discipline while an issue is on its way, and why it fails. */
  lemma {:induction false} IssueDiscipline(w: World, id: int, late: Issue, shown: int, card: Issue)
    requires BringsIssue(w.client.running, id, late) && Copy(w.db, w.clock, shown, card)
    ensures Disciplined(w, Open(shown, card)) <==>
              (Carries(w.db, shown, card.updatedAt) && Carries(w.db, id, card.updatedAt)
               ==> Matches(late, w.db.issues.rows[id], w.db))
  {
    hide Hashable, Matches, Agrees;
  }

  /**
   * While the issue of a reload or of a move is on its way, opening a copy leads to a lost update
   * exactly if it is against the discipline: if the copy is up to date, and the issue on its way has
   * been changed since and carries the copy's stamp, as it does if it is the issue opened.
   */
  lemma {:induction false} OpenBeforeIssueExactly(w: World, id: int, late: Issue, shown: int, card: Issue, userId: int)
    requires Inv(w) && BringsIssue(w.client.running, id, late)
    requires Copy(w.db, w.clock, shown, card) && Resavable(w.db, id, late, userId)
    ensures CanLose(Next(w, Open(shown, card))) <==> !Disciplined(w, Open(shown, card))
  {
    SafeOpenNeverLoses(w, shown, card);
    SoundServer(w);
    LateCopy(w, id, late);
    IssueDiscipline(w, id, late, shown, card);
    if Carries(w.db, shown, card.updatedAt) {
      LiveCopyFound(w.db, w.clock, shown, card);
    }
    hide Inv, Resavable, Matches, CanLose, ServerSound, Hashable, Copy, Handle, Next, Disciplined, BringsIssue,
         Findable;
    if !Disciplined(w, Open(shown, card)) {
      JustOpened(w, shown, card);
      LateIssueOvertakes(Next(w, Open(shown, card)), Held(w.client.nextRef, shown, card), id, late, userId);
    }
  }

  // ----------------------------------------------------------------- cards shown before they are saved

  /** What the drag and the card menu of a list change before their PUT is answered. */
  predicate ShownEarly(card: Issue, row: Issue) {
    card == row.(status := card.status, priority := card.priority, assigneeId := card.assigneeId,
      position := card.position)
  }

  /** The discipline for a card with the row's stamp, in particular for one that is shown early. */
  lemma {:induction false} CardDiscipline(w: World, id: int, card: Issue)
    requires ServerSound(w.db, w.clock) && w.client.running.Idle?
    requires Hashable(card) && Carries(w.db, id, card.updatedAt)
    ensures Disciplined(w, Open(id, card)) <==> Matches(card, w.db.issues.rows[id], w.db)
    ensures var row := w.db.issues.rows[id];
      ShownEarly(card, row) ==> (Matches(card, row, w.db) <==> card == row.(position := card.position))
  {
    hide Hashable, Valid, Stored;
  }

  /**
   * Opening a card with the stamp of its row, which the user could save, leads to a lost update
   * exactly if it does not match the row: if, as a drag shows it before its PUT is answered, it
   * differs in more than its position.
   */
  lemma {:induction false} ShownCardExactly(w: World, id: int, card: Issue, userId: int)
    requires Inv(w) && w.client.running.Idle? && Carries(w.db, id, card.updatedAt)
    requires Hashable(card) && Resavable(w.db, id, card, userId)
    ensures var open := Open(id, card);
            var row := w.db.issues.rows[id];
      && (CanLose(Next(w, open)) <==> !Disciplined(w, open))
      && (ShownEarly(card, row) ==> (Disciplined(w, open) <==> card == row.(position := card.position)))
  {
    hide Hashable, Inv, Resavable, Matches, CanLose, ServerSound, Handle, Fits, Fetch, Next, Enabled, Goes, Disciplined,
         ShownEarly;
    SoundServer(w);
    CardDiscipline(w, id, card);
    SafeOpenNeverLoses(w, id, card);
    if !Disciplined(w, Open(id, card)) {
      JustOpened(w, id, card);
      ResavableFound(w.db, id, card, userId);
      var held := Held(w.client.nextRef, id, card);
      var u := Next(w, Open(id, card));
      var s := u.client.issueLoadSeq;
      var v := RowServed(u, held);
      var x := LoadArrives(v, w.db.issues.rows[id], false);
      HarmfulLoses(x, held, userId);
      LoseBefore(v, DeliverLoadStep(s, false, false), x);
      LoseBefore(u, ServeLoad(s, false), v);
    }
  }
}
