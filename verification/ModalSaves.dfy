/**
 * What becomes of every save and move of the modal: none is dropped without a word. A save whose turn
 * comes while its issue is open is sent once, and ends with an answer or a lost connection.
 */
module ModalSaves {
  import opened Common
  import opened Model
  import opened Db
  import opened Integrity
  import opened Handlers
  import opened Evolution
  import opened PutIssue
  import opened ContentHash
  import opened Checks
  import opened Modal
  import Sanitize

  // ------------------------------------------------------------------------------ the queue

  /** What Enqueue asks for: a move, or a save of the issue that is open then. */
  function Ask(newProjectId: Option<int>, open: Option<Held>): Write {
    match newProjectId
    case Some(p) => MoveWrite(p)
    case None => SaveWrite(match open case Some(held) => Some(held.id) case None => None)
  }

  /** All writes asked for in the first k steps. */
  function Asked(ws: seq<World>, steps: seq<Step>, k: nat): seq<Write>
    requires |ws| == |steps| + 1 && k <= |steps|
  {
    if k == 0 then []
    else
      Asked(ws, steps, k - 1)
      + if steps[k - 1].Enqueue? then [Ask(steps[k - 1].newProjectId, ws[k - 1].client.currentIssue)] else []
  }

  /** How many of them have been started. */
  function Taken(steps: seq<Step>, k: nat): nat
    requires k <= |steps|
  {
    if k == 0 then 0 else Taken(steps, k - 1) + if steps[k - 1].Start? then 1 else 0
  }

  lemma {:induction false} QueueStep(w: World, step: Step)
    requires Enabled(w, step)
    ensures var c, d := w.client, Next(w, step).client;
      && (step.Enqueue? ==> d.queue == c.queue + [Ask(step.newProjectId, c.currentIssue)])
      && (step.Start? ==> c.queue != [] && d.queue == c.queue[1..])
      && (!step.Enqueue? && !step.Start? ==> d.queue == c.queue)
  {
    hide Handle;
  }

  /** In every run the queue holds what was asked for and not started yet, in order: nothing is lost or changed. */
  lemma {:induction false} QueueIsRest(ws: seq<World>, steps: seq<Step>, k: nat)
    requires Run(ws, steps) && k < |ws| && ws[0].client == NO_CLIENT
    ensures Taken(steps, k) <= |Asked(ws, steps, k)|
    ensures ws[k].client.queue == Asked(ws, steps, k)[Taken(steps, k)..]
  {
    hide Next, Enabled, Ask;
    if k > 0 {
      QueueIsRest(ws, steps, k - 1);
      QueueStep(ws[k - 1], steps[k - 1]);
    }
  }

  // ------------------------------------------------------------------------- starting a write

  /** A save in progress: waiting for the revalidation, on its way, answered, or in the conflict dialog. */
  predicate InProgress(r: Running, save: Save) {
    match r
    case WaitLoad(s, _) => s == save
    case PutSent(s, _) => s == save
    case PutAnswered(s, _, _) => s == save
    case Dialog(s) => s == save
    case ReloadSent(s) => s == save
    case ReloadAnswered(s, _) => s == save
    case _ => false
  }

  predicate Unsent(r: Running) {
    r.WaitLoad? || r.PutSent?
  }

  /**
   * What Start does with the first write: a save of the issue that is open is made from the object
   * and the copy that are shown, and waits exactly while a revalidation is pending; a save of another
   * issue ends at once; a move asks the user, if an issue is open.
   */
  lemma {:induction false} StartTakes(w: World, changes: Changes)
    requires Enabled(w, Start(changes))
    ensures var c, d := w.client, Next(w, Start(changes)).client;
      && d == c.(queue := c.queue[1..], running := d.running)
      && match c.queue[0]
         case SaveWrite(issueId) =>
           if c.currentIssue.Some? && issueId == Some(c.currentIssue.value.id) then
             var held := c.currentIssue.value;
             && InProgress(d.running, Save(held.ref, held.id, held.row, changes)) && Unsent(d.running)
             && (d.running.WaitLoad? <==> c.issueLoad.Some?)
             && (d.running.WaitLoad? ==> d.running.seqNo == c.issueLoad.value)
             && (d.running.PutSent? ==> d.running.ifMatch == c.currentEtag)
           else d.running == Idle
         case MoveWrite(p) => d.running == if c.currentIssue.Some? then MoveDialog(p) else Idle
  {
  }

  // --------------------------------------------------------------------------- the life of a save

  /** The ends of a save: its answer, if that is no conflict, the user's choice after one, or a lost connection. */
  predicate Ends(w: World, step: Step) {
    var r := w.client.running;
    || (r.PutAnswered? && r.status != 409 && step.DeliverPutStep?)
    || (r.Dialog? && step == DialogChoice(false))
    || (r.ReloadAnswered? && step.DeliverReloadStep?)
    || ((r.PutSent? || r.PutAnswered?) && step.Lose?)
  }

  /** The request reaches the server once, between being sent and being answered. */
  lemma {:induction false} SaveStep(w: World, step: Step, save: Save)
    requires Enabled(w, step) && InProgress(w.client.running, save)
    ensures var r, next := w.client.running, Next(w, step).client.running;
      && (Ends(w, step) ==> next == Idle)
      && (!Ends(w, step) ==> InProgress(next, save))
      && (step.ServePut? ==> r.PutSent? && next.PutAnswered?)
      && (!Ends(w, step) && !step.ServePut? ==> Unsent(next) == Unsent(r))
      && (r.PutAnswered? && r.status == 409 && step.DeliverPutStep? ==> next == Dialog(save))
      && (r.WaitLoad? ==> next == r || (step == Continue && next.PutSent?))
      && (r.PutSent? ==> next == r || step.ServePut? || step.Lose?)
  {
    hide Handle;
  }

  /** Steps between two points of a run at which the server takes a save. */
  function Served(steps: seq<Step>, j: nat, k: nat): nat
    requires j <= k <= |steps|
    decreases k - j
  {
    if j == k then 0 else Served(steps, j, k - 1) + if steps[k - 1].ServePut? then 1 else 0
  }

  ghost predicate ProgressUntil(ws: seq<World>, save: Save, j: nat, i: nat) {
    j <= i < |ws| && forall m :: j <= m <= i ==> InProgress(ws[m].client.running, save)
  }

  /**
   * The story of every save: from the step that starts it, it is in progress, and the server takes
   * its request once it has been sent, exactly once; until it ends, in one of the ways of Ends. If
   * it ends before the server has taken the request, the connection was lost.
   */
  lemma {:induction false} SaveStory(ws: seq<World>, steps: seq<Step>, save: Save, j: nat, k: nat) returns (i: nat)
    requires Run(ws, steps) && j <= k < |ws| && InProgress(ws[j].client.running, save) && Unsent(ws[j].client.running)
    ensures j <= i <= k && ProgressUntil(ws, save, j, i)
    ensures Served(steps, j, i) == if Unsent(ws[i].client.running) then 0 else 1
    ensures i < k ==> Ends(ws[i], steps[i]) && ws[i + 1].client.running == Idle
    ensures i < k && Served(steps, j, i) == 0 ==> steps[i].Lose?
  {
    hide Next, Enabled, InProgress;
    if j == k {
      i := j;
    } else {
      i := SaveStory(ws, steps, save, j, k - 1);
      if i == k - 1 {
        SaveStep(ws[i], steps[i], save);
        if !Ends(ws[i], steps[i]) {
          i := k;
        }
      }
    }
  }

  /** What the server does with its request, and the answer: the status, and the row as it is then. */
  lemma {:induction false} SaveServed(w: World, userId: int, now: int)
    requires Inv(w) && Enabled(w, ServePut(userId, now))
    ensures var save := w.client.running.save;
            var u := Next(w, ServePut(userId, now));
            var (after, status) := Handle(w.db, PutRequest(w.client.running, userId), now);
      && u.db == after && u.clock == now && u.client == w.client.(running := u.client.running)
      && u.client.running.PutAnswered? && u.client.running.save == save && u.client.running.status == status
      && (status == 200 ==> save.id in after.issues.rows && u.client.running.row == after.issues.rows[save.id])
  {
    hide Handle, Inv, PutRequest, LabelPasses, ReleasePasses, SavedAs, Written;
    PutAnswer(w, userId, now);
  }

  /** A save that waits, or is on its way, can always go on. */
  lemma {:induction false} SaveGoesOn(w: World, save: Save, userId: int)
    requires InProgress(w.client.running, save)
    ensures match w.client.running
      case WaitLoad(_, s) =>
        if s !in w.client.loads then Enabled(w, Continue)
        else if w.client.loads[s].answer.None? then Enabled(w, ServeLoad(s, false))
        else
          && Enabled(w, DeliverLoadStep(s, false, false))
          && s !in Next(w, DeliverLoadStep(s, false, false)).client.loads
      case PutSent(_, _) => Enabled(w, ServePut(userId, w.clock + 1))
      case PutAnswered(_, _, _) => Enabled(w, DeliverPutStep(false))
      case Dialog(_) => Enabled(w, DialogChoice(true)) && Enabled(w, DialogChoice(false))
      case ReloadSent(_) => Enabled(w, ServeReload(false))
      case ReloadAnswered(_, _) => Enabled(w, DeliverReloadStep(false))
      case _ => true
  {
    hide Handle;
  }

  /** It goes with the modal's tag, if its object is still shown, and with a tag that no issue has otherwise. */
  lemma {:induction false} ContinueSends(w: World, save: Save)
    requires Enabled(w, Continue) && InProgress(w.client.running, save)
    ensures var c, d := w.client, Next(w, Continue).client;
      && d == c.(running := d.running) && d.running.PutSent? && d.running.save == save
      && (c.currentIssue.Some? && c.currentIssue.value.ref == save.ref ==> d.running.ifMatch == c.currentEtag)
      && (!(c.currentIssue.Some? && c.currentIssue.value.ref == save.ref) ==>
            d.running.ifMatch.Some? && d.running.ifMatch.value.stamp.None?)
  {
  }

  // ----------------------------------------------------------------------- what a save writes

  /** The body has every field as the save sets it, and the others as the copy has them. */
  lemma {:induction false} BodyOfSave(w: World, userId: int)
    requires w.client.running.PutSent?
    ensures var save := w.client.running.save;
            var req := PutRequest(w.client.running, userId);
            var c, base, body := save.changes, save.base, req.body;
      && req == PutIssue(body.projectId, save.id, userId, w.client.running.ifMatch, body)
      && body.title == (if c.title.Some? then c.title.value else base.title)
      && body.description == (if c.description.Some? then c.description.value else base.description)
      && body.status == (if c.status.Some? then c.status.value else base.status)
      && body.priority == (if c.priority.Some? then c.priority.value else base.priority)
      && body.position == (if c.position.Some? then c.position.value else base.position)
      && body.deadline == (if c.deadline.Some? then c.deadline.value else base.deadline)
      && body.planned == (if c.planned.Some? then c.planned.value else base.planned)
      && body.labelId == (if c.labelId.Some? then c.labelId.value else base.labelId)
      && body.assigneeId == (if c.assigneeId.Some? then c.assigneeId.value else base.assigneeId)
      && body.releaseId == (if c.releaseId.Some? then c.releaseId.value else base.releaseId)
      && body.projectId == (if c.projectId.Some? then c.projectId.value else base.projectId)
  {
  }

  /** The row has every field that the save sets: texts as they are cleaned, the deadline to the second. */
  predicate HasChanges(row: Issue, c: Changes) {
    && (c.title.Some? ==> row.title == Sanitize.SanitizeString(c.title.value))
    && (c.description.Some? ==> row.description == Sanitize.CleanDescription(c.description.value))
    && (c.status.Some? ==> row.status == c.status.value)
    && (c.priority.Some? ==> row.priority == c.priority.value)
    && (c.position.Some? ==> row.position == c.position.value)
    && (c.deadline.Some? ==> ToSecond(row.deadline) == ToSecond(c.deadline.value))
    && (c.planned.Some? ==> Dates(row.planned) == Dates(c.planned.value))
    && (c.labelId.Some? ==> row.labelId == c.labelId.value)
    && (c.assigneeId.Some? ==> row.assigneeId == c.assigneeId.value)
    && (c.releaseId.Some? ==> row.releaseId == c.releaseId.value)
  }

  lemma {:induction false} SavedHasChanges(body: Issue, current: Issue, i: Issue, row: Issue, c: Changes, now: int)
    requires Saved(current, i, row, now) && exists base :: body == Apply(base, c)
    requires i == Cleaned(body).(creatorId := i.creatorId, projectId := i.projectId, updaterId := i.updaterId)
    ensures HasChanges(row, c)
  {
  }

  /** A save that the server accepts has been written: with AcceptedSaveLeavesRest, that and nothing else. */
  lemma {:induction false} AcceptedSaveWrites(w: World, userId: int, now: int)
    requires Inv(w) && w.client.running.PutSent? && w.clock < now
    requires Handle(w.db, PutRequest(w.client.running, userId), now).1 == 200
    ensures var save := w.client.running.save;
            var after := Handle(w.db, PutRequest(w.client.running, userId), now).0;
      && save.id in after.issues.rows && HasChanges(after.issues.rows[save.id], save.changes)
      && forall id :: id != save.id && id in w.db.issues.rows ==>
           id in after.issues.rows && after.issues.rows[id] == w.db.issues.rows[id]
  {
    hide Handle, Hashable, Apply, ValidateIssue, Saved, Valid, Stored, StampsBelow, CurrentSound, LoadsSound,
         LabelPasses, ReleasePasses, AssigneePasses, HasChanges, Modal.Fits, SentBeside, Beside;
    var save := w.client.running.save;
    var req := PutRequest(w.client.running, userId);
    ApplyDecodable(save);
    PutExact(w.db, req, now);
    var current := w.db.issues.rows[save.id];
    var i := PutRow(ValidateIssue(req.body).value, current, req.projectId, userId);
    assert i == Cleaned(req.body).(creatorId := i.creatorId, projectId := i.projectId, updaterId := i.updaterId);
    SavedHasChanges(req.body, current, i, Handle(w.db, req, now).0.issues.rows[save.id], save.changes, now);
  }

  // ------------------------------------------------------------------------- what the modal shows

  /** Opening an issue shows the card and starts its revalidation, and any other revalidation is superseded. */
  lemma {:induction false} OpenShows(w: World, id: int, card: Issue)
    ensures var c, d := w.client, Next(w, Open(id, card)).client;
      && d.currentIssue == Some(Held(c.nextRef, id, card)) && d.currentEtag.None? && d.nextRef > c.nextRef
      && d.issueLoad == Some(d.issueLoadSeq) && d.issueLoadSeq > c.issueLoadSeq && d.issueLoadSeq in d.loads
      && d.loads[d.issueLoadSeq] == Load(id, card.projectId, card.updatedAt, None)
      && d.queue == c.queue && d.running == c.running
  {
  }

  /**
   * A revalidation that has not been superseded closes an issue that is gone, keeps a copy that is
   * up to date, with its tag, and replaces an older one, unless the user is editing: then the copy
   * stays and its tag will be refused. A superseded one changes nothing that is shown.
   */
  lemma {:induction false} RevalidationShows(w: World, s: nat, editing: bool, weak: bool)
    requires Enabled(w, DeliverLoadStep(s, editing, weak))
    ensures var c, d := w.client, Next(w, DeliverLoadStep(s, editing, weak)).client;
            var load := c.loads[s];
      && d.loads == c.loads - {s} && d.queue == c.queue && d.running == c.running
      && (if s != c.issueLoadSeq then
            d.currentIssue == c.currentIssue && d.currentEtag == c.currentEtag && d.issueLoad == c.issueLoad
          else if load.answer.value.None? then d.currentIssue.None?
          else
            var row := load.answer.value.value;
            && d.issueLoad.None?
            && (if row.updatedAt == load.baseStamp then
                  d.currentIssue == c.currentIssue && d.currentEtag == Some(ETag(weak, Some(row.updatedAt)))
                else if editing then
                  d.currentIssue == c.currentIssue && d.currentEtag.Some? && d.currentEtag.value.stamp.None?
                else
                  && d.currentIssue.Some? && d.currentIssue.value.row == row && d.currentIssue.value.id == load.id
                  && d.currentEtag == Some(ETag(weak, Some(row.updatedAt)))))
  {
  }

  /** The server's answer to a revalidation or to a reload: the row in the project asked for, unless it is lost. */
  lemma {:induction false} FetchesServe(w: World, s: nat, lost: bool)
    ensures Enabled(w, ServeLoad(s, lost)) ==>
      var load := w.client.loads[s];
      Next(w, ServeLoad(s, lost)) == w.(client := w.client.(loads := w.client.loads[s := load.(answer := Some(
        if !lost && load.projectId in w.db.projects.rows && load.id in w.db.issues.rows
           && w.db.issues.rows[load.id].projectId == load.projectId
        then Some(w.db.issues.rows[load.id]) else None))]))
    ensures Enabled(w, ServeReload(lost)) ==>
      var save := w.client.running.save;
      var projectId := Set(save.changes.projectId, save.base.projectId);
      Next(w, ServeReload(lost)) == w.(client := w.client.(running := ReloadAnswered(save,
        if !lost && projectId in w.db.projects.rows && save.id in w.db.issues.rows
           && w.db.issues.rows[save.id].projectId == projectId
        then Some(w.db.issues.rows[save.id]) else None)))
  {
  }

  /** A reload shows the row it found, with its tag; if it found none, everything stays as it was. */
  lemma {:induction false} ReloadShows(w: World, weak: bool)
    requires w.client.running.ReloadAnswered?
    ensures var c, d := w.client, Next(w, DeliverReloadStep(weak)).client;
      match c.running.found
      case None => d == c.(running := Idle)
      case Some(row) =>
        && d.running == Idle && d.currentEtag == Some(ETag(weak, Some(row.updatedAt))) && d.issueLoad == c.issueLoad
        && d.currentIssue.Some? && d.currentIssue.value.id == c.running.save.id && d.currentIssue.value.row == row
        && d.loads == c.loads && d.queue == c.queue
  {
  }

  /** What brings an issue into the modal: opening one, a reload that finds it, a move that succeeds. */
  predicate Brings(step: Step) {
    step.Open? || step.DeliverReloadStep? || step.DeliverMoveStep?
  }

  /** Nothing is open, and no revalidation can open anything. */
  predicate Shut(c: Client) {
    c.currentIssue.None? && forall s :: s in c.loads ==> s < c.issueLoadSeq
  }

  lemma {:induction false} CloseShuts(w: World)
    requires Inv(w)
    ensures Shut(Next(w, Close).client)
  {
    hide ServerSound, Copy, Modal.Fits, RunningSound;
  }

  lemma {:induction false} ShutStep(w: World, step: Step)
    requires Shut(w.client) && Enabled(w, step) && !Brings(step)
    ensures Shut(Next(w, step).client)
  {
    hide Handle;
  }

  /** After closing nothing is open until something brings an issue: no late revalidation opens it again. */
  lemma {:induction false} ClosedStaysClosed(ws: seq<World>, steps: seq<Step>, j: nat, k: nat)
    requires Run(ws, steps) && j < k < |ws| && Inv(ws[j]) && steps[j] == Close
    requires forall m :: j < m < k ==> !Brings(steps[m])
    ensures Shut(ws[k].client)
  {
    hide Next, Enabled, Inv, Shut;
    if j + 1 == k {
      CloseShuts(ws[j]);
    } else {
      ClosedStaysClosed(ws, steps, j, k - 1);
      ShutStep(ws[k - 1], steps[k - 1]);
    }
  }

  /** The answer of an accepted save: the row it left, in the same object if that is still shown, and its tag. */
  lemma {:induction false} AnswerShows(w: World, weak: bool)
    requires w.client.running.PutAnswered? && w.client.running.status == 200
    ensures var c, d := w.client, Next(w, DeliverPutStep(weak)).client;
            var row := c.running.row;
      && d.currentEtag == Some(ETag(weak, Some(row.updatedAt))) && d.running == Idle
      && (if c.currentIssue.Some? && c.currentIssue.value.ref == c.running.save.ref
          then d.currentIssue == Some(Held(c.currentIssue.value.ref, c.currentIssue.value.id, row))
          else d.currentIssue == c.currentIssue)
  {
  }

  // ----------------------------------------------------------------------------------- moves

  /** A move in progress: in its dialog, on its way, or answered. */
  predicate Moving(r: Running, newProjectId: int) {
    match r
    case MoveDialog(p) => p == newProjectId
    case MoveSent(_, _, p) => p == newProjectId
    case MoveAnswered(_, p, _, _) => p == newProjectId
    case _ => false
  }

  /**
   * A move stays in progress until the user gives it up or it succeeds. Confirming it sends it for
   * the issue that is shown; after a refusal or a lost connection the dialog is back.
   */
  lemma {:induction false} MoveStep(w: World, step: Step, newProjectId: int)
    requires Enabled(w, step) && Moving(w.client.running, newProjectId)
    ensures var c, d := w.client, Next(w, step).client;
            var r, next := c.running, d.running;
      && (next == Idle <==> step == MoveChoice(false) || (r.MoveAnswered? && r.status == 200 && step.DeliverMoveStep?))
      && (next != Idle ==> Moving(next, newProjectId))
      && (step == MoveChoice(true) && c.currentIssue.Some? ==>
            next == MoveSent(c.currentIssue.value.id, c.currentIssue.value.row.projectId, newProjectId))
      && (r.MoveAnswered? && r.status != 200 && step.DeliverMoveStep? ==> next == MoveDialog(newProjectId))
      && (step.Lose? ==> next == MoveDialog(newProjectId))
      && (r.MoveAnswered? && r.status == 200 && step.DeliverMoveStep? ==>
            && d.currentIssue.Some? && d.currentIssue.value.id == r.id && d.currentIssue.value.row == r.row
            && d.currentEtag == Some(ETag(step.weak, Some(r.row.updatedAt))))
  {
    hide Handle;
  }

  /** What the server does with it is the move of that issue, answered with its row. */
  lemma {:induction false} MoveServed(w: World, userId: int, now: int)
    requires Inv(w) && Enabled(w, ServeMove(userId, now)) && w.client.running.id in w.db.issues.rows
    ensures var r, u := w.client.running, Next(w, ServeMove(userId, now));
            var (after, status) := Handle(w.db, Request.MoveIssue(r.projectId, r.id, userId, r.newProjectId), now);
      && u.db == after && u.clock == now && r.id in after.issues.rows
      && u.client.running == MoveAnswered(r.id, r.newProjectId, status, after.issues.rows[r.id])
  {
    assert Valid(w.db);
    hide Handle, Inv, Valid;
    MoveExact(w.db, w.client.running.projectId, w.client.running.id, userId, w.client.running.newProjectId, now);
  }
}
