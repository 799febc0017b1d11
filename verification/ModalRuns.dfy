/** Quiet sessions of the modal, without another writer: no save is answered with a conflict. */
module ModalRuns {
  import opened Common
  import opened Model
  import opened Db
  import opened Handlers
  import opened Evolution
  import opened PutIssue
  import opened ContentHash
  import opened Checks
  import opened Modal

  // --------------------------------------------------------------------------- no false conflict

  predicate TagIs(tag: Option<ETag>, stamp: int) {
    tag.Some? && tag.value.stamp == Some(stamp)
  }

  predicate Owns(held: Held, save: Save) {
    save.ref == held.ref && save.id == held.id
  }

  /** An open issue whose tag is that of the server's row, or becomes it with the answer on its way. */
  predicate Calm(db: Database, c: Client, id: int) {
    && id in db.issues.rows && c.issueLoad.None? && c.currentIssue.Some? && c.currentIssue.value.id == id
    && var stamp := db.issues.rows[id].updatedAt;
       var held := c.currentIssue.value;
       match c.running
       case Idle => TagIs(c.currentEtag, stamp)
       case WaitLoad(save, _) => Owns(held, save) && TagIs(c.currentEtag, stamp)
       case PutSent(save, tag) => Owns(held, save) && TagIs(c.currentEtag, stamp) && TagIs(tag, stamp)
       case PutAnswered(save, status, row) =>
         Owns(held, save) && status != 409
           && (if status == 200 then row.updatedAt == stamp else TagIs(c.currentEtag, stamp))
       case MoveDialog(_) => TagIs(c.currentEtag, stamp)
       case MoveSent(moved, _, _) => moved == id && TagIs(c.currentEtag, stamp)
       case MoveAnswered(moved, _, status, row) =>
         moved == id && (if status == 200 then row.updatedAt == stamp else TagIs(c.currentEtag, stamp))
       case _ => false
  }

  /** One session without another writer: nobody else stamps or deletes the issue, and no answer is lost. */
  predicate Quiet(w: World, step: Step, id: int) {
    match step
    case Server(req, now) =>
      && id in w.db.issues.rows && id in Handle(w.db, req, now).0.issues.rows
      && Handle(w.db, req, now).0.issues.rows[id].updatedAt == w.db.issues.rows[id].updatedAt
    case Open(_, _) => false
    case Close => false
    case Lose => false
    case _ => true
  }

  lemma {:induction false} PutStaysCalm(w: World, userId: int, now: int, id: int)
    requires Inv(w) && Calm(w.db, w.client, id) && w.client.running.PutSent? && w.clock < now
    ensures Calm(ServePutNext(w, userId, now).db, ServePutNext(w, userId, now).client, id)
  {
    hide Handle, Hashable, Valid, Stored, StampsBelow, Served, ValidateIssue, Apply, Saved, CurrentSound, LoadsSound;
    ApplyDecodable(w.client.running.save);
    PutExact(w.db, PutRequest(w.client.running, userId), now);
  }

  lemma {:induction false} MoveStaysCalm(w: World, userId: int, now: int, id: int)
    requires Inv(w) && Calm(w.db, w.client, id) && w.client.running.MoveSent? && w.clock < now
    ensures Calm(ServeMoveNext(w, userId, now).db, ServeMoveNext(w, userId, now).client, id)
  {
    hide Handle, Valid, Stored, StampsBelow, ClientSound;
    var r := w.client.running;
    MoveExact(w.db, r.projectId, r.id, userId, r.newProjectId, now);
  }

  lemma {:induction false} ServerStaysCalm(w: World, req: Request, now: int, id: int)
    requires Calm(w.db, w.client, id) && Quiet(w, Server(req, now), id)
    ensures Calm(Handle(w.db, req, now).0, w.client, id)
  {
    hide Handle;
  }

  lemma {:induction false} ClientStaysCalm(w: World, step: Step, id: int)
    requires ClientSound(w.db, w.clock, w.client) && Calm(w.db, w.client, id) && Quiet(w, step, id) && Enabled(w, step)
    requires !step.Server? && !step.ServePut? && !step.ServeMove?
    ensures Calm(w.db, ClientNext(w.db, w.client, step), id)
  {
    hide Handle, Copy, Fits, SentBeside, Beside, LoadFits, CanMatch, Carries;
  }

  lemma {:induction false} NextStaysCalm(w: World, step: Step, id: int)
    requires Inv(w) && Calm(w.db, w.client, id) && Quiet(w, step, id) && Enabled(w, step)
    ensures Calm(Next(w, step).db, Next(w, step).client, id)
  {
    hide ServerSound, ClientSound, Calm, Quiet, Handle, ServePutNext, ServeMoveNext, ClientNext, Copy;
    match step
    case Server(req, now) => ServerStaysCalm(w, req, now, id);
    case ServePut(userId, now) => PutStaysCalm(w, userId, now, id);
    case ServeMove(userId, now) => MoveStaysCalm(w, userId, now, id);
    case _ => ClientStaysCalm(w, step, id);
  }

  /** A revalidation that matches an unchanged row makes the session calm. */
  lemma {:induction false} MatchIsCalm(w: World, s: nat, editing: bool, weak: bool, id: int)
    requires Inv(w) && s in w.client.loads && s == w.client.issueLoadSeq
    requires w.client.currentIssue.Some? && w.client.currentIssue.value.id == id && id in w.db.issues.rows
    requires var r := w.client.running;
      r.Idle? || r.MoveDialog? || (r.WaitLoad? && Owns(w.client.currentIssue.value, r.save))
    requires var load := w.client.loads[s];
      && load.answer.Some? && load.answer.value.Some? && load.answer.value.value.updatedAt == load.baseStamp
      && w.db.issues.rows[id].updatedAt == load.baseStamp
    ensures Calm(w.db, Next(w, DeliverLoadStep(s, editing, weak)).client, id)
  {
    hide Inv;
  }

  /**
   * No false conflict: from a calm state on, in a quiet session, every state is calm: no save is
   * answered with a conflict, however saves and moves are queued and whatever the server refuses.
   */
  lemma {:induction false} NoFalseConflict(ws: seq<World>, steps: seq<Step>, id: int, k: nat)
    requires Run(ws, steps) && Inv(ws[0]) && Calm(ws[0].db, ws[0].client, id)
    requires forall j :: 0 <= j < |steps| ==> Quiet(ws[j], steps[j], id)
    requires k < |ws|
    ensures Inv(ws[k]) && Calm(ws[k].db, ws[k].client, id)
    ensures !(ws[k].client.running.PutAnswered? && ws[k].client.running.status == 409)
  {
    hide Inv, Next, Enabled;
    if k > 0 {
      NoFalseConflict(ws, steps, id, k - 1);
      NextKeepsInv(ws[k - 1], steps[k - 1]);
      NextStaysCalm(ws[k - 1], steps[k - 1], id);
    }
  }
}
