/**
 * static/js/components/modal.js together with the server: every handler is one step, and so is
 * every stretch of client code between two awaits.
 */
module Modal {
  import opened Common
  import opened Model
  import opened Db
  import opened Integrity
  import opened Handlers
  import opened Evolution
  import opened PutIssue
  import opened ContentHash
  import opened Checks
  import Sanitize
  import Text

  // ------------------------------------------------------------------------------ client state

  /** state.currentIssue: an object, which a save compares by reference, and the issue in it. */
  datatype Held = Held(ref: nat, id: int, row: Issue)

  /** A revalidateIssue call; answer is None until the server has answered, Some(None) if it found nothing. */
  datatype Load = Load(id: int, projectId: int, baseStamp: int, answer: Option<Option<Issue>>)

  /** The fields a save sets; None leaves the field as the copy has it. */
  datatype Changes = Changes(
    title: Option<string>, description: Option<string>, status: Option<string>, priority: Option<string>,
    position: Option<int>, deadline: Option<Option<Moment>>, planned: Option<Option<seq<string>>>,
    labelId: Option<Option<int>>, assigneeId: Option<Option<int>>, releaseId: Option<Option<int>>,
      projectId: Option<int>)

  function Set<T>(change: Option<T>, current: T): T {
    if change.Some? then change.value else current
  }

  /** { ...issue, ...changes } */
  function Apply(i: Issue, c: Changes): Issue {
    i.(title := Set(c.title, i.title), description := Set(c.description, i.description),
      status := Set(c.status, i.status),
       priority := Set(c.priority, i.priority), position := Set(c.position, i.position),
       deadline := Set(c.deadline, i.deadline), planned := Set(c.planned, i.planned),
         labelId := Set(c.labelId, i.labelId),
       assigneeId := Set(c.assigneeId, i.assigneeId), releaseId := Set(c.releaseId, i.releaseId),
       projectId := Set(c.projectId, i.projectId))
  }

  /** A save in progress: the object and the copy it was built from, and what it sets. */
  datatype Save = Save(ref: nat, id: int, base: Issue, changes: Changes)

  /** Queued writes: saveIssueChanges remembers the open issue's id, a move only its target. */
  datatype Write = SaveWrite(issueId: Option<int>) | MoveWrite(newProjectId: int)

  /** Where the running write waits. */
  datatype Running =
    | Idle
    | WaitLoad(save: Save, seqNo: nat)
    | PutSent(save: Save, ifMatch: Option<ETag>)
    | PutAnswered(save: Save, status: nat, row: Issue)
    | Dialog(save: Save)
    | ReloadSent(save: Save)
    | ReloadAnswered(save: Save, found: Option<Issue>)
    | MoveDialog(newProjectId: int)
    | MoveSent(id: int, projectId: int, newProjectId: int)
    | MoveAnswered(id: int, newProjectId: int, status: nat, row: Issue)

  datatype Client = Client(
    currentIssue: Option<Held>, currentEtag: Option<ETag>, issueLoad: Option<nat>, issueLoadSeq: nat,
    loads: map<nat, Load>, queue: seq<Write>, running: Running, nextRef: nat)

  const STALE_ETAG := ETag(false, None)

  // ----------------------------------------------------------------- client steps (modal.js)

  /** openModal with the caller's copy of an issue. */
  function OpenModal(c: Client, id: int, copy: Issue): Client {
    var seqNo := c.issueLoadSeq + 1;
    c.(currentIssue := Some(Held(c.nextRef, id, copy)), currentEtag := None, issueLoad := Some(seqNo),
      issueLoadSeq := seqNo,
       loads := c.loads[seqNo := Load(id, copy.projectId, copy.updatedAt, None)], nextRef := c.nextRef + 1)
  }

  /** closeModal; openModal() for a new issue does the same to these variables. */
  function CloseModal(c: Client): Client {
    c.(currentIssue := None, currentEtag := None, issueLoad := None, issueLoadSeq := c.issueLoadSeq + 1)
  }

  /** setCurrentIssue with an issue from the server, and its tag. */
  function Replace(c: Client, id: int, row: Issue, weak: bool): Client {
    c.(currentIssue := Some(Held(c.nextRef, id, row)), currentEtag := Some(ETag(weak, Some(row.updatedAt))),
      nextRef := c.nextRef + 1)
  }

  /** revalidateIssue after its await. */
  function DeliverLoad(c: Client, seqNo: nat, editing: bool, weak: bool): Client
    requires seqNo in c.loads && c.loads[seqNo].answer.Some?
  {
    var load := c.loads[seqNo];
    var settled := c.(loads := c.loads - {seqNo});
    if seqNo != c.issueLoadSeq then settled
    else if load.answer.value.None? then CloseModal(settled)
    else
      var loadedRow := load.answer.value.value;
      var loaded := settled.(issueLoad := None);
      if loadedRow.updatedAt == load.baseStamp then loaded.(currentEtag := Some(ETag(weak, Some(loadedRow.updatedAt))))
      else if editing then loaded.(currentEtag := Some(STALE_ETAG))
      else Replace(loaded, load.id, loadedRow, weak)
  }

  /** The start of the next queued write; etagForSave either has a tag or waits for the revalidation. */
  function StartWrite(c: Client, changes: Changes): Client
    requires c.running.Idle? && c.queue != []
  {
    var rest := c.(queue := c.queue[1..]);
    match c.queue[0]
    case MoveWrite(newProjectId) => if c.currentIssue.None? then rest else rest.(running := MoveDialog(newProjectId))
    case SaveWrite(issueId) =>
      if c.currentIssue.None? || issueId != Some(c.currentIssue.value.id) then rest
      else
        var held := c.currentIssue.value;
        var save := Save(held.ref, held.id, held.row, changes);
        if c.issueLoad.None? then rest.(running := PutSent(save, c.currentEtag))
        else rest.(running := WaitLoad(save, c.issueLoad.value))
  }

  /** etagForSave after its await. */
  function ContinueSave(c: Client): Client
    requires c.running.WaitLoad?
  {
    var save := c.running.save;
    var same := c.currentIssue.Some? && c.currentIssue.value.ref == save.ref;
    c.(running := PutSent(save, if same then c.currentEtag else Some(STALE_ETAG)))
  }

  /** updateIssue has answered: a conflict opens the dialog, an error ends the write, success takes the copy. */
  function DeliverPut(c: Client, weak: bool): Client
    requires c.running.PutAnswered?
  {
    var save := c.running.save;
    if c.running.status == 409 then c.(running := Dialog(save))
    else if c.running.status != 200 then c.(running := Idle)
    else
      var same := c.currentIssue.Some? && c.currentIssue.value.ref == save.ref;
      c.(running := Idle, currentEtag := Some(ETag(weak, Some(c.running.row.updatedAt))),
         currentIssue := if same then Some(c.currentIssue.value.(row := c.running.row)) else c.currentIssue)
  }

  /** The conflict dialog's Reload, after its await. */
  function DeliverReload(c: Client, weak: bool): Client
    requires c.running.ReloadAnswered?
  {
    var idle := c.(running := Idle);
    if c.running.found.None? then idle else Replace(idle, c.running.save.id, c.running.found.value, weak)
  }

  /** moveIssueToProject after a move; a refused move leaves the password dialog open. */
  function DeliverMove(c: Client, weak: bool): Client
    requires c.running.MoveAnswered?
  {
    if c.running.status != 200 then c.(running := MoveDialog(c.running.newProjectId))
    else Replace(c.(running := Idle), c.running.id, c.running.row, weak)
  }

  // ----------------------------------------------------------------------------------- worlds

  datatype World = World(db: Database, clock: int, client: Client)

  datatype Step =
    | Server(req: Request, now: int)
    | Open(id: int, card: Issue)
    | Close
    | ServeLoad(seqNo: nat, lost: bool)
    | DeliverLoadStep(seqNo: nat, editing: bool, weak: bool)
    | Enqueue(newProjectId: Option<int>)
    | Start(changes: Changes)
    | Continue
    | ServePut(userId: int, now: int)
    | DeliverPutStep(weak: bool)
    | DialogChoice(reload: bool)
    | ServeReload(lost: bool)
    | DeliverReloadStep(weak: bool)
    | MoveChoice(confirm: bool)
    | ServeMove(userId: int, now: int)
    | DeliverMoveStep(weak: bool)
    | Lose

  /**
   * A copy of an issue that is as good as one that the server once answered with: as long as its row
   * carries its stamp, it matches the row.
   */
  ghost predicate Copy(db: Database, clock: int, id: int, copy: Issue) {
    Hashable(copy) && Fits(db, clock, id, copy, copy.updatedAt)
  }

  /** The request the running save sends. */
  function PutRequest(r: Running, userId: int): Request
    requires r.PutSent?
  {
    var body := Apply(r.save.base, r.save.changes);
    PutIssue(body.projectId, r.save.id, userId, r.ifMatch, body)
  }

  /** handleGetIssue; a lost answer reads like a missing issue (fetchIssueById). */
  function Fetch(db: Database, projectId: int, id: int, lost: bool): Option<Issue> {
    if lost || projectId !in db.projects.rows then None else InProject(db, id, projectId)
  }

  function RowOr(db: Database, id: int, i: Issue): Issue {
    if id in db.issues.rows then db.issues.rows[id] else i
  }

  ghost predicate Enabled(w: World, step: Step) {
    var c := w.client;
    match step
    case Server(req, now) => w.clock < now && BodyDecodable(req)
    case Open(_, card) => Decodable(card)
    case Close => true
    case ServeLoad(s, _) => s in c.loads && c.loads[s].answer.None?
    case DeliverLoadStep(s, _, _) => s in c.loads && c.loads[s].answer.Some?
    case Enqueue(_) => true
    case Start(changes) =>
      && c.running.Idle? && c.queue != []
      && (changes.deadline.Some? && changes.deadline.value.Some? ==> IsMoment(changes.deadline.value.value))
    case Continue => c.running.WaitLoad? && c.running.seqNo !in c.loads
    case ServePut(_, now) => c.running.PutSent? && w.clock < now
    case DeliverPutStep(_) => c.running.PutAnswered?
    case DialogChoice(_) => c.running.Dialog?
    case ServeReload(_) => c.running.ReloadSent?
    case DeliverReloadStep(_) => c.running.ReloadAnswered?
    case MoveChoice(_) => c.running.MoveDialog?
    case ServeMove(_, now) => c.running.MoveSent? && w.clock < now
    case DeliverMoveStep(_) => c.running.MoveAnswered?
    case Lose => c.running.PutSent? || c.running.PutAnswered? || c.running.MoveSent? || c.running.MoveAnswered?
  }

  function ServePutNext(w: World, userId: int, now: int): World
    requires w.client.running.PutSent?
  {
    var r := w.client.running;
    var (after, status) := Handle(w.db, PutRequest(r, userId), now);
    World(after, now, w.client.(running := PutAnswered(r.save, status, RowOr(after, r.save.id, r.save.base))))
  }

  function ServeMoveNext(w: World, userId: int, now: int): World
    requires w.client.running.MoveSent?
  {
    var r := w.client.running;
    var (after, status) := Handle(w.db, Request.MoveIssue(r.projectId, r.id, userId, r.newProjectId), now);
    if r.id !in after.issues.rows then World(after, now, w.client.(running := MoveDialog(r.newProjectId)))
    else World(after, now, w.client.(running := MoveAnswered(r.id, r.newProjectId, status, after.issues.rows[r.id])))
  }

  /** The client's part of the steps that leave the server alone. */
  function ClientNext(db: Database, c: Client, step: Step): Client {
    match step
    case Open(id, card) => OpenModal(c, id, card)
    case Close => CloseModal(c)
    case ServeLoad(s, lost) =>
      if s !in c.loads then c
      else c.(loads := c.loads[s := c.loads[s].(answer := Some(Fetch(db, c.loads[s].projectId, c.loads[s].id, lost)))])
    case DeliverLoadStep(s, editing, weak) =>
      if s in c.loads && c.loads[s].answer.Some? then DeliverLoad(c, s, editing, weak) else c
    case Enqueue(newProjectId) =>
      c.(queue := c.queue + [if newProjectId.Some? then MoveWrite(newProjectId.value)
                             else SaveWrite(if c.currentIssue.Some? then Some(c.currentIssue.value.id) else None)])
    case Start(changes) => if c.running.Idle? && c.queue != [] then StartWrite(c, changes) else c
    case Continue => if c.running.WaitLoad? then ContinueSave(c) else c
    case DeliverPutStep(weak) => if c.running.PutAnswered? then DeliverPut(c, weak) else c
    case DialogChoice(reload) =>
      if c.running.Dialog? then c.(running := if reload then ReloadSent(c.running.save) else Idle) else c
    case ServeReload(lost) =>
      if c.running.ReloadSent? then
        var body := Apply(c.running.save.base, c.running.save.changes);
        c.(running := ReloadAnswered(c.running.save, Fetch(db, body.projectId, c.running.save.id, lost)))
      else c
    case DeliverReloadStep(weak) => if c.running.ReloadAnswered? then DeliverReload(c, weak) else c
    case MoveChoice(confirm) =>
      if !c.running.MoveDialog? then c
      else if !confirm then c.(running := Idle)
      else if c.currentIssue.None? then c
      else
        var held := c.currentIssue.value;
        c.(running := MoveSent(held.id, held.row.projectId, c.running.newProjectId))
    case DeliverMoveStep(weak) => if c.running.MoveAnswered? then DeliverMove(c, weak) else c
    case Lose => c.(running := if c.running.MoveSent? || c.running.MoveAnswered? then MoveDialog(c.running.newProjectId)
      else Idle)
    case _ => c
  }

  function Next(w: World, step: Step): World {
    match step
    case Server(req, now) => World(Handle(w.db, req, now).0, now, w.client)
    case ServePut(userId, now) => if w.client.running.PutSent? then ServePutNext(w, userId, now) else w
    case ServeMove(userId, now) => if w.client.running.MoveSent? then ServeMoveNext(w, userId, now) else w
    case _ => w.(client := ClientNext(w.db, w.client, step))
  }

  // -------------------------------------------------------------------------------- invariant

  /** The row carries this stamp, so a tag with it matches. */
  predicate Carries(db: Database, id: int, stamp: int) {
    id in db.issues.rows && db.issues.rows[id].updatedAt == stamp
  }

  /**
   * A save built from this copy puts back what the row has in every field it does not set: the copy
   * has the row's fields, the title as a save cleans it, or a label or release that is gone.
   */
  predicate Matches(copy: Issue, row: Issue, db: Database) {
    && Sanitize.SanitizeString(copy.title) == Sanitize.SanitizeString(row.title) && copy.description == row.description
    && copy.status == row.status && copy.priority == row.priority && copy.deadline == row.deadline
    && copy.planned == row.planned && copy.assigneeId == row.assigneeId && copy.projectId == row.projectId
    && RefKept(copy.labelId, row.labelId, db.labels) && RefKept(copy.releaseId, row.releaseId, db.releases)
  }

  /** A tag with this stamp is safe for the copy: if it still names the row, the copy matches the row. */
  ghost predicate Fits(db: Database, clock: int, id: int, copy: Issue, stamp: int) {
    stamp <= clock && (Carries(db, id, stamp) ==> Matches(copy, db.issues.rows[id], db))
  }

  ghost predicate TagFits(db: Database, clock: int, id: int, copy: Issue, tag: Option<ETag>) {
    tag.Some? && (tag.value.stamp.Some? ==> Fits(db, clock, id, copy, tag.value.stamp.value))
  }

  /** The revalidation may still find the stamp it started with. */
  predicate CanMatch(db: Database, load: Load) {
    if load.answer.Some? then load.answer.value.Some? && load.answer.value.value.updatedAt == load.baseStamp
    else Carries(db, load.id, load.baseStamp)
  }

  /** The revalidation that is still pending may leave its tag beside this copy. */
  ghost predicate LoadFits(db: Database, clock: int, c: Client, id: int, copy: Issue) {
    c.issueLoad.Some? && c.issueLoad.value in c.loads ==>
      var load := c.loads[c.issueLoad.value];
      load.baseStamp <= clock && (CanMatch(db, load) ==> Fits(db, clock, id, copy, load.baseStamp))
  }

  /** The row that the pending revalidation may still bring can have a tag with this stamp. */
  ghost predicate FetchedFits(db: Database, clock: int, c: Client, stamp: int) {
    c.issueLoad.Some? && c.issueLoad.value in c.loads ==>
      var load := c.loads[c.issueLoad.value];
      load.answer.Some? && load.answer.value.Some? ==> Fits(db, clock, load.id, load.answer.value.value, stamp)
  }

  predicate HoldsOther(c: Client, save: Save) {
    c.currentIssue.Some? && c.currentIssue.value.ref != save.ref
  }

  /** The object that the save was built from is shown as it was, without a revalidation under way. */
  predicate OwnSettled(c: Client, save: Save) {
    c.currentIssue.Some? && c.currentIssue.value.ref == save.ref ==>
      c.currentIssue.value.id == save.id && c.issueLoad.None?
  }

  /**
   * A tag with this stamp may come beside what the modal shows: the object of the save itself, which
   * gets the new row with the tag, or another copy that the tag is safe for.
   */
  ghost predicate Beside(db: Database, clock: int, c: Client, save: Save, stamp: int) {
    && OwnSettled(c, save) && FetchedFits(db, clock, c, stamp)
    && (HoldsOther(c, save) ==> Fits(db, clock, c.currentIssue.value.id, c.currentIssue.value.row, stamp))
  }

  /** What the modal shows instead of the object of the save is another issue. */
  predicate OtherIssue(c: Client, save: Save) {
    && (HoldsOther(c, save) ==> c.currentIssue.value.id != save.id)
    && (c.issueLoad.Some? && c.issueLoad.value in c.loads ==> c.loads[c.issueLoad.value].id != save.id)
  }

  /** What a save of this issue writes. */
  function Cleaned(i: Issue): Issue {
    i.(title := Sanitize.SanitizeString(i.title), description := Sanitize.CleanDescription(i.description))
  }

  function Written(save: Save): Issue {
    Cleaned(Apply(save.base, save.changes))
  }

  predicate SameButRefs(a: Issue, b: Issue) {
    SameContent(a.(labelId := b.labelId, releaseId := b.releaseId), b)
  }

  /** The row after a save that writes this: as it was but for its position, or written and stamped. */
  predicate SavedAs(written: Issue, row: Issue, after: Issue, now: int) {
    if SameContent(written, row) then after == row.(position := after.position)
    else after == written.(position := after.position, creatorId := after.creatorId, updaterId := after.updaterId,
      updatedAt := now)
  }

  /** A save that writes this leaves the row and its tag as they are, or names what is gone and is refused. */
  predicate Keeps(written: Issue, row: Issue, db: Database) {
    && SameButRefs(written, row)
    && RefKept(written.labelId, row.labelId, db.labels) && RefKept(written.releaseId, row.releaseId, db.releases)
  }

  /** It may leave the row as it is, now or once a label or release it takes off has been deleted. */
  predicate MayKeep(written: Issue, row: Issue) {
    && SameButRefs(written, row)
    && (written.labelId == row.labelId || written.labelId.None?)
    && (written.releaseId == row.releaseId || written.releaseId.None?)
  }

  /** Copies that match the row match it after the save too: it keeps the row, or at most trims its title. */
  predicate Spares(written: Issue, row: Issue, db: Database) {
    Keeps(written, row, db) || Matches(written, row, db)
  }

  /**
   * What may be open while a save with the row's tag is on its way: its own object, or another issue,
   * or any if the save spares its copies; and if the save may keep the row and bring its tag, a copy
   * that this tag is safe for.
   */
  ghost predicate SentBeside(db: Database, clock: int, c: Client, save: Save, stamp: int)
    requires save.id in db.issues.rows
  {
    var row := db.issues.rows[save.id];
    && OwnSettled(c, save) && (OtherIssue(c, save) || Spares(Written(save), row, db))
    && (MayKeep(Written(save), row) || !OtherIssue(c, save) ==> Beside(db, clock, c, save, stamp))
  }

  ghost predicate SaveSound(db: Database, clock: int, save: Save, nextRef: nat) {
    && Copy(db, clock, save.id, save.base) && save.ref < nextRef
    && (save.changes.deadline.Some? && save.changes.deadline.value.Some? ==>
          IsMoment(save.changes.deadline.value.value))
  }

  ghost predicate RunningSound(db: Database, clock: int, c: Client) {
    match c.running
    case WaitLoad(save, s) =>
      && SaveSound(db, clock, save, c.nextRef)
      && (c.currentIssue.Some? && c.currentIssue.value.ref == save.ref ==>
            && c.currentIssue.value.id == save.id && c.currentIssue.value.row == save.base
            && (c.issueLoad.Some? ==> c.issueLoad == Some(s)))
    case PutSent(save, tag) =>
      && SaveSound(db, clock, save, c.nextRef) && TagFits(db, clock, save.id, save.base, tag)
      && (tag.value.stamp.Some? && Carries(db, save.id, tag.value.stamp.value) ==>
            SentBeside(db, clock, c, save, tag.value.stamp.value))
    case PutAnswered(save, status, row) =>
      status == 200 ==>
        Copy(db, clock, save.id, row) && save.ref < c.nextRef && Beside(db, clock, c, save, row.updatedAt)
    case ReloadAnswered(save, found) =>
      found.Some? ==> Copy(db, clock, save.id, found.value) && LoadFits(db, clock, c, save.id, found.value)
    case MoveAnswered(id, _, status, row) =>
      status == 200 ==> Copy(db, clock, id, row) && LoadFits(db, clock, c, id, row)
    case _ => true
  }

  ghost predicate LoadsSound(db: Database, clock: int, c: Client) {
    forall s :: s in c.loads ==>
      && s <= c.issueLoadSeq && (s == c.issueLoadSeq ==> c.issueLoad == Some(s))
      && c.loads[s].baseStamp <= clock
      && (c.loads[s].answer.Some? && c.loads[s].answer.value.Some? ==>
            Copy(db, clock, c.loads[s].id, c.loads[s].answer.value.value))
  }

  ghost predicate CurrentSound(db: Database, clock: int, c: Client) {
    && (c.issueLoad.Some? ==> c.issueLoad.value == c.issueLoadSeq && c.issueLoad.value in c.loads)
    && (c.currentIssue.Some? ==>
          var held := c.currentIssue.value;
          && Copy(db, clock, held.id, held.row) && held.ref < c.nextRef
          && LoadFits(db, clock, c, held.id, held.row)
          && (c.issueLoad.None? ==> TagFits(db, clock, held.id, held.row, c.currentEtag)))
  }

  ghost predicate ClientSound(db: Database, clock: int, c: Client) {
    CurrentSound(db, clock, c) && LoadsSound(db, clock, c) && RunningSound(db, clock, c)
  }

  ghost predicate ServerSound(db: Database, clock: int) {
    Valid(db) && Stored(db) && StampsBelow(db, clock)
  }

  ghost predicate Inv(w: World) {
    ServerSound(w.db, w.clock) && ClientSound(w.db, w.clock, w.client)
  }

  /**
   * Opening this copy is safe while this write runs. A save on its way is accepted only if its tag
   * still matches the row. If it then keeps the row, it brings that tag, which has to be safe for the
   * copy; if not, it makes all copies of its issue old. The answer of a save brings its row's tag.
   * The answer of a reload or a move brings an issue, and the revalidation of the copy may then
   * leave the copy's stamp beside that issue if it finds it.
   */
  ghost predicate OpenSafe(db: Database, clock: int, r: Running, id: int, card: Issue) {
    match r
    case PutSent(save, tag) =>
      && tag.Some?
      && (tag.value.stamp.Some? && Carries(db, save.id, tag.value.stamp.value) ==>
            var row := db.issues.rows[save.id];
            && (id == save.id ==> Spares(Written(save), row, db))
            && (MayKeep(Written(save), row) || id == save.id ==> Fits(db, clock, id, card, tag.value.stamp.value)))
    case PutAnswered(_, status, row) => status == 200 ==> Fits(db, clock, id, card, row.updatedAt)
    case ReloadAnswered(save, found) =>
      found.Some? && Carries(db, id, card.updatedAt) ==> Fits(db, clock, save.id, found.value, card.updatedAt)
    case MoveAnswered(movedId, _, status, row) =>
      status == 200 && Carries(db, id, card.updatedAt) ==> Fits(db, clock, movedId, row, card.updatedAt)
    case _ => true
  }

  /**
   * What the caller of openModal has to see to: the card is as good as served, and the running write
   * brings no tag that is not safe beside it.
   */
  ghost predicate Disciplined(w: World, step: Step) {
    step.Open? ==>
      && Copy(w.db, w.clock, step.id, step.card)
      && OpenSafe(w.db, w.clock, w.client.running, step.id, step.card)
  }

  // -------------------------------------------------------------------------- server-side steps

  lemma {:induction false} HandleSound(db: Database, clock: int, req: Request, now: int)
    requires ServerSound(db, clock) && clock < now && BodyDecodable(req)
    ensures ServerSound(Handle(db, req, now).0, now) && Evolves(db, Handle(db, req, now).0, now)
  {
    hide Valid, Stored, StampsBelow, Evolves, Handle;
    HandleEvolves(db, req, now);
    HandleStored(db, req, now);
    StampsStayBelow(db, Handle(db, req, now).0, clock, now);
  }

  lemma {:induction false} MatchesThen(copy: Issue, row: Issue, later: Issue, db: Database, after: Database)
    requires Matches(copy, row, db) && Agrees(row, later, after) && Later(db, after)
    ensures Matches(copy, later, after)
  {
  }

  /** A stamp of the past is carried only by rows that carried it before. */
  lemma {:induction false} CarriedBefore(db: Database, clock: int, after: Database, now: int, id: int, stamp: int)
    requires stamp <= clock < now && Evolves(db, after, now) && Carries(after, id, stamp)
    ensures Carries(db, id, stamp) && Agrees(db.issues.rows[id], after.issues.rows[id], after)
  {
    assert Traced(db, after, id, now);
  }

  lemma {:induction false} FitsLater(db: Database, clock: int, after: Database, now: int, id: int, copy: Issue,
      stamp: int)
    requires Fits(db, clock, id, copy, stamp) && clock < now && Evolves(db, after, now)
    ensures Fits(after, now, id, copy, stamp)
  {
    hide Matches, Agrees;
    if Carries(after, id, stamp) {
      CarriedBefore(db, clock, after, now, id, stamp);
      MatchesThen(copy, db.issues.rows[id], after.issues.rows[id], db, after);
    }
  }

  lemma {:induction false} CopyLater(db: Database, clock: int, after: Database, now: int, id: int, copy: Issue)
    requires Copy(db, clock, id, copy) && clock < now && Evolves(db, after, now)
    ensures Copy(after, now, id, copy)
  {
    hide Evolves, Hashable, Fits;
    FitsLater(db, clock, after, now, id, copy, copy.updatedAt);
  }

  /** What the server has once answered with is such a copy for good. */
  lemma {:induction false} ServedCopy(db: Database, clock: int, id: int, copy: Issue)
    requires Served(db, clock, id, copy) && Hashable(copy)
    ensures Copy(db, clock, id, copy)
  {
    hide Hashable;
  }

  /** The tag a copy came with fits it. */
  lemma {:induction false} CopyFits(db: Database, clock: int, id: int, copy: Issue)
    requires Copy(db, clock, id, copy)
    ensures Fits(db, clock, id, copy, copy.updatedAt)
  {
  }

  /** Any earlier tag fits a row that has just been read, and so does none of a row just stamped. */
  lemma {:induction false} RowFits(db: Database, clock: int, id: int, stamp: int)
    requires id in db.issues.rows && stamp <= clock
    ensures Fits(db, clock, id, db.issues.rows[id], stamp)
  {
  }

  /** What the client holds stays sound while the server moves on. */
  lemma {:induction false} ClientLater(db: Database, clock: int, after: Database, now: int, c: Client)
    requires ClientSound(db, clock, c) && clock < now && Evolves(db, after, now)
    ensures ClientSound(after, now, c)
  {
    hide Copy, Fits, Evolves, RunningSound;
    if c.currentIssue.Some? {
      var held := c.currentIssue.value;
      CopyLater(db, clock, after, now, held.id, held.row);
      TagLater(db, clock, after, now, held.id, held.row, c.currentEtag);
      LoadLater(db, clock, after, now, c, held.id, held.row);
    }
    forall s | s in c.loads && c.loads[s].answer.Some? && c.loads[s].answer.value.Some?
      ensures Copy(after, now, c.loads[s].id, c.loads[s].answer.value.value)
    {
      CopyLater(db, clock, after, now, c.loads[s].id, c.loads[s].answer.value.value);
    }
    RunningLater(db, clock, after, now, c);
  }

  lemma {:induction false} TagLater(db: Database, clock: int, after: Database, now: int, id: int, copy: Issue,
      tag: Option<ETag>)
    requires clock < now && Evolves(db, after, now)
    ensures TagFits(db, clock, id, copy, tag) ==> TagFits(after, now, id, copy, tag)
  {
    hide Fits, Evolves;
    if TagFits(db, clock, id, copy, tag) && tag.value.stamp.Some? {
      FitsLater(db, clock, after, now, id, copy, tag.value.stamp.value);
    }
  }

  lemma {:induction false} LoadLater(db: Database, clock: int, after: Database, now: int, c: Client, id: int,
      copy: Issue)
    requires clock < now && Evolves(db, after, now)
    ensures LoadFits(db, clock, c, id, copy) ==> LoadFits(after, now, c, id, copy)
  {
    hide Fits, Evolves;
    if LoadFits(db, clock, c, id, copy) && c.issueLoad.Some? && c.issueLoad.value in c.loads {
      var load := c.loads[c.issueLoad.value];
      if CanMatch(after, load) {
        if load.answer.None? {
          CarriedBefore(db, clock, after, now, load.id, load.baseStamp);
        }
        FitsLater(db, clock, after, now, id, copy, load.baseStamp);
      }
    }
  }

  lemma {:induction false} BesideLater(db: Database, clock: int, after: Database, now: int, c: Client, save: Save,
      stamp: int)
    requires Beside(db, clock, c, save, stamp) && clock < now && Evolves(db, after, now)
    ensures Beside(after, now, c, save, stamp)
  {
    hide Fits, Evolves;
    if HoldsOther(c, save) {
      FitsLater(db, clock, after, now, c.currentIssue.value.id, c.currentIssue.value.row, stamp);
    }
    if c.issueLoad.Some? && c.issueLoad.value in c.loads {
      var load := c.loads[c.issueLoad.value];
      if load.answer.Some? && load.answer.value.Some? {
        FitsLater(db, clock, after, now, load.id, load.answer.value.value, stamp);
      }
    }
  }

  lemma {:induction false} SentLater(db: Database, clock: int, after: Database, now: int, c: Client, save: Save,
      stamp: int)
    requires stamp <= clock < now && Evolves(db, after, now) && Carries(after, save.id, stamp)
    ensures Carries(db, save.id, stamp)
    ensures SentBeside(db, clock, c, save, stamp) ==> SentBeside(after, now, c, save, stamp)
  {
    assert Later(db, after);
    hide Evolves, Written, OtherIssue, OwnSettled, FetchedFits, HoldsOther, Fits, Spares, MayKeep, Later, Agrees;
    CarriedBefore(db, clock, after, now, save.id, stamp);
    KeepsThen(Written(save), db.issues.rows[save.id], after.issues.rows[save.id], db, after);
    if Beside(db, clock, c, save, stamp) {
      BesideLater(db, clock, after, now, c, save, stamp);
    }
  }

  lemma {:induction false} KeepsThen(written: Issue, row: Issue, later: Issue, db: Database, after: Database)
    requires Agrees(row, later, after) && Later(db, after)
    ensures Spares(written, row, db) ==> Spares(written, later, after)
    ensures MayKeep(written, later) ==> MayKeep(written, row)
  {
  }

  lemma {:induction false} FitsStamp(db: Database, clock: int, id: int, copy: Issue, stamp: int)
    requires Fits(db, clock, id, copy, stamp)
    ensures stamp <= clock
  {
  }

  lemma {:induction false} RunningLater(db: Database, clock: int, after: Database, now: int, c: Client)
    requires RunningSound(db, clock, c) && clock < now && Evolves(db, after, now)
    ensures RunningSound(after, now, c)
  {
    hide Copy, Fits, LoadFits, Evolves, Beside, Carries, SentBeside;
    match c.running
    case WaitLoad(save, _) => CopyLater(db, clock, after, now, save.id, save.base);
    case PutSent(save, tag) =>
      CopyLater(db, clock, after, now, save.id, save.base);
      TagLater(db, clock, after, now, save.id, save.base, tag);
      if tag.value.stamp.Some? && Carries(after, save.id, tag.value.stamp.value) {
        FitsStamp(db, clock, save.id, save.base, tag.value.stamp.value);
        SentLater(db, clock, after, now, c, save, tag.value.stamp.value);
      }
    case PutAnswered(save, status, row) =>
      if status == 200 {
        CopyLater(db, clock, after, now, save.id, row);
        BesideLater(db, clock, after, now, c, save, row.updatedAt);
      }
    case ReloadAnswered(save, found) =>
      if found.Some? {
        CopyLater(db, clock, after, now, save.id, found.value);
        LoadLater(db, clock, after, now, c, save.id, found.value);
      }
    case MoveAnswered(id, _, status, row) =>
      if status == 200 {
        CopyLater(db, clock, after, now, id, row);
        LoadLater(db, clock, after, now, c, id, row);
      }
    case _ =>
  }

  lemma {:induction false} FetchedCopy(db: Database, clock: int, id: int)
    requires ServerSound(db, clock) && id in db.issues.rows
    ensures Copy(db, clock, id, db.issues.rows[id])
  {
    hide Valid, Hashable, Served;
    FreshCopyServed(db, clock, id);
    ServedCopy(db, clock, id, db.issues.rows[id]);
  }

  // ------------------------------------------------------------------------------ client steps

  lemma {:induction false} OpenSound(db: Database, clock: int, c: Client, id: int, copy: Issue)
    requires ClientSound(db, clock, c) && Copy(db, clock, id, copy) && OpenSafe(db, clock, c.running, id, copy)
    ensures ClientSound(db, clock, OpenModal(c, id, copy))
  {
    CopyFits(db, clock, id, copy);
    assert copy.updatedAt <= clock;
    hide Copy, Fits;
  }

  lemma {:induction false} CloseSound(db: Database, clock: int, c: Client)
    requires ClientSound(db, clock, c)
    ensures ClientSound(db, clock, CloseModal(c))
  {
    hide Copy, Fits;
  }

  lemma {:induction false} DeliverLoadSound(db: Database, clock: int, c: Client, s: nat, editing: bool, weak: bool)
    requires ClientSound(db, clock, c) && s in c.loads && c.loads[s].answer.Some?
    ensures ClientSound(db, clock, DeliverLoad(c, s, editing, weak))
  {
    hide Copy, Fits, Carries;
    if c.loads[s].answer.value.Some? {
      CopyFits(db, clock, c.loads[s].id, c.loads[s].answer.value.value);
    }
  }

  lemma {:induction false} ServeLoadSound(db: Database, clock: int, c: Client, s: nat, lost: bool)
    requires ServerSound(db, clock) && ClientSound(db, clock, c) && s in c.loads && c.loads[s].answer.None?
    ensures ClientSound(db, clock, ClientNext(db, c, ServeLoad(s, lost)))
  {
    hide Copy, Fits, ServerSound, Matches;
    var id := c.loads[s].id;
    if id in db.issues.rows {
      FetchedCopy(db, clock, id);
      if c.running.PutSent? && c.running.ifMatch.value.stamp.Some? {
        FitsStamp(db, clock, c.running.save.id, c.running.save.base, c.running.ifMatch.value.stamp.value);
        RowFits(db, clock, id, c.running.ifMatch.value.stamp.value);
      }
      if c.running.PutAnswered? && c.running.status == 200 {
        CopyFits(db, clock, c.running.save.id, c.running.row);
        FitsStamp(db, clock, c.running.save.id, c.running.row, c.running.row.updatedAt);
        RowFits(db, clock, id, c.running.row.updatedAt);
      }
    }
  }

  lemma {:induction false} StartSound(db: Database, clock: int, c: Client, changes: Changes)
    requires ClientSound(db, clock, c) && Enabled(World(db, clock, c), Start(changes))
    ensures ClientSound(db, clock, StartWrite(c, changes))
  {
    hide Copy, Fits;
  }

  lemma {:induction false} ContinueSound(db: Database, clock: int, c: Client)
    requires ClientSound(db, clock, c) && c.running.WaitLoad? && c.running.seqNo !in c.loads
    ensures ClientSound(db, clock, ContinueSave(c))
  {
    hide Copy, Fits;
  }

  lemma {:induction false} DeliverPutSound(db: Database, clock: int, c: Client, weak: bool)
    requires ClientSound(db, clock, c) && c.running.PutAnswered?
    ensures ClientSound(db, clock, DeliverPut(c, weak))
  {
    hide Copy, Fits;
    if c.running.status == 200 {
      CopyFits(db, clock, c.running.save.id, c.running.row);
    }
  }

  lemma {:induction false} DeliverReloadSound(db: Database, clock: int, c: Client, weak: bool)
    requires ClientSound(db, clock, c) && c.running.ReloadAnswered?
    ensures ClientSound(db, clock, DeliverReload(c, weak))
  {
    hide Copy, Fits;
    if c.running.found.Some? {
      CopyFits(db, clock, c.running.save.id, c.running.found.value);
    }
  }

  lemma {:induction false} DeliverMoveSound(db: Database, clock: int, c: Client, weak: bool)
    requires ClientSound(db, clock, c) && c.running.MoveAnswered?
    ensures ClientSound(db, clock, DeliverMove(c, weak))
  {
    hide Copy, Fits;
    if c.running.status == 200 {
      CopyFits(db, clock, c.running.id, c.running.row);
    }
  }

  lemma {:induction false} ChoiceSound(db: Database, clock: int, c: Client, step: Step)
    requires ClientSound(db, clock, c) && Enabled(World(db, clock, c), step)
    requires step.Enqueue? || step.DialogChoice? || step.MoveChoice? || step.Lose?
    ensures ClientSound(db, clock, ClientNext(db, c, step))
  {
    hide Copy, Fits;
  }

  lemma {:induction false} ServeReloadSound(db: Database, clock: int, c: Client, lost: bool)
    requires ServerSound(db, clock) && ClientSound(db, clock, c) && c.running.ReloadSent?
    ensures ClientSound(db, clock, ClientNext(db, c, ServeReload(lost)))
  {
    hide Copy, Fits, ServerSound;
    var id := c.running.save.id;
    if id in db.issues.rows {
      FetchedCopy(db, clock, id);
      if c.issueLoad.Some? {
        RowFits(db, clock, id, c.loads[c.issueLoad.value].baseStamp);
      }
    }
  }

  // -------------------------------------------------------------------------------- world steps

  lemma {:induction false} ApplyDecodable(save: Save)
    requires Hashable(save.base)
    requires save.changes.deadline.Some? && save.changes.deadline.value.Some? ==>
        IsMoment(save.changes.deadline.value.value)
    ensures Decodable(Apply(save.base, save.changes))
  {
  }

  /** Only a save with the tag of the current row is accepted; a conflict or an error changes nothing. */
  lemma {:induction false} PutAnswer(w: World, userId: int, now: int)
    requires Inv(w) && w.client.running.PutSent? && w.clock < now
    ensures var (after, status) := Handle(w.db, PutRequest(w.client.running, userId), now);
            var save := w.client.running.save;
      && (status != 200 ==> after == w.db)
      && (status == 200 ==>
            && save.id in after.issues.rows && save.id in w.db.issues.rows
            && w.client.running.ifMatch.Some?
            && w.client.running.ifMatch.value.stamp == Some(w.db.issues.rows[save.id].updatedAt)
            && after == w.db.(issues := w.db.issues.Put(save.id, after.issues.rows[save.id]))
            && SavedAs(Written(save), w.db.issues.rows[save.id], after.issues.rows[save.id], now)
            && Written(save).projectId == w.db.issues.rows[save.id].projectId
            && LabelPasses(w.db, Written(save)) && ReleasePasses(w.db, Written(save)))
  {
    hide Hashable, Handle, Apply, Fits, Valid, Stored, StampsBelow, CurrentSound, LoadsSound, ValidateIssue, SentBeside,
         Beside;
    ApplyDecodable(w.client.running.save);
    PutExact(w.db, PutRequest(w.client.running, userId), now);
  }

  lemma {:induction false} ServePutSound(w: World, userId: int, now: int)
    requires Inv(w) && w.client.running.PutSent? && w.clock < now
    ensures Inv(ServePutNext(w, userId, now))
  {
    hide Hashable, Handle, Apply, Fits, Evolves, ServerSound, SavedAs, SentBeside, LabelPasses, ReleasePasses, Written;
    var r := w.client.running;
    var req := PutRequest(r, userId);
    ApplyDecodable(r.save);
    HandleSound(w.db, w.clock, req, now);
    var (after, status) := Handle(w.db, req, now);
    ClientLater(w.db, w.clock, after, now, w.client);
    PutAnswer(w, userId, now);
    if status == 200 {
      FetchedCopy(after, now, r.save.id);
      AnswerBeside(w, userId, now);
    }
  }

  /** The tag in the answer of a save may come beside what the modal shows when the server takes it. */
  lemma {:induction false} AnswerBeside(w: World, userId: int, now: int)
    requires Inv(w) && w.client.running.PutSent? && w.clock < now
    requires Handle(w.db, PutRequest(w.client.running, userId), now).1 == 200
    ensures var after := Handle(w.db, PutRequest(w.client.running, userId), now).0;
            var save := w.client.running.save;
      save.id in after.issues.rows && Beside(after, now, w.client, save, after.issues.rows[save.id].updatedAt)
  {
    var save := w.client.running.save;
    var req := PutRequest(w.client.running, userId);
    ApplyDecodable(save);
    HandleSound(w.db, w.clock, req, now);
    PutAnswer(w, userId, now);
    hide Hashable, Handle, Evolves, CurrentSound, LoadsSound, TagFits, PutRequest, Written, Stored, Valid, LabelPasses,
         ReleasePasses, SentBeside, Beside;
    var after := Handle(w.db, req, now).0;
    var row := w.db.issues.rows[save.id];
    if SameContent(Written(save), row) {
      KeptExactly(w.db, Written(save), row);
      assert SentBeside(w.db, w.clock, w.client, save, row.updatedAt);
      KeptBeside(w.db, w.clock, w.client, save, row.updatedAt);
      BesideLater(w.db, w.clock, after, now, w.client, save, row.updatedAt);
    } else {
      WrittenBeside(w.db, w.clock, after, now, w.client, save);
    }
  }

  lemma {:induction false} KeptBeside(db: Database, clock: int, c: Client, save: Save, stamp: int)
    requires save.id in db.issues.rows && SentBeside(db, clock, c, save, stamp)
    requires MayKeep(Written(save), db.issues.rows[save.id])
    ensures Beside(db, clock, c, save, stamp)
  {
  }

  lemma {:induction false} WrittenBeside(db: Database, clock: int, after: Database, now: int, c: Client, save: Save)
    requires StampsBelow(db, clock) && clock < now && save.id in db.issues.rows && save.id in after.issues.rows
    requires SentBeside(db, clock, c, save, db.issues.rows[save.id].updatedAt)
    requires after == db.(issues := db.issues.Put(save.id, after.issues.rows[save.id]))
    requires SavedAs(Written(save), db.issues.rows[save.id], after.issues.rows[save.id], now)
    requires !SameContent(Written(save), db.issues.rows[save.id])
    requires LabelPasses(db, Written(save)) && ReleasePasses(db, Written(save))
    ensures Beside(after, now, c, save, after.issues.rows[save.id].updatedAt)
  {
    var row := db.issues.rows[save.id];
    assert after.issues.rows[save.id].updatedAt == now;
    KeptExactly(db, Written(save), row);
    SparedCopies(db, Written(save), row, after.issues.rows[save.id], now);
    hide Matches, Written, SameContent, SavedAs, Keeps, MayKeep, LabelPasses, ReleasePasses;
    if OtherIssue(c, save) {
      OthersBeside(db, clock, after, now, c, save);
    } else {
      SparedBeside(db, clock, after, now, c, save, row.updatedAt);
    }
  }

  lemma {:induction false} OthersBeside(db: Database, clock: int, after: Database, now: int, c: Client, save: Save)
    requires StampsBelow(db, clock) && clock < now && OwnSettled(c, save) && OtherIssue(c, save)
    requires save.id in after.issues.rows && after == db.(issues := db.issues.Put(save.id, after.issues.rows[save.id]))
    ensures Beside(after, now, c, save, now)
  {
    hide Matches;
  }

  lemma {:induction false} SparedBeside(db: Database, clock: int, after: Database, now: int, c: Client, save: Save,
      stamp: int)
    requires StampsBelow(db, clock) && clock < now && Carries(db, save.id, stamp) && Beside(db, clock, c, save, stamp)
    requires save.id in after.issues.rows && after == db.(issues := db.issues.Put(save.id, after.issues.rows[save.id]))
    requires forall copy :: Matches(copy, db.issues.rows[save.id], db) ==> Matches(copy, after.issues.rows[save.id], db)
    ensures Beside(after, now, c, save, now)
  {
    assert forall copy, row :: Matches(copy, row, db) ==> Matches(copy, row, after);
    hide Matches;
  }

  /** A save whose label and release pass keeps the row exactly if it writes the row's content. */
  lemma {:induction false} KeptExactly(db: Database, written: Issue, row: Issue)
    requires LabelPasses(db, written) && ReleasePasses(db, written)
    ensures Keeps(written, row, db) <==> SameContent(written, row)
    ensures SameContent(written, row) ==> MayKeep(written, row)
  {
  }

  lemma {:induction false} SparedCopies(db: Database, written: Issue, row: Issue, after: Issue, now: int)
    requires LabelPasses(db, written) && ReleasePasses(db, written)
    requires SavedAs(written, row, after, now) && !SameContent(written, row)
    ensures Matches(written, row, db) ==> forall copy :: Matches(copy, row, db) ==> Matches(copy, after, db)
  {
  }

  lemma {:induction false} PendingBase(db: Database, clock: int, c: Client)
    requires ClientSound(db, clock, c) && c.issueLoad.Some?
    ensures c.issueLoad.value in c.loads && c.loads[c.issueLoad.value].baseStamp <= clock
  {
    hide Copy, Fits, RunningSound;
  }

  lemma {:induction false} ServeMoveSound(w: World, userId: int, now: int)
    requires Inv(w) && w.client.running.MoveSent? && w.clock < now
    ensures Inv(ServeMoveNext(w, userId, now))
  {
    hide Copy, Fits, Handle, Evolves, ServerSound;
    var r := w.client.running;
    var req := Request.MoveIssue(r.projectId, r.id, userId, r.newProjectId);
    HandleSound(w.db, w.clock, req, now);
    var (after, status) := Handle(w.db, req, now);
    ClientLater(w.db, w.clock, after, now, w.client);
    if r.id in after.issues.rows {
      FetchedCopy(after, now, r.id);
      if w.client.issueLoad.Some? {
        PendingBase(after, now, w.client);
        RowFits(after, now, r.id, w.client.loads[w.client.issueLoad.value].baseStamp);
      }
    }
  }

  lemma {:induction false} ServerStepSound(w: World, req: Request, now: int)
    requires Inv(w) && w.clock < now && BodyDecodable(req)
    ensures Inv(Next(w, Server(req, now)))
  {
    hide ServerSound, ClientSound, Handle, Evolves;
    HandleSound(w.db, w.clock, req, now);
    ClientLater(w.db, w.clock, Handle(w.db, req, now).0, now, w.client);
  }

  /** Every step of client or server keeps the invariant; opening an issue does under the discipline. */
  lemma {:induction false} NextKeepsInv(w: World, step: Step)
    requires Inv(w) && Enabled(w, step) && Disciplined(w, step)
    ensures Inv(Next(w, step))
  {
    hide ServerSound, ClientSound, Copy, ServePutNext, ServeMoveNext, OpenModal, CloseModal, DeliverLoad, StartWrite,
         ContinueSave, DeliverPut, DeliverReload, DeliverMove, Handle;
    match step
    case Server(req, now) => ServerStepSound(w, req, now);
    case Open(id, card) => OpenSound(w.db, w.clock, w.client, id, card);
    case Close => CloseSound(w.db, w.clock, w.client);
    case ServeLoad(s, lost) => ServeLoadSound(w.db, w.clock, w.client, s, lost);
    case DeliverLoadStep(s, editing, weak) => DeliverLoadSound(w.db, w.clock, w.client, s, editing, weak);
    case Start(changes) => StartSound(w.db, w.clock, w.client, changes);
    case Continue => ContinueSound(w.db, w.clock, w.client);
    case ServePut(userId, now) => ServePutSound(w, userId, now);
    case DeliverPutStep(weak) => DeliverPutSound(w.db, w.clock, w.client, weak);
    case ServeReload(lost) => ServeReloadSound(w.db, w.clock, w.client, lost);
    case DeliverReloadStep(weak) => DeliverReloadSound(w.db, w.clock, w.client, weak);
    case ServeMove(userId, now) => ServeMoveSound(w, userId, now);
    case DeliverMoveStep(weak) => DeliverMoveSound(w.db, w.clock, w.client, weak);
    case _ => ChoiceSound(w.db, w.clock, w.client, step);
  }

  // ---------------------------------------------------------------------------- no lost update

  /**
   * The row after a save has every field that the save did not set as the server had it before;
   * a title comes out as the server always cleans it.
   */
  predicate LeavesRest(before: Issue, after: Issue, c: Changes) {
    && (c.title.None? ==> after.title == Sanitize.SanitizeString(before.title))
    && (c.description.None? ==> after.description == before.description)
    && (c.status.None? ==> after.status == before.status)
    && (c.priority.None? ==> after.priority == before.priority)
    && (c.deadline.None? ==> after.deadline == before.deadline)
    && (c.planned.None? ==> after.planned == before.planned)
    && (c.labelId.None? ==> after.labelId == before.labelId)
    && (c.assigneeId.None? ==> after.assigneeId == before.assigneeId)
    && (c.releaseId.None? ==> after.releaseId == before.releaseId)
    && after.projectId == before.projectId && after.creatorId == before.creatorId
  }

  /** An accepted save was built from the row as it is, but for its position and what has been deleted since. */
  lemma {:induction false} AcceptedBase(w: World, userId: int, now: int)
    requires Inv(w) && w.client.running.PutSent? && w.clock < now
    requires Handle(w.db, PutRequest(w.client.running, userId), now).1 == 200
    ensures var save := w.client.running.save;
      save.id in w.db.issues.rows && Matches(save.base, w.db.issues.rows[save.id], w.db)
  {
    hide Handle, Hashable, PutRequest, ServerSound, CurrentSound, LoadsSound;
    PutAnswer(w, userId, now);
  }

  lemma {:induction false} CleanDescriptionKept(i: Issue)
    requires Hashable(i)
    ensures Sanitize.CleanDescription(i.description) == i.description
  {
    Sanitize.CleanDescriptionFixed(i.description);
  }

  lemma {:induction false} SavedLeavesRest(db: Database, save: Save, current: Issue, i: Issue, row: Issue, now: int)
    requires Matches(save.base, current, db) && Hashable(save.base)
    requires ValidateIssue(Apply(save.base, save.changes)).Some?
    requires i.updaterId.Some?
    requires i == PutRow(ValidateIssue(Apply(save.base, save.changes)).value, current, current.projectId,
        i.updaterId.value)
    requires LabelPasses(db, i) && ReleasePasses(db, i)
    requires Saved(current, i, row, now)
    ensures LeavesRest(current, row, save.changes)
  {
    CleanDescriptionKept(save.base);
  }

  lemma {:induction false} PutRowUpdater(valid: Issue, current: Issue, projectId: int, userId: int)
    ensures PutRow(valid, current, projectId, userId).updaterId == Some(userId)
  {
  }

  /** A stored title comes out of a save as it went in exactly if it has no white space at an end. */
  lemma {:induction false} TitleKeptExactly(i: Issue)
    requires Hashable(i)
    ensures Sanitize.SanitizeString(i.title) == i.title <==> Text.Trimmed(i.title)
  {
    Sanitize.SanitizeFixed(i.title);
  }

  /**
   * No lost update, at the step where the server takes a save of the modal: whatever revalidations,
   * queued saves, moves and other clients did before, every field the save does not set is as it was.
   */
  lemma {:induction false} AcceptedSaveLeavesRest(w: World, userId: int, now: int)
    requires Inv(w) && w.client.running.PutSent? && w.clock < now
    requires Handle(w.db, PutRequest(w.client.running, userId), now).1 == 200
    ensures var save := w.client.running.save;
            var after := Handle(w.db, PutRequest(w.client.running, userId), now).0;
      && save.id in w.db.issues.rows && save.id in after.issues.rows
      && LeavesRest(w.db.issues.rows[save.id], after.issues.rows[save.id], save.changes)
  {
    hide Handle, Hashable, Apply, ValidateIssue, LeavesRest, Matches, Agrees, Saved, PutRow, Valid, Stored, StampsBelow,
         CurrentSound, LoadsSound, LabelPasses, ReleasePasses, AssigneePasses, Served;
    var save := w.client.running.save;
    var req := PutRequest(w.client.running, userId);
    AcceptedBase(w, userId, now);
    ApplyDecodable(save);
    PutExact(w.db, req, now);
    var current := w.db.issues.rows[save.id];
    var i := PutRow(ValidateIssue(req.body).value, current, req.projectId, userId);
    PutRowUpdater(ValidateIssue(req.body).value, current, req.projectId, userId);
    SavedLeavesRest(w.db, save, current, i, Handle(w.db, req, now).0.issues.rows[save.id], now);
  }

  ghost predicate Run(ws: seq<World>, steps: seq<Step>) {
    && |ws| == |steps| + 1
    && forall k :: 0 <= k < |steps| ==> Enabled(ws[k], steps[k]) && ws[k + 1] == Next(ws[k], steps[k])
  }

  ghost predicate DisciplinedRun(ws: seq<World>, steps: seq<Step>)
    requires |ws| == |steps| + 1
  {
    forall k :: 0 <= k < |steps| ==> Disciplined(ws[k], steps[k])
  }

  lemma {:induction false} RunKeepsInv(ws: seq<World>, steps: seq<Step>, k: nat)
    requires Run(ws, steps) && DisciplinedRun(ws, steps) && k < |ws| && Inv(ws[0])
    ensures Inv(ws[k])
  {
    hide Inv, Next, Enabled, Disciplined;
    if k > 0 {
      RunKeepsInv(ws, steps, k - 1);
      NextKeepsInv(ws[k - 1], steps[k - 1]);
    }
  }

  const NO_CLIENT := Client(None, None, None, 0, map[], [], Idle, 0)

  /** A page that has just been loaded is in a good state, whatever the server holds. */
  lemma {:induction false} FreshPageSound(db: Database, clock: int)
    requires ServerSound(db, clock)
    ensures Inv(World(db, clock, NO_CLIENT))
  {
    hide ServerSound;
  }

  /** The step from w to next is a save that the server accepts. */
  predicate AcceptsSave(w: World, step: Step, next: World) {
    step.ServePut? && w.client.running.PutSent? && next.client.running.PutAnswered? && next.client.running.status == 200
  }

  /** The saved issue had, and has, a row, and that row is left as it was where the save sets nothing. */
  predicate SaveLeavesRest(w: World, next: World)
    requires w.client.running.PutSent?
  {
    var save := w.client.running.save;
    && save.id in w.db.issues.rows && save.id in next.db.issues.rows
    && LeavesRest(w.db.issues.rows[save.id], next.db.issues.rows[save.id], save.changes)
  }

  /**
   * No lost update over whole runs: if every issue is opened from a card that matches the row with
   * its stamp, and no running write brings a tag that is not safe beside it, every save of the modal
   * that the server accepts leaves every field it did not set as the server had it.
   */
  lemma {:induction false} NoLostUpdate(ws: seq<World>, steps: seq<Step>)
    requires Run(ws, steps) && DisciplinedRun(ws, steps)
    requires ServerSound(ws[0].db, ws[0].clock) && ws[0].client == NO_CLIENT
    ensures forall k :: 0 <= k < |steps| && AcceptsSave(ws[k], steps[k], ws[k + 1]) ==> SaveLeavesRest(ws[k], ws[k + 1])
  {
    hide Inv, ServerSound, Handle, LeavesRest, PutRequest;
    FreshPageSound(ws[0].db, ws[0].clock);
    forall k | 0 <= k < |steps| && AcceptsSave(ws[k], steps[k], ws[k + 1]) ensures SaveLeavesRest(ws[k], ws[k + 1]) {
      RunKeepsInv(ws, steps, k);
      AcceptedSaveLeavesRest(ws[k], steps[k].userId, steps[k].now);
    }
  }
}
