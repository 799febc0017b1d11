/**
 * The module variables of static/js/components/modal.js as an object, and the code between two
 * awaits as methods; each takes the step of Modal that its ensures names.
 */
module IssueModal {
  import opened Common
  import opened Model
  import opened Handlers
  import opened Modal

  class ModalState {
    var currentIssue: Option<Held>
    var currentEtag: Option<ETag>
    var issueLoad: Option<nat>
    var issueLoadSeq: nat
    var loads: map<nat, Load>
    var queue: seq<Write>
    var running: Running
    var nextRef: nat

    constructor ()
      ensures View() == NO_CLIENT
    {
      currentIssue, currentEtag, issueLoad, issueLoadSeq := None, None, None, 0;
      loads, queue, running, nextRef := map[], [], Idle, 0;
    }

    function View(): Client
      reads this
    {
      Client(currentIssue, currentEtag, issueLoad, issueLoadSeq, loads, queue, running, nextRef)
    }

    method SetCurrentIssue(id: int, row: Issue)
      modifies this`currentIssue, this`nextRef
      ensures currentIssue == Some(Held(old(nextRef), id, row)) && nextRef == old(nextRef) + 1
    {
      currentIssue := Some(Held(nextRef, id, row));
      nextRef := nextRef + 1;
    }

    method OpenModal(id: int, copy: Issue)
      modifies this
      ensures View() == Modal.OpenModal(old(View()), id, copy)
    {
      issueLoadSeq := issueLoadSeq + 1;
      currentEtag := None;
      SetCurrentIssue(id, copy);
      loads := loads[issueLoadSeq := Load(id, copy.projectId, copy.updatedAt, None)];
      issueLoad := Some(issueLoadSeq);
    }

    method CloseModal()
      modifies this
      ensures View() == Modal.CloseModal(old(View()))
    {
      currentIssue := None;
      currentEtag := None;
      issueLoad := None;
      issueLoadSeq := issueLoadSeq + 1;
    }

    /** revalidateIssue once fetchIssueById has settled. */
    method RevalidateIssue(seqNo: nat, editing: bool, weak: bool)
      requires seqNo in loads && loads[seqNo].answer.Some?
      modifies this
      ensures View() == Modal.DeliverLoad(old(View()), seqNo, editing, weak)
    {
      var load := loads[seqNo];
      loads := loads - {seqNo};
      if seqNo != issueLoadSeq {
        return;
      }
      issueLoad := None;
      if load.answer.value.None? {
        CloseModal();
        return;
      }
      var freshIssue := load.answer.value.value;
      if freshIssue.updatedAt == load.baseStamp {
        currentEtag := Some(ETag(weak, Some(freshIssue.updatedAt)));
        return;
      }
      if editing {
        currentEtag := Some(STALE_ETAG);
        return;
      }
      currentEtag := Some(ETag(weak, Some(freshIssue.updatedAt)));
      SetCurrentIssue(load.id, freshIssue);
    }

    /** The first part of saveIssueChanges or moveIssueToProject, when the write's turn has come. */
    method StartWrite(changes: Changes)
      requires running.Idle? && queue != []
      modifies this
      ensures View() == Modal.StartWrite(old(View()), changes)
    {
      var write := queue[0];
      queue := queue[1..];
      match write
      case MoveWrite(newProjectId) =>
        if currentIssue.Some? {
          running := MoveDialog(newProjectId);
        }
      case SaveWrite(issueId) =>
        if currentIssue.None? || issueId != Some(currentIssue.value.id) {
          return;
        }
        var issue := currentIssue.value;
        var save := Save(issue.ref, issue.id, issue.row, changes);
        if issueLoad.None? {
          running := PutSent(save, currentEtag);
        } else {
          running := WaitLoad(save, issueLoad.value);
        }
    }

    /** etagForSave after await issueLoad. */
    method EtagForSave()
      requires running.WaitLoad?
      modifies this`running
      ensures View() == Modal.ContinueSave(old(View()))
    {
      var save := running.save;
      if currentIssue.Some? && currentIssue.value.ref == save.ref {
        running := PutSent(save, currentEtag);
      } else {
        running := PutSent(save, Some(STALE_ETAG));
      }
    }

    /** saveIssueWithConflictCheck and saveIssueChanges after updateIssue. */
    method SaveAnswered(weak: bool)
      requires running.PutAnswered?
      modifies this
      ensures View() == Modal.DeliverPut(old(View()), weak)
    {
      var save, status, saved := running.save, running.status, running.row;
      if status == 409 {
        running := Dialog(save);
        return;
      }
      running := Idle;
      if status == 200 {
        currentEtag := Some(ETag(weak, Some(saved.updatedAt)));
        if currentIssue.Some? && currentIssue.value.ref == save.ref {
          currentIssue := Some(Held(save.ref, currentIssue.value.id, saved));
        }
      }
    }

    /** The conflict dialog's Reload after fetchIssueById. */
    method ReloadAnswered(weak: bool)
      requires running.ReloadAnswered?
      modifies this
      ensures View() == Modal.DeliverReload(old(View()), weak)
    {
      var id, freshIssue := running.save.id, running.found;
      running := Idle;
      if freshIssue.Some? {
        currentEtag := Some(ETag(weak, Some(freshIssue.value.updatedAt)));
        SetCurrentIssue(id, freshIssue.value);
      }
    }

    /** moveIssueToProject after moveIssue. */
    method MoveAnswered(weak: bool)
      requires running.MoveAnswered?
      modifies this
      ensures View() == Modal.DeliverMove(old(View()), weak)
    {
      var id, status, updated := running.id, running.status, running.row;
      if status != 200 {
        running := MoveDialog(running.newProjectId);
        return;
      }
      running := Idle;
      currentEtag := Some(ETag(weak, Some(updated.updatedAt)));
      SetCurrentIssue(id, updated);
    }
  }
}
