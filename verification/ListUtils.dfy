/**
 * applyOrderChange, updatePositions and saveIssueOrder of static/js/list-utils.js on issue objects,
 * with the server they talk to.
 */
module ListUtils {
  import opened Common
  import opened Model
  import opened Db
  import opened Handlers
  import opened Reorder

  class IssueObject {
    const id: int
    var row: Issue

    constructor (id: int, row: Issue)
      ensures this.id == id && this.row == row
    {
      this.id, this.row := id, row;
    }
  }

  /** The server behind api.js; a request is one step of it. */
  class Server {
    var db: Database

    constructor (db: Database)
      ensures this.db == db
    {
      this.db := db;
    }

    method Request(req: Handlers.Request, now: int) returns (ok: bool)
      modifies this
      ensures db == Handle(old(db), req, now).0 && (ok <==> Handle(old(db), req, now).1 == 200)
    {
      var (after, status) := Handle(db, req, now);
      db := after;
      ok := status == 200;
    }
  }

  /** A change of applyOrderChange: the issue, and its status and position before. */
  datatype Change = Change(issue: IssueObject, status: string, position: int)

  ghost predicate DistinctObjects(list: seq<IssueObject>) {
    forall i, j :: 0 <= i < j < |list| ==> list[i] != list[j]
  }

  function Issues(changes: seq<Change>): (list: seq<IssueObject>)
    ensures |list| == |changes| && forall k :: 0 <= k < |changes| ==> list[k] == changes[k].issue
  {
    if changes == [] then [] else [changes[0].issue] + Issues(changes[1..])
  }

  /** What a list shows right now. */
  function Cards(list: seq<IssueObject>): (cards: seq<Card>)
    reads list
    ensures |cards| == |list| && forall k :: 0 <= k < |list| ==> cards[k] == Card(list[k].id, list[k].row)
  {
    if list == [] then [] else [Card(list[0].id, list[0].row)] + Cards(list[1..])
  }

  method ApplyOrderChange(issue: IssueObject, status: string, position: int) returns (change: Change)
    modifies issue
    ensures change == Change(issue, old(issue.row.status), old(issue.row.position))
    ensures issue.row == old(issue.row).(status := status, position := position)
  {
    change := Change(issue, issue.row.status, issue.row.position);
    issue.row := issue.row.(status := status, position := position);
  }

  predicate StatusChanged(c: Change)
    reads c.issue
  {
    c.issue.row.status != c.status
  }

  /** An order in which n parallel requests reach the server. */
  predicate IsArrival(arrival: seq<nat>, n: nat) {
    && |arrival| == n && (forall i :: 0 <= i < n ==> arrival[i] < n)
    && forall i, j :: 0 <= i < j < n ==> arrival[i] != arrival[j]
  }

  function Arranged(cards: seq<Card>, arrival: seq<nat>): (arranged: seq<Card>)
    requires IsArrival(arrival, |cards|)
    ensures |arranged| == |cards|
  {
    seq(|arrival|, i requires 0 <= i < |arrival| => cards[arrival[i]])
  }

  /**
   * The per-issue PUTs of a reorder in the order they reach the server, each with the stamp it is
   * served at; true if all were accepted.
   */
  function PutStatuses(db: Database, cards: seq<Card>, userId: int, stamps: seq<int>): (Database, bool)
    requires |cards| <= |stamps|
    decreases |cards|
  {
    if cards == [] then (db, true)
    else
      var card := cards[|cards| - 1];
      var (before, ok) := PutStatuses(db, cards[..|cards| - 1], userId, stamps);
      var (after, status) := Handle(before, PutIssue(card.row.projectId, card.id, userId, None, card.row),
        stamps[|cards| - 1]);
      (after, ok && status == 200)
  }

  /** saveIssueOrder at the server: the status changes first, then all other positions in one request. */
  function SaveOrder(
    db: Database, statuses: seq<Card>, positions: seq<Card>, projectId: int, userId: int,
      stamps: seq<int>): (Database, bool)
    requires |statuses| < |stamps|
  {
    var (after, ok) := PutStatuses(db, statuses, userId, stamps);
    if !ok || positions == [] then (after, ok)
    else
      var (last, status) := Handle(after, PutIssuePositions(projectId, PositionsOf(positions)), stamps[|statuses|]);
      (last, status == 200)
  }

  function PositionsOf(cards: seq<Card>): (updates: seq<PositionUpdate>)
    ensures |updates| == |cards|
    ensures forall k :: 0 <= k < |cards| ==> updates[k] == PositionUpdate(cards[k].id, cards[k].row.position)
  {
    if cards == [] then [] else [PositionUpdate(cards[0].id, cards[0].row.position)] + PositionsOf(cards[1..])
  }

  /** The cards of the changes with (or without) a changed status. */
  function Changed(changes: seq<Change>, status: bool): seq<Card>
    reads Issues(changes)
    decreases |changes|
  {
    if changes == [] then []
    else
      var last := changes[|changes| - 1];
      assert last.issue == Issues(changes)[|changes| - 1];
      PrefixIssues(changes);
      Changed(changes[..|changes| - 1], status)
      + if StatusChanged(last) == status then [Card(last.issue.id, last.issue.row)] else []
  }

  lemma {:induction false} PrefixIssues(changes: seq<Change>)
    requires changes != []
    ensures forall o :: o in Issues(changes[..|changes| - 1]) ==> o in Issues(changes)
  {
    var front := changes[..|changes| - 1];
    forall o | o in Issues(front) ensures o in Issues(changes) {
      var k :| 0 <= k < |front| && Issues(front)[k] == o;
      assert Issues(changes)[k] == o;
    }
  }

  method Restore(changes: seq<Change>)
    requires DistinctObjects(Issues(changes))
    modifies Issues(changes)
    ensures forall c :: c in changes ==> c.issue.row == old(c.issue.row).(status := c.status, position := c.position)
  {
    for k := 0 to |changes|
      invariant forall i :: 0 <= i < k ==>
        changes[i].issue.row == old(changes[i].issue.row).(status := changes[i].status, position := changes[i].position)
      invariant forall i :: k <= i < |changes| ==> changes[i].issue.row == old(changes[i].issue.row)
    {
      var c := changes[k];
      assert c.issue == Issues(changes)[k];
      assert forall i :: 0 <= i < |changes| && i != k ==> Issues(changes)[i] != c.issue;
      c.issue.row := c.issue.row.(status := c.status, position := c.position);
    }
  }

  /** changes.filter(statusChanged), or the rest. */
  method Filter(changes: seq<Change>, status: bool) returns (cards: seq<Card>)
    ensures cards == Changed(changes, status)
  {
    cards := [];
    for k := 0 to |changes|
      invariant cards == Changed(changes[..k], status)
    {
      assert changes[..k + 1][..k] == changes[..k];
      if StatusChanged(changes[k]) == status {
        cards := cards + [Card(changes[k].issue.id, changes[k].issue.row)];
      }
    }
    assert changes[..|changes|] == changes;
  }

  method SendStatuses(server: Server, cards: seq<Card>, userId: int, stamps: seq<int>) returns (ok: bool)
    requires |cards| <= |stamps|
    modifies server
    ensures (server.db, ok) == PutStatuses(old(server.db), cards, userId, stamps)
  {
    hide Handle;
    ok := true;
    for k := 0 to |cards|
      invariant (server.db, ok) == PutStatuses(old(server.db), cards[..k], userId, stamps)
    {
      assert cards[..k + 1][..k] == cards[..k];
      var card := cards[k];
      var answer := server.Request(PutIssue(card.row.projectId, card.id, userId, None, card.row), stamps[k]);
      ok := ok && answer;
    }
    assert cards[..|cards|] == cards;
  }

  /**
   * The status PUTs, sent in parallel and served in the order of arrival, then the positions, each
   * request with its own stamp. If anything fails, every issue gets its previous status and position
   * back.
   */
  method SaveIssueOrder(changes: seq<Change>, arrival: seq<nat>, server: Server, userId: int, stamps: seq<int>)
      returns (ok: bool)
    requires changes != [] && DistinctObjects(Issues(changes))
    requires IsArrival(arrival, |Changed(changes, true)|) && |arrival| < |stamps|
    modifies Issues(changes), server
    ensures (server.db, ok)
            == SaveOrder(old(server.db), old(Arranged(Changed(changes, true), arrival)), old(Changed(changes, false)),
                         old(changes[0].issue.row.projectId), userId, stamps)
    ensures forall c :: c in changes ==>
      c.issue.row == if ok then old(c.issue.row) else old(c.issue.row).(status := c.status, position := c.position)
  {
    hide Handle;
    var statuses := Filter(changes, true);
    var positions := Filter(changes, false);
    ok := SendStatuses(server, Arranged(statuses, arrival), userId, stamps);
    if ok && positions != [] {
      ok := server.Request(PutIssuePositions(changes[0].issue.row.projectId, PositionsOf(positions)),
        stamps[|statuses|]);
    }
    if !ok {
      Restore(changes);
    }
  }

  // ----------------------------------------------------------------------------- updatePositions

  lemma {:induction false} NoStatusChanged(changes: seq<Change>)
    requires forall c :: c in changes ==> !StatusChanged(c)
    ensures Changed(changes, true) == []
    ensures |Changed(changes, false)| == |changes|
    ensures forall k :: 0 <= k < |changes| ==>
        Changed(changes, false)[k] == Card(changes[k].issue.id, changes[k].issue.row)
    decreases |changes|
  {
    if changes != [] {
      NoStatusChanged(changes[..|changes| - 1]);
    }
  }

  /** The project the positions request goes to: that of the first card that moves. */
  function RequestProject(order: seq<Card>, from: nat): int
    requires from <= |order|
    decreases |order| - from
  {
    if from == |order| then 0
    else if order[from].row.position != from then order[from].row.projectId else RequestProject(order, from + 1)
  }

  /** What the loop of updatePositions has done to the first k issues, given the cards before it. */
  ghost predicate Renumbered(order: seq<IssueObject>, cards: seq<Card>, k: nat)
    reads order
  {
    && k <= |order| == |cards|
    && (forall i :: 0 <= i < k ==> order[i].row == cards[i].row.(position := i))
    && (forall i :: k <= i < |order| ==> order[i].row == cards[i].row)
  }

  /** The indices below k whose cards have another position, in order. */
  ghost predicate Misplaced(cards: seq<Card>, k: nat, indices: seq<nat>) {
    && k <= |cards|
    && (forall i :: 0 <= i < |indices| ==> indices[i] < k && cards[indices[i]].row.position != indices[i])
    && (forall i, j :: 0 <= i < j < |indices| ==> indices[i] < indices[j])
    && (forall i :: 0 <= i < k && i !in indices ==> cards[i].row.position == i)
  }

  /** The changes for the issues at indices, with what they were before. */
  ghost predicate Recorded(order: seq<IssueObject>, cards: seq<Card>, changes: seq<Change>, indices: seq<nat>) {
    && |indices| == |changes| && |order| == |cards|
    && forall i :: 0 <= i < |indices| ==>
         && indices[i] < |order|
         && changes[i] == Change(order[indices[i]], cards[indices[i]].row.status, cards[indices[i]].row.position)
  }

  lemma {:induction false} NothingMisplaced(cards: seq<Card>)
    ensures Misplaced(cards, 0, [])
  {
  }

  lemma {:induction false} MisplacedNext(cards: seq<Card>, k: nat, indices: seq<nat>)
    requires k < |cards| && Misplaced(cards, k, indices)
    ensures cards[k].row.position != k ==> Misplaced(cards, k + 1, indices + [k])
    ensures cards[k].row.position == k ==> Misplaced(cards, k + 1, indices)
  {
    var all := indices + [k];
    assert all[|indices|] == k && forall i :: 0 <= i < |indices| ==> all[i] == indices[i];
    assert k in all && forall i :: i in indices ==> i in all;
  }

  /** start is the j-th misplaced index. */
  lemma {:induction false} MisplacedAt(cards: seq<Card>, start: nat, indices: seq<nat>, j: nat)
    requires Misplaced(cards, |cards|, indices) && start < |cards| && j <= |indices|
    requires (j > 0 ==> indices[j - 1] < start) && (j < |indices| ==> start <= indices[j])
    ensures cards[start].row.position != start ==> j < |indices| && indices[j] == start
    ensures cards[start].row.position == start ==> j < |indices| ==> start < indices[j]
  {
    assert forall i :: 0 <= i < j - 1 ==> indices[i] < indices[j - 1];
    assert forall i :: j < i < |indices| ==> indices[j] < indices[i];
    if cards[start].row.position != start {
      assert start in indices;
      var i :| 0 <= i < |indices| && indices[i] == start;
      assert i >= j;
    }
  }

  /** The updates from start on are those for the misplaced cards from there on. */
  lemma {:induction false} UpdatesOfMisplaced(cards: seq<Card>, start: nat, indices: seq<nat>, j: nat)
    requires Misplaced(cards, |cards|, indices) && start <= |cards| && j <= |indices|
    requires (j > 0 ==> indices[j - 1] < start) && (j < |indices| ==> start <= indices[j])
    ensures var updates := Updates(cards, start);
      && |updates| == |indices| - j
      && forall i :: 0 <= i < |updates| ==> updates[i] == PositionUpdate(cards[indices[j + i]].id, indices[j + i])
    ensures RequestProject(cards, start) == if j < |indices| then cards[indices[j]].row.projectId else 0
    decreases |cards| - start
  {
    if start < |cards| {
      MisplacedAt(cards, start, indices, j);
      if cards[start].row.position != start {
        UpdatesOfMisplaced(cards, start + 1, indices, j + 1);
      } else {
        UpdatesOfMisplaced(cards, start + 1, indices, j);
      }
    }
  }

  lemma {:induction false} RecordedNext(order: seq<IssueObject>, cards: seq<Card>, changes: seq<Change>,
      indices: seq<nat>, k: nat)
    requires Recorded(order, cards, changes, indices) && k < |order|
    ensures Recorded(order, cards, changes + [Change(order[k], cards[k].row.status, cards[k].row.position)],
                     indices + [k])
  {
  }

  /** The body of the loop, for an issue whose position is not its index. */
  method ApplyAt(order: seq<IssueObject>, ghost cards: seq<Card>, k: nat) returns (change: Change)
    requires DistinctObjects(order) && Renumbered(order, cards, k) && k < |order|
    modifies order[k]
    ensures Renumbered(order, cards, k + 1)
    ensures change == Change(order[k], cards[k].row.status, cards[k].row.position)
  {
    change := ApplyOrderChange(order[k], order[k].row.status, k);
  }

  method ApplyOrder(order: seq<IssueObject>) returns (changes: seq<Change>, ghost indices: seq<nat>)
    requires DistinctObjects(order)
    modifies order
    ensures Renumbered(order, old(Cards(order)), |order|)
    ensures Misplaced(old(Cards(order)), |order|, indices) && Recorded(order, old(Cards(order)), changes, indices)
  {
    hide Misplaced, Cards;
    changes, indices := [], [];
    assert Recorded(order, Cards(order), changes, indices);
    hide Recorded;
    ghost var cards := Cards(order);
    NothingMisplaced(cards);
    for k := 0 to |order|
      invariant Renumbered(order, cards, k)
      invariant Misplaced(cards, k, indices) && Recorded(order, cards, changes, indices)
    {
      MisplacedNext(cards, k, indices);
      RecordedNext(order, cards, changes, indices, k);
      if order[k].row.position != k {
        var change := ApplyAt(order, cards, k);
        changes, indices := changes + [change], indices + [k];
      }
    }
  }

  lemma {:induction false} RecordedIssues(order: seq<IssueObject>, cards: seq<Card>, changes: seq<Change>,
      indices: seq<nat>)
    requires DistinctObjects(order) && Misplaced(cards, |order|, indices) && Recorded(order, cards, changes, indices)
    ensures DistinctObjects(Issues(changes)) && forall o :: o in Issues(changes) ==> o in order
  {
    forall o | o in Issues(changes) ensures o in order {
      var i :| 0 <= i < |changes| && Issues(changes)[i] == o;
      assert o == order[indices[i]];
    }
  }

  /** The recorded changes keep every status and ask for Updates. */
  lemma {:induction false} RecordedChanges(order: seq<IssueObject>, cards: seq<Card>, changes: seq<Change>,
      indices: seq<nat>)
    requires Renumbered(order, cards, |order|)
    requires Misplaced(cards, |order|, indices) && Recorded(order, cards, changes, indices)
    requires forall k :: 0 <= k < |order| ==> cards[k].id == order[k].id
    ensures Changed(changes, true) == [] && PositionsOf(Changed(changes, false)) == Updates(cards, 0)
    ensures |Updates(cards, 0)| == |Changed(changes, false)| == |changes|
    ensures changes != [] ==> changes[0].issue.row.projectId == RequestProject(cards, 0)
  {
    hide Updates, Changed, PositionsOf, RequestProject, Issues, Misplaced;
    forall c | c in changes ensures !StatusChanged(c) {
      var i :| 0 <= i < |changes| && changes[i] == c;
      assert order[indices[i]].row.status == cards[indices[i]].row.status;
    }
    NoStatusChanged(changes);
    UpdatesOfMisplaced(cards, 0, indices, 0);
    forall i | 0 <= i < |changes| ensures PositionsOf(Changed(changes, false))[i] == Updates(cards, 0)[i] {
      assert changes[i].issue == order[indices[i]];
    }
  }

  lemma {:induction false} OthersNotChanged(order: seq<IssueObject>, cards: seq<Card>, changes: seq<Change>,
      indices: seq<nat>, k: nat)
    requires DistinctObjects(order) && Misplaced(cards, |order|, indices) && Recorded(order, cards, changes, indices)
    requires k < |order| && k !in indices
    ensures order[k] !in Issues(changes) && cards[k].row.position == k
  {
    forall i | 0 <= i < |changes| ensures Issues(changes)[i] != order[k] {
      assert indices[i] in indices;
    }
  }

  /**
   * updatePositions: one positions request with the cards whose index changed. If it is refused,
   * every issue and the server are as before.
   */
  method UpdatePositions(order: seq<IssueObject>, server: Server, userId: int, now: int) returns (ok: bool)
    requires DistinctObjects(order)
    modifies order, server
    ensures var cards := old(Cards(order));
            var updates := Updates(cards, 0);
            var (after, status) := Handle(old(server.db), PutIssuePositions(RequestProject(cards, 0), updates), now);
      if updates == [] then ok && server.db == old(server.db)
      else server.db == after && (ok <==> status == 200)
    ensures forall k :: 0 <= k < |order| ==>
      order[k].row == if ok then old(order[k].row).(position := k) else old(order[k].row)
  {
    hide Handle, Updates, Changed, PositionsOf, RequestProject, Issues, Misplaced;
    ok := true;
    assert PutStatuses(server.db, [], userId, [now]) == (server.db, true);
    ghost var cards := Cards(order);
    var changes, indices := ApplyOrder(order);
    RecordedIssues(order, cards, changes, indices);
    RecordedChanges(order, cards, changes, indices);
    if changes != [] {
      ok := SaveIssueOrder(changes, [], server, userId, [now]);
    }
    forall k | 0 <= k < |order| ensures order[k].row == if ok then cards[k].row.(position := k) else cards[k].row {
      if k in indices {
        var i :| 0 <= i < |indices| && indices[i] == k;
        assert changes[i] in changes && changes[i].issue == order[k];
      } else {
        OthersNotChanged(order, cards, changes, indices, k);
      }
    }
  }

  lemma {:induction false} MovedObjects(list: seq<IssueObject>, k: nat, top: bool)
    requires DistinctObjects(list) && k < |list|
    ensures |MovedTo(list, k, top)| == |list| && DistinctObjects(MovedTo(list, k, top))
    ensures forall o :: o in MovedTo(list, k, top) ==> o in list
  {
  }

  lemma {:induction false} MovedCards(list: seq<IssueObject>, k: nat, top: bool)
    requires k < |list|
    ensures Cards(MovedTo(list, k, top)) == MovedTo(Cards(list), k, top)
  {
    hide Cards;
  }

  /** The card is at its end of the list already. */
  predicate Stays(cards: seq<Card>, k: nat, top: bool)
    requires k < |cards|
  {
    |cards| <= 1 || (if top then cards[0].id else cards[|cards| - 1].id) == cards[k].id
  }

  /** Among distinct cards, exactly the first is at the top and the last at the bottom. */
  lemma {:induction false} StaysExactly(cards: seq<Card>, k: nat, top: bool)
    requires DistinctCards(cards) && k < |cards|
    ensures Stays(cards, k, top) <==> k == if top then 0 else |cards| - 1
  {
  }

  /** otherIssues with the moved issue in front or behind. */
  method NewOrder(list: seq<IssueObject>, k: nat, top: bool) returns (order: seq<IssueObject>)
    requires DistinctObjects(list) && k < |list|
    ensures order == MovedTo(list, k, top) && |order| == |list|
    ensures DistinctObjects(order) && forall o :: o in order ==> o in list
    ensures Cards(order) == MovedTo(Cards(list), k, top)
  {
    MovedObjects(list, k, top);
    MovedCards(list, k, top);
    order := if top then [list[k]] + list[..k] + list[k + 1..] else list[..k] + list[k + 1..] + [list[k]];
  }

  /** A list with every card's index as its position. */
  function Indexed(cards: seq<Card>): seq<Card> {
    seq(|cards|, i requires 0 <= i < |cards| => cards[i].(row := cards[i].row.(position := i)))
  }

  /** The request of a move, if its card is not at its end already and some index changes. */
  predicate Sends(cards: seq<Card>, k: nat, top: bool)
    requires k < |cards|
  {
    !Stays(cards, k, top) && Updates(MovedTo(cards, k, top), 0) != []
  }

  /**
   * A move of card k, from the server's database and the client's cards before to those after, with
   * the cards in the new order: one request or none, which is refused without a change or leaves
   * every card at its index.
   */
  ghost predicate MoveDone(db: Database, cards: seq<Card>, k: nat, top: bool, now: int, after: Database, ok: bool,
      shown: seq<Card>)
    requires k < |cards|
  {
    var order := MovedTo(cards, k, top);
    var (served, status) := Handle(db, PutIssuePositions(RequestProject(order, 0), Updates(order, 0)), now);
    && (if Sends(cards, k, top) then after == served && (ok <==> status == 200) else ok && after == db)
    && shown == if ok && !Stays(cards, k, top) then Indexed(order) else order
  }

  /**
   * The server's list, which has all the cards, reads as the moved list exactly if the positions that
   * were sent and those the server kept increase along it.
   */
  ghost predicate MoveRead(db: Database, cards: seq<Card>, k: nat, top: bool, after: Database)
    requires k < |cards|
  {
    var order := MovedTo(cards, k, top);
    DistinctCards(cards) && (forall i :: 0 <= i < |order| ==> order[i].id in db.issues.rows) ==>
      (ReadsAs(after, order, MovedIds(cards, k, top)) <==> StrictlyIncreasing(PositionsAfter(db, order)))
  }

  /**
   * handleMoveTop and handleMoveBottom build the new order and save it, unless the card is there
   * already. After a success the server's list reads as the moved list exactly if the positions
   * that were sent and those the server kept increase along it.
   */
  method MoveTo(list: seq<IssueObject>, k: nat, top: bool, server: Server, userId: int, now: int) returns (ok: bool)
    requires DistinctObjects(list) && k < |list|
    modifies list, server
    ensures MoveDone(old(server.db), old(Cards(list)), k, top, now, server.db, ok, Cards(MovedTo(list, k, top)))
    ensures ok && Sends(old(Cards(list)), k, top) ==> MoveRead(old(server.db), old(Cards(list)), k, top, server.db)
  {
    hide Handle, Updates, RequestProject, Cards, MoveRead, Stays;
    ghost var cards, begun := Cards(list), server.db;
    var order := NewOrder(list, k, top);
    ok := true;
    if !Stays(Cards(list), k, top) {
      ok := UpdatePositions(order, server, userId, now);
      ServedMoveReads(begun, cards, k, top, server.db, RequestProject(MovedTo(cards, k, top), 0), now);
    }
  }

  /** What a successful positions request for a move makes the server's list read like. */
  lemma {:induction false} ServedMoveReads(
    db: Database, cards: seq<Card>, k: nat, top: bool, after: Database, projectId: int, now: int)
    requires k < |cards|
    ensures var (served, status) := Handle(db, PutIssuePositions(projectId, Updates(MovedTo(cards, k, top), 0)), now);
      after == served && status == 200 ==> MoveRead(db, cards, k, top, after)
  {
    hide Handle, Updates, ReadsAs, MovedIds, MovedTo, StrictlyIncreasing, DistinctCards;
    var order := MovedTo(cards, k, top);
    var (served, status) := Handle(db, PutIssuePositions(projectId, Updates(order, 0)), now);
    if after == served && status == 200 && DistinctCards(cards)
      && (forall i :: 0 <= i < |order| ==> order[i].id in db.issues.rows)
    {
      MoveReadsBack(db, projectId, cards, k, top, now);
    }
  }
}
