/**
 * Moving a card to the top or the bottom of its list: static/js/list-utils.js, the positions
 * request it sends, and what the list reads like afterwards.
 */
module Reorder {
  import opened Common
  import opened Model
  import opened Db
  import opened Integrity
  import opened Handlers
  import Positions

  /** An issue as a list shows it. */
  datatype Card = Card(id: int, row: Issue)

  // ------------------------------------------------------------------------- sorting (filters.js)

  /** Behind every card with the same position, as the stable sort of the browser does. */
  function Insert(c: Card, sorted: seq<Card>): seq<Card>
    decreases |sorted|
  {
    if sorted == [] || c.row.position < sorted[|sorted| - 1].row.position then
      if sorted == [] then [c] else Insert(c, sorted[..|sorted| - 1]) + [sorted[|sorted| - 1]]
    else sorted + [c]
  }

  function SortByPosition(cards: seq<Card>): seq<Card>
    decreases |cards|
  {
    if cards == [] then [] else Insert(cards[|cards| - 1], SortByPosition(cards[..|cards| - 1]))
  }

  ghost predicate Increasing(cards: seq<Card>) {
    forall i, j :: 0 <= i < j < |cards| ==> cards[i].row.position < cards[j].row.position
  }

  ghost predicate DistinctPositions(cards: seq<Card>) {
    forall i, j :: 0 <= i < j < |cards| ==> cards[i].row.position != cards[j].row.position
  }

  lemma {:induction false} InsertSorts(c: Card, sorted: seq<Card>)
    requires Increasing(sorted) && forall x :: x in sorted ==> x.row.position != c.row.position
    ensures var all := Insert(c, sorted);
      Increasing(all) && |all| == |sorted| + 1 && forall x :: x in all <==> x == c || x in sorted
    decreases |sorted|
  {
    if sorted != [] && c.row.position < sorted[|sorted| - 1].row.position {
      var front, last := sorted[..|sorted| - 1], sorted[|sorted| - 1];
      InsertSorts(c, front);
      assert sorted == front + [last];
      var before := Insert(c, front);
      forall i | 0 <= i < |before| ensures before[i].row.position < last.row.position {
        assert before[i] in before;
      }
    } else {
      assert forall i :: 0 <= i < |sorted| ==> sorted[i] in sorted;
    }
  }

  lemma {:induction false} SortSorts(cards: seq<Card>)
    requires DistinctPositions(cards)
    ensures var all := SortByPosition(cards);
      Increasing(all) && |all| == |cards| && forall x :: x in all <==> x in cards
    decreases |cards|
  {
    if cards != [] {
      var front, last := cards[..|cards| - 1], cards[|cards| - 1];
      SortSorts(front);
      assert cards == front + [last];
      InsertSorts(last, SortByPosition(front));
    }
  }

  ghost predicate DistinctCards(cards: seq<Card>) {
    forall i, j :: 0 <= i < j < |cards| ==> cards[i].id != cards[j].id
  }

  /** The same cards in some other order. */
  ghost predicate Rearranged(listed: seq<Card>, cards: seq<Card>) {
    |listed| == |cards| && DistinctCards(listed) && forall c :: c in listed <==> c in cards
  }

  /** However the cards are listed, sorting them by position gives this order. */
  ghost predicate SortsBack(cards: seq<Card>) {
    forall listed :: Rearranged(listed, cards) ==> SortByPosition(listed) == cards
  }

  /** A card is put right in front of the cards with a greater position. */
  lemma {:induction false} InsertPlaces(c: Card, sorted: seq<Card>) returns (front: seq<Card>, back: seq<Card>)
    ensures sorted == front + back && Insert(c, sorted) == front + [c] + back
    ensures forall x :: x in back ==> c.row.position < x.row.position
    decreases |sorted|
  {
    if sorted == [] || c.row.position >= sorted[|sorted| - 1].row.position {
      front, back := sorted, [];
    } else {
      var last := sorted[|sorted| - 1];
      front, back := InsertPlaces(c, sorted[..|sorted| - 1]);
      back := back + [last];
    }
  }

  lemma {:induction false} SameIncreasing(a: seq<Card>, b: seq<Card>)
    requires Increasing(a) && Increasing(b) && |a| == |b| && forall x :: x in a <==> x in b
    ensures a == b
    decreases |a|
  {
    if a != [] {
      var n := |a| - 1;
      assert a[n] in b && b[n] in a;
      assert a[n] == b[n];
      forall x ensures x in a[..n] <==> x in b[..n] {
        assert x in a[..n] <==> x in a && x != a[n];
        assert x in b[..n] <==> x in b && x != b[n];
      }
      SameIncreasing(a[..n], b[..n]);
    }
  }

  lemma {:induction false} IncreasingSortsBack(cards: seq<Card>, listed: seq<Card>)
    requires Increasing(cards) && Rearranged(listed, cards)
    ensures SortByPosition(listed) == cards
  {
    forall i, j | 0 <= i < j < |listed| ensures listed[i].row.position != listed[j].row.position {
      assert listed[i] in cards && listed[j] in cards;
    }
    SortSorts(listed);
    SameIncreasing(SortByPosition(listed), cards);
  }

  /** Sorting the list with card i named last puts it in front of greater positions only. */
  lemma {:induction false} SortedBehind(cards: seq<Card>, i: nat)
    requires DistinctCards(cards) && SortsBack(cards) && i < |cards|
    ensures forall j :: i < j < |cards| ==> cards[i].row.position < cards[j].row.position
  {
    var rest := cards[..i] + cards[i + 1..];
    var listed := rest + [cards[i]];
    forall c ensures c in listed <==> c in cards {
      assert cards == cards[..i] + [cards[i]] + cards[i + 1..];
    }
    assert SortByPosition(listed) == cards;
    assert listed[..|listed| - 1] == rest;
    var front, back := InsertPlaces(cards[i], SortByPosition(rest));
    assert cards == front + [cards[i]] + back && cards[|front|] == cards[i];
    forall j | i < j < |cards| ensures cards[i].row.position < cards[j].row.position {
      assert cards[j] == back[j - i - 1];
    }
  }

  /** A list of cards sorts back, however it is listed, exactly if its positions increase. */
  lemma {:induction false} SortsBackExactly(cards: seq<Card>)
    requires DistinctCards(cards)
    ensures SortsBack(cards) <==> Increasing(cards)
  {
    if Increasing(cards) {
      forall listed | Rearranged(listed, cards) ensures SortByPosition(listed) == cards {
        IncreasingSortsBack(cards, listed);
      }
    }
    if SortsBack(cards) {
      forall i | 0 <= i < |cards| ensures forall j :: i < j < |cards| ==>
        cards[i].row.position < cards[j].row.position {
        SortedBehind(cards, i);
      }
    }
  }

  // ------------------------------------------------------------------------------ the new order

  function TopOrder<T>(list: seq<T>, k: nat): seq<T>
    requires k < |list|
  {
    [list[k]] + list[..k] + list[k + 1..]
  }

  function BottomOrder<T>(list: seq<T>, k: nat): seq<T>
    requires k < |list|
  {
    list[..k] + list[k + 1..] + [list[k]]
  }

  /** updatePositions: an update for every card whose position is not its index. */
  function Updates(order: seq<Card>, from: nat): seq<PositionUpdate>
    requires from <= |order|
    decreases |order| - from
  {
    if from == |order| then []
    else
      (if order[from].row.position != from then [PositionUpdate(order[from].id, from)] else [])
      + Updates(order, from + 1)
  }

  lemma {:induction false} UpdatesContents(order: seq<Card>, from: nat)
    requires from <= |order| && DistinctCards(order)
    ensures var updates := Updates(order, from);
      && (forall u :: u in updates <==>
            exists k :: from <= k < |order| && order[k].row.position != k && u == PositionUpdate(order[k].id, k))
      && Positions.DistinctIds(updates)
    decreases |order| - from
  {
    if from < |order| {
      UpdatesContents(order, from + 1);
      var rest := Updates(order, from + 1);
      forall j | 0 <= j < |rest| ensures rest[j].id != order[from].id {
        assert rest[j] in rest;
      }
    }
  }

  // --------------------------------------------------------------------------------- the request

  ghost predicate AllReorderable(db: Database, projectId: int, updates: seq<PositionUpdate>) {
    forall u :: u in updates ==> Reorderable(db, projectId, u.id)
  }

  /** The row of an issue after the updates: only its position, and only if it is updated. */
  ghost predicate Placed(db: Database, after: Database, updates: seq<PositionUpdate>, id: int)
    requires id in db.issues.rows && id in after.issues.rows
  {
    && (forall u :: u in updates && u.id == id ==> after.issues.rows[id] == db.issues.rows[id].(position := u.position))
    && ((forall u :: u in updates ==> u.id != id) ==> after.issues.rows[id] == db.issues.rows[id])
  }

  /** One transaction: all updates apply, each to its row alone, exactly if every id may be reordered. */
  lemma {:induction false} PositionsExact(db: Database, projectId: int, updates: seq<PositionUpdate>)
    requires Positions.DistinctIds(updates)
    ensures var result := Db.UpdateIssuePositions(db, projectId, updates);
      && (result.Ok? <==> AllReorderable(db, projectId, updates))
      && (result.Ok? ==>
            && result.value == db.(issues := result.value.issues)
            && result.value.issues.next == db.issues.next && result.value.issues.rows.Keys == db.issues.rows.Keys
            && forall id :: id in db.issues.rows ==> Placed(db, result.value, updates, id))
    decreases |updates|
  {
    if updates != [] && Reorderable(db, projectId, updates[0].id) {
      var first, rest := updates[0], updates[1..];
      var mid := db.(issues := db.issues.Put(first.id, db.issues.rows[first.id].(position := first.position)));
      PositionsExact(mid, projectId, rest);
      SplitUpdates(updates);
      assert AllReorderable(mid, projectId, rest) <==> AllReorderable(db, projectId, updates);
      var result := Db.UpdateIssuePositions(db, projectId, updates);
      if result.Ok? {
        forall id | id in db.issues.rows ensures Placed(db, result.value, updates, id) {
          assert Placed(mid, result.value, rest, id);
        }
      }
    } else if updates != [] {
      assert updates[0] in updates;
    }
  }

  lemma {:induction false} SplitUpdates(updates: seq<PositionUpdate>)
    requires updates != [] && Positions.DistinctIds(updates)
    ensures Positions.DistinctIds(updates[1..])
    ensures forall u :: u in updates <==> u == updates[0] || u in updates[1..]
    ensures forall u :: u in updates[1..] ==> u.id != updates[0].id
  {
    assert updates == [updates[0]] + updates[1..];
  }

  /** The positions request: accepted exactly for an existing project, a valid list and reorderable issues. */
  lemma {:induction false} PutPositionsExact(db: Database, projectId: int, updates: seq<PositionUpdate>, now: int)
    ensures var (after, status) := Handle(db, PutIssuePositions(projectId, updates), now);
      && (status == 200 <==>
            projectId in db.projects.rows && Positions.ValidUpdates(updates) && AllReorderable(db, projectId, updates))
      && (status != 200 ==> after == db)
      && (status == 200 ==>
            && after == db.(issues := after.issues) && after.issues.rows.Keys == db.issues.rows.Keys
            && forall id :: id in db.issues.rows ==> Placed(db, after, updates, id))
  {
    hide Placed, AllReorderable;
    if projectId in db.projects.rows && Positions.ValidUpdates(updates) {
      PositionsExact(db, projectId, updates);
      PerformOne(db, Statement.UpdateIssuePositions(projectId, updates));
    }
  }

  /**
   * A reorder is refused, without a change, exactly if the project is gone, more than 500 cards
   * move, or a card that moves is missing, archived or in another project.
   */
  lemma {:induction false} ReorderRefused(db: Database, projectId: int, order: seq<Card>, now: int)
    requires db.issues.Valid() && DistinctCards(order) && Updates(order, 0) != []
    ensures var updates := Updates(order, 0);
            var (after, status) := Handle(db, PutIssuePositions(projectId, updates), now);
      && (status == 200 <==>
            && projectId in db.projects.rows && |updates| <= Positions.MAX_POSITION_UPDATES
            && forall k :: 0 <= k < |order| && order[k].row.position != k ==> Reorderable(db, projectId, order[k].id))
      && (status != 200 ==> after == db)
  {
    assert forall id :: Reorderable(db, projectId, id) ==> id > 0;
    hide Handle, Reorderable;
    var updates := Updates(order, 0);
    UpdatesContents(order, 0);
    PutPositionsExact(db, projectId, updates, now);
    forall k | 0 <= k < |order| && order[k].row.position != k ensures PositionUpdate(order[k].id, k) in updates {
    }
    if AllReorderable(db, projectId, updates) {
      forall i | 0 <= i < |updates| ensures updates[i].id > 0 && updates[i].position >= 0 {
        assert updates[i] in updates;
        assert Reorderable(db, projectId, updates[i].id);
      }
    }
  }

  /** The cards of a list as the server has them. */
  function OnServer(db: Database, order: seq<Card>): seq<Card>
    requires forall k :: 0 <= k < |order| ==> order[k].id in db.issues.rows
  {
    seq(|order|, k requires 0 <= k < |order| => Card(order[k].id, db.issues.rows[order[k].id]))
  }

  /** The positions a reorder leaves: the index of a card that is sent, the server's own of one that is not. */
  function PositionsAfter(db: Database, order: seq<Card>): seq<int>
    requires forall k :: 0 <= k < |order| ==> order[k].id in db.issues.rows
  {
    seq(|order|, k requires 0 <= k < |order| =>
      if order[k].row.position != k then k else db.issues.rows[order[k].id].position)
  }

  ghost predicate StrictlyIncreasing(positions: seq<int>) {
    forall i, j :: 0 <= i < j < |positions| ==> positions[i] < positions[j]
  }

  /**
   * After a successful reorder, reading the list back gives the new order, however the server lists
   * it, exactly if the positions that were sent and those the server kept increase along it.
   */
  lemma {:induction false} ReorderReadsBack(db: Database, projectId: int, order: seq<Card>, now: int)
    requires DistinctCards(order) && forall k :: 0 <= k < |order| ==> order[k].id in db.issues.rows
    requires Handle(db, PutIssuePositions(projectId, Updates(order, 0)), now).1 == 200
    ensures var after := Handle(db, PutIssuePositions(projectId, Updates(order, 0)), now).0;
      && (forall k :: 0 <= k < |order| ==> order[k].id in after.issues.rows)
      && (SortsBack(OnServer(after, order)) <==> StrictlyIncreasing(PositionsAfter(db, order)))
  {
    hide Handle, Positions.ValidUpdates, AllReorderable, SortsBack;
    var updates := Updates(order, 0);
    PutPositionsExact(db, projectId, updates, now);
    UpdatesContents(order, 0);
    var after := Handle(db, PutIssuePositions(projectId, updates), now).0;
    forall k | 0 <= k < |order| ensures OnServer(after, order)[k].row.position == PositionsAfter(db, order)[k] {
      CardPlaced(db, after, order, k);
    }
    SortsBackExactly(OnServer(after, order));
    SamePositions(OnServer(after, order), PositionsAfter(db, order));
  }

  lemma {:induction false} SamePositions(cards: seq<Card>, positions: seq<int>)
    requires |cards| == |positions| && forall k :: 0 <= k < |cards| ==> cards[k].row.position == positions[k]
    ensures Increasing(cards) <==> StrictlyIncreasing(positions)
  {
  }

  /** It does so, in particular, if the server agrees on every position that is not sent. */
  lemma {:induction false} AgreementReadsBack(db: Database, order: seq<Card>)
    requires forall k :: 0 <= k < |order| ==> order[k].id in db.issues.rows
    requires forall k :: 0 <= k < |order| && order[k].row.position == k ==> db.issues.rows[order[k].id].position == k
    ensures StrictlyIncreasing(PositionsAfter(db, order))
  {
  }

  /** The ids of cards, in order. */
  function CardIds(cards: seq<Card>): (ids: seq<int>)
    ensures |ids| == |cards| && forall k :: 0 <= k < |cards| ==> ids[k] == cards[k].id
  {
    if cards == [] then [] else [cards[0].id] + CardIds(cards[1..])
  }

  /** However the server lists these cards, sorting shows their ids in this order. */
  ghost predicate ReadsAs(db: Database, order: seq<Card>, ids: seq<int>) {
    && (forall k :: 0 <= k < |order| ==> order[k].id in db.issues.rows)
    && forall listed :: Rearranged(listed, OnServer(db, order)) ==> CardIds(SortByPosition(listed)) == ids
  }

  lemma {:induction false} SortContents(cards: seq<Card>)
    ensures |SortByPosition(cards)| == |cards| && forall c :: c in SortByPosition(cards) <==> c in cards
    decreases |cards|
  {
    if cards != [] {
      var rest, last := cards[..|cards| - 1], cards[|cards| - 1];
      SortContents(rest);
      assert cards == rest + [last];
      var front, back := InsertPlaces(last, SortByPosition(rest));
    }
  }

  /** Lists of the same cards with the same ids in order are the same list. */
  lemma {:induction false} SameIds(sorted: seq<Card>, cards: seq<Card>)
    requires DistinctCards(cards) && CardIds(sorted) == CardIds(cards) && forall c :: c in sorted ==> c in cards
    ensures sorted == cards
  {
    assert |sorted| == |CardIds(sorted)|;
    forall k | 0 <= k < |cards| ensures sorted[k] == cards[k] {
      assert CardIds(sorted)[k] == CardIds(cards)[k];
      assert sorted[k] in cards;
      var j :| 0 <= j < |cards| && cards[j] == sorted[k];
      assert j == k;
    }
  }

  /** A list sorts back exactly if sorting always shows its ids. */
  lemma {:induction false} SortsBackByIds(cards: seq<Card>)
    requires DistinctCards(cards)
    ensures SortsBack(cards) <==>
        forall listed :: Rearranged(listed, cards) ==> CardIds(SortByPosition(listed)) == CardIds(cards)
  {
    hide CardIds, SortByPosition, DistinctCards;
    if forall listed :: Rearranged(listed, cards) ==> CardIds(SortByPosition(listed)) == CardIds(cards) {
      forall listed | Rearranged(listed, cards) ensures SortByPosition(listed) == cards {
        SortContents(listed);
        SameIds(SortByPosition(listed), cards);
      }
    }
  }

  lemma {:induction false} OrderReadsBack(db: Database, projectId: int, order: seq<Card>, now: int)
    requires DistinctCards(order) && forall k :: 0 <= k < |order| ==> order[k].id in db.issues.rows
    requires Handle(db, PutIssuePositions(projectId, Updates(order, 0)), now).1 == 200
    ensures ReadsAs(Handle(db, PutIssuePositions(projectId, Updates(order, 0)), now).0, order, CardIds(order))
            <==> StrictlyIncreasing(PositionsAfter(db, order))
  {
    hide Handle, SortByPosition, Updates, SortsBack, Rearranged;
    ReorderReadsBack(db, projectId, order, now);
    var after := Handle(db, PutIssuePositions(projectId, Updates(order, 0)), now).0;
    assert CardIds(OnServer(after, order)) == CardIds(order);
    SortsBackByIds(OnServer(after, order));
  }

  function MovedTo<T>(list: seq<T>, k: nat, top: bool): seq<T>
    requires k < |list|
  {
    if top then TopOrder(list, k) else BottomOrder(list, k)
  }

  /** The ids of a list after a move: the moved card first or last, the others in their old order. */
  function MovedIds(list: seq<Card>, k: nat, top: bool): seq<int>
    requires k < |list|
  {
    var others := CardIds(list[..k]) + CardIds(list[k + 1..]);
    if top then [list[k].id] + others else others + [list[k].id]
  }

  lemma {:induction false} DistinctMoved(list: seq<Card>, k: nat, top: bool)
    requires DistinctCards(list) && k < |list|
    ensures DistinctCards(MovedTo(list, k, top))
  {
  }

  lemma {:induction false} MovedContents(list: seq<Card>, k: nat, top: bool)
    requires k < |list|
    ensures CardIds(MovedTo(list, k, top)) == MovedIds(list, k, top)
  {
    hide CardIds;
  }

  /**
   * After a successful move to the top or to the bottom the server's list shows the moved card
   * first or last and the others in their old order, however it is listed, exactly if the positions
   * that were sent and those the server kept increase along that order.
   */
  lemma {:induction false} MoveReadsBack(db: Database, projectId: int, list: seq<Card>, k: nat, top: bool, now: int)
    requires DistinctCards(list) && k < |list| && forall c :: c in MovedTo(list, k, top) ==> c.id in db.issues.rows
    requires Handle(db, PutIssuePositions(projectId, Updates(MovedTo(list, k, top), 0)), now).1 == 200
    ensures ReadsAs(Handle(db, PutIssuePositions(projectId, Updates(MovedTo(list, k, top), 0)), now).0,
                    MovedTo(list, k, top), MovedIds(list, k, top))
            <==> StrictlyIncreasing(PositionsAfter(db, MovedTo(list, k, top)))
  {
    hide Handle, ReadsAs, Updates, MovedTo, MovedIds, PositionsAfter;
    DistinctMoved(list, k, top);
    MovedContents(list, k, top);
    OrderReadsBack(db, projectId, MovedTo(list, k, top), now);
  }

  lemma {:induction false} CardPlaced(db: Database, after: Database, order: seq<Card>, k: nat)
    requires k < |order| && DistinctCards(order) && order[k].id in db.issues.rows && order[k].id in after.issues.rows
    requires forall u :: u in Updates(order, 0) <==>
      exists j :: 0 <= j < |order| && order[j].row.position != j && u == PositionUpdate(order[j].id, j)
    requires Placed(db, after, Updates(order, 0), order[k].id)
    ensures after.issues.rows[order[k].id].position
            == if order[k].row.position != k then k else db.issues.rows[order[k].id].position
  {
    hide Updates;
    if order[k].row.position != k {
      assert PositionUpdate(order[k].id, k) in Updates(order, 0);
    } else {
      forall u | u in Updates(order, 0) ensures u.id != order[k].id {
        var j :| 0 <= j < |order| && order[j].row.position != j && u == PositionUpdate(order[j].id, j);
      }
    }
  }

  // ------------------------------------------------------------------------- when it does not

  function Sample(position: int): Issue {
    Issue("Card", "", STATUS_OPEN, position, None, None, PRIORITY_NORMAL, None, None, None, None, 1, None, 0)
  }

  /** Three issues of project 1; the server has the third at position 0. */
  const SAMPLE_DB := Database(
    Table(map[1 := ()], 2), Table(map[], 1), Table(map[], 1),
    Table(map[1 := Sample(0), 2 := Sample(1), 3 := Sample(0)], 4),
    Table(map[], 1), Table(map[], 1), Table(map[], 1), Table(map[], 1), Table(map[], 1))

  /** The client has the three at positions 0, 1 and 2, and moves the second to the top. */
  const SAMPLE_ORDER := TopOrder([Card(1, Sample(0)), Card(2, Sample(1)), Card(3, Sample(2))], 1)

  lemma {:induction false} SampleUpdates()
    ensures Updates(SAMPLE_ORDER, 0) == [PositionUpdate(2, 0), PositionUpdate(1, 1)]
  {
    assert SAMPLE_ORDER == [Card(2, Sample(1)), Card(1, Sample(0)), Card(3, Sample(2))];
    assert Updates(SAMPLE_ORDER, 3) == [];
    assert Updates(SAMPLE_ORDER, 2) == [];
    assert Updates(SAMPLE_ORDER, 1) == [PositionUpdate(1, 1)];
  }

  lemma {:induction false} SampleAccepted(now: int)
    ensures var updates := [PositionUpdate(2, 0), PositionUpdate(1, 1)];
            var (after, status) := Handle(SAMPLE_DB, PutIssuePositions(1, updates), now);
      && status == 200 && after.issues.rows.Keys == SAMPLE_DB.issues.rows.Keys
      && forall id :: id in SAMPLE_DB.issues.rows ==> Placed(SAMPLE_DB, after, updates, id)
  {
    hide Handle, Placed;
    var updates := [PositionUpdate(2, 0), PositionUpdate(1, 1)];
    PutPositionsExact(SAMPLE_DB, 1, updates, now);
  }

  /** The move is accepted, and a reload that lists the third issue first shows it first, not the moved one. */
  lemma {:induction false} ReorderReadsOtherwise(now: int)
    ensures var (after, status) := Handle(SAMPLE_DB, PutIssuePositions(1, Updates(SAMPLE_ORDER, 0)), now);
      && status == 200 && 1 in after.issues.rows && 2 in after.issues.rows && 3 in after.issues.rows
      && CardIds(SortByPosition([Card(3, after.issues.rows[3]), Card(1, after.issues.rows[1]),
            Card(2, after.issues.rows[2])]))
         == [3, 2, 1]
  {
    hide Handle, SortByPosition, CardIds, Updates, Placed;
    SampleUpdates();
    SampleAccepted(now);
    SamplePlaced(Handle(SAMPLE_DB, PutIssuePositions(1, Updates(SAMPLE_ORDER, 0)), now).0, Updates(SAMPLE_ORDER, 0));
    SampleSorted();
  }

  lemma {:induction false} SamplePlaced(after: Database, updates: seq<PositionUpdate>)
    requires updates == [PositionUpdate(2, 0), PositionUpdate(1, 1)]
        && after.issues.rows.Keys == SAMPLE_DB.issues.rows.Keys
    requires forall id :: id in SAMPLE_DB.issues.rows ==> Placed(SAMPLE_DB, after, updates, id)
    ensures 1 in after.issues.rows && after.issues.rows[1] == Sample(1)
    ensures 2 in after.issues.rows && after.issues.rows[2] == Sample(0)
    ensures 3 in after.issues.rows && after.issues.rows[3] == Sample(0)
  {
    assert updates[0] in updates && updates[1] in updates;
    assert Placed(SAMPLE_DB, after, updates, 1) && Placed(SAMPLE_DB, after, updates, 2)
      && Placed(SAMPLE_DB, after, updates, 3);
  }

  lemma {:induction false} SampleSorted()
    ensures CardIds(SortByPosition([Card(3, Sample(0)), Card(1, Sample(1)), Card(2, Sample(0))])) == [3, 2, 1]
  {
    var a, b, c := Card(3, Sample(0)), Card(1, Sample(1)), Card(2, Sample(0));
    assert [a][..0] == [] && SortByPosition([a]) == [a];
    assert [a, b][..1] == [a] && SortByPosition([a, b]) == [a, b];
    assert [a, b, c][..2] == [a, b] && [a, b][..1] == [a];
    assert Insert(c, [a]) == [a, c];
    assert SortByPosition([a, b, c]) == [a, c, b];
  }
}
