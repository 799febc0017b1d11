/** validatePositionUpdates of backend/validation.go. */
module Positions {
  import opened Db

  const MAX_POSITION_UPDATES := 500

  predicate DistinctIds(updates: seq<PositionUpdate>) {
    forall i, j :: 0 <= i < j < |updates| ==> updates[i].id != updates[j].id
  }

  /** 1 to 500 entries, positive ids without duplicates, no negative position. */
  predicate ValidUpdates(updates: seq<PositionUpdate>) {
    && 0 < |updates| <= MAX_POSITION_UPDATES
    && (forall i :: 0 <= i < |updates| ==> updates[i].id > 0 && updates[i].position >= 0)
    && DistinctIds(updates)
  }

  method ValidatePositionUpdates(updates: seq<PositionUpdate>) returns (ok: bool)
    ensures ok <==> ValidUpdates(updates)
  {
    if |updates| == 0 || |updates| > MAX_POSITION_UPDATES {
      return false;
    }
    var seen: map<int, bool> := map[];
    for k := 0 to |updates|
      invariant forall i :: 0 <= i < k ==> updates[i].id > 0 && updates[i].position >= 0
      invariant DistinctIds(updates[..k])
      invariant forall id :: id in seen <==> exists i :: 0 <= i < k && updates[i].id == id
    {
      var u := updates[k];
      if u.id <= 0 || u.position < 0 || u.id in seen {
        return false;
      }
      seen := seen[u.id := true];
    }
    assert updates == updates[..|updates|];
    return true;
  }
}
