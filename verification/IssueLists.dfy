/**
 * static/js/issue-lists.js: the active issues of the newest load, and the lists merged into them,
 * with every fetch completing at any time.
 */
module IssueLists {
  import opened Common

  datatype Kind = Open | Archived

  /** An issue of a response; text stands for everything but its id. */
  datatype Listed = Listed(id: int, text: string)

  /** fetchActiveIssuesByProject(...).then(...).catch(...) of one generation. */
  datatype Active = Fetching | Loaded(items: seq<Listed>) | LoadFailed

  /** A list promise: its fetch, then the wait for the active issues, then the merge. */
  datatype Phase = ListFetching | Fetched(items: seq<Listed>) | Merged(items: seq<Listed>) | ListFailed

  /** base is the active load a list waits for; None is a promise that is resolved from the start. */
  datatype ListLoad = ListLoad(kind: Kind, gen: nat, base: Option<nat>, phase: Phase)

  /**
   * The variables of the module, all promises ever made, and in merged the loads merged since the
   * active issues were set, in order.
   */
  datatype State = State(
    generation: nat, active: map<nat, Active>, activeLoad: Option<nat>, lists: map<Kind, nat>, loads: seq<ListLoad>,
    issues: seq<Listed>, merged: seq<nat>)

  // ------------------------------------------------------------------------------------- merging

  function Ids(issues: seq<Listed>): set<int> {
    set i | i in issues :: i.id
  }

  /** What mergeIntoIssues appends: the issues whose ids are not there yet. */
  function Missing(items: seq<Listed>, ids: set<int>): seq<Listed> {
    if items == [] then []
    else (if items[0].id in ids then [] else [items[0]]) + Missing(items[1..], ids)
  }

  function MergeInto(issues: seq<Listed>, items: seq<Listed>): seq<Listed> {
    issues + Missing(items, Ids(issues))
  }

  function MergeAll(issues: seq<Listed>, batches: seq<seq<Listed>>): seq<Listed>
    decreases |batches|
  {
    if batches == [] then issues else MergeInto(MergeAll(issues, batches[..|batches| - 1]), batches[|batches| - 1])
  }

  ghost predicate Distinct(issues: seq<Listed>) {
    forall i, j :: 0 <= i < j < |issues| ==> issues[i].id != issues[j].id
  }

  lemma {:induction false} MissingContents(items: seq<Listed>, ids: set<int>)
    ensures forall x :: x in Missing(items, ids) <==> x in items && x.id !in ids
    ensures Distinct(items) ==> Distinct(Missing(items, ids))
    decreases |items|
  {
    if items != [] {
      MissingContents(items[1..], ids);
      assert items == [items[0]] + items[1..];
      if Distinct(items) {
        forall x | x in items[1..] ensures x.id != items[0].id {
          var k :| 0 <= k < |items[1..]| && items[1..][k] == x;
          assert items[k + 1] == x;
        }
      }
    }
  }

  /** A merge keeps what is there, adds every id once, and prefers what is there. */
  lemma {:induction false} MergeContents(issues: seq<Listed>, items: seq<Listed>)
    ensures forall x :: x in MergeInto(issues, items) <==> x in issues || (x in items && x.id !in Ids(issues))
    ensures Distinct(issues) && Distinct(items) ==> Distinct(MergeInto(issues, items))
    ensures Ids(MergeInto(issues, items)) == Ids(issues) + Ids(items)
  {
    MissingContents(items, Ids(issues));
    var added := Missing(items, Ids(issues));
    assert forall x :: x in MergeInto(issues, items) <==> x in issues || x in added;
    if Distinct(issues) && Distinct(items) {
      forall i, j | 0 <= i < |issues| && 0 <= j < |added| ensures issues[i].id != added[j].id {
        assert added[j] in added && issues[i] in issues;
      }
    }
    IdsOfMerge(issues, items);
  }

  lemma {:induction false} IdsOfMerge(issues: seq<Listed>, items: seq<Listed>)
    requires forall x :: x in MergeInto(issues, items) <==> x in issues || (x in items && x.id !in Ids(issues))
    ensures Ids(MergeInto(issues, items)) == Ids(issues) + Ids(items)
  {
    hide MergeInto;
    var all := MergeInto(issues, items);
    forall id | id in Ids(issues) + Ids(items) ensures id in Ids(all) {
      if id in Ids(issues) {
        var x :| x in issues && x.id == id;
        assert x in all;
      } else {
        var x :| x in items && x.id == id;
        assert x in all;
      }
    }
  }

  // --------------------------------------------------------------------------------------- steps

  const NO_LISTS := State(0, map[], None, map[], [], [], [])

  /** One kind of ensureIssueLists: join the promise that is there, or start a fetch. */
  function EnsureOne(s: State, kind: Kind): State {
    if kind in s.lists then s
    else s.(lists := s.lists[kind := |s.loads|],
      loads := s.loads + [ListLoad(kind, s.generation, s.activeLoad, ListFetching)])
  }

  function IssueListsEnsured(s: State, kinds: seq<Kind>): State
    decreases |kinds|
  {
    if kinds == [] then s else IssueListsEnsured(EnsureOne(s, kinds[0]), kinds[1..])
  }

  function IssuesLoaded(s: State, kinds: seq<Kind>): State {
    var gen := s.generation + 1;
    IssueListsEnsured(s.(generation := gen, lists := map[], active := s.active[gen := Fetching],
      activeLoad := Some(gen)), kinds)
  }

  function ListsReset(s: State): State {
    s.(generation := s.generation + 1, lists := map[], activeLoad := None)
  }

  predicate IsFetching(s: State, gen: nat) {
    gen in s.active && s.active[gen] == Fetching
  }

  /** The active issues arrive: only those of the newest generation are taken. */
  function ActiveArrives(s: State, gen: nat, items: seq<Listed>): State {
    var settled := s.(active := s.active[gen := Loaded(items)]);
    if gen == s.generation then settled.(issues := items, merged := []) else settled
  }

  function ActiveFails(s: State, gen: nat): State {
    s.(active := s.active[gen := LoadFailed])
  }

  function SetPhase(s: State, l: nat, phase: Phase): State
    requires l < |s.loads|
  {
    s.(loads := s.loads[l := s.loads[l].(phase := phase)])
  }

  /** A failed list is forgotten, unless a newer promise took its place. */
  function ListFails(s: State, l: nat): State
    requires l < |s.loads|
  {
    var kind := s.loads[l].kind;
    var failed := SetPhase(s, l, ListFailed);
    if kind in s.lists && s.lists[kind] == l then failed.(lists := s.lists - {kind}) else failed
  }

  predicate BaseSettled(s: State, base: Option<nat>) {
    base.None? || (base.value in s.active && s.active[base.value] != Fetching)
  }

  predicate CanMerge(s: State, l: nat) {
    l < |s.loads| && s.loads[l].phase.Fetched? && BaseSettled(s, s.loads[l].base)
  }

  /** After await base: a list of a superseded generation is dropped. */
  function Merge(s: State, l: nat): State
    requires CanMerge(s, l)
  {
    var items := s.loads[l].phase.items;
    var done := SetPhase(s, l, Merged(items));
    if s.loads[l].gen == s.generation then done.(issues := MergeInto(s.issues, items), merged := s.merged + [l])
      else done
  }

  datatype Step =
    | Load(kinds: seq<Kind>)
    | Ensure(kinds: seq<Kind>)
    | Reset
    | ActiveArrive(gen: nat, items: seq<Listed>)
    | ActiveFail(gen: nat)
    | ListArrive(load: nat, items: seq<Listed>)
    | ListFail(load: nat)
    | MergeStep(load: nat)

  /** Every response lists an issue once. */
  ghost predicate Enabled(s: State, step: Step) {
    match step
    case Load(_) => true
    case Ensure(_) => true
    case Reset => true
    case ActiveArrive(gen, items) => IsFetching(s, gen) && Distinct(items)
    case ActiveFail(gen) => IsFetching(s, gen)
    case ListArrive(l, items) => l < |s.loads| && s.loads[l].phase == ListFetching && Distinct(items)
    case ListFail(l) => l < |s.loads| && s.loads[l].phase == ListFetching
    case MergeStep(l) => CanMerge(s, l)
  }

  ghost function Next(s: State, step: Step): State
    requires Enabled(s, step)
  {
    match step
    case Load(kinds) => IssuesLoaded(s, kinds)
    case Ensure(kinds) => IssueListsEnsured(s, kinds)
    case Reset => ListsReset(s)
    case ActiveArrive(gen, items) => ActiveArrives(s, gen, items)
    case ActiveFail(gen) => ActiveFails(s, gen)
    case ListArrive(l, items) => SetPhase(s, l, Fetched(items))
    case ListFail(l) => ListFails(s, l)
    case MergeStep(l) => Merge(s, l)
  }

  /** The module's variables as an object; the promises it has made are in active and loads. */
  class IssueLists {
    var generation: nat
    var active: map<nat, Active>
    var activeLoad: Option<nat>
    var lists: map<Kind, nat>
    var loads: seq<ListLoad>
    var issues: seq<Listed>
    ghost var merged: seq<nat>

    constructor ()
      ensures View() == NO_LISTS
    {
      generation, active, activeLoad, lists, loads, issues, merged := 0, map[], None, map[], [], [], [];
    }

    ghost function View(): State
      reads this
    {
      State(generation, active, activeLoad, lists, loads, issues, merged)
    }

    /** mergeIntoIssues: the ids are taken once, before the loop. */
    method MergeIntoIssues(items: seq<Listed>)
      modifies this`issues
      ensures issues == MergeInto(old(issues), items)
    {
      var existingIds := Ids(issues);
      for k := 0 to |items|
        invariant issues + Missing(items[k..], existingIds) == MergeInto(old(issues), items)
      {
        assert items[k..][1..] == items[k + 1..];
        if items[k].id !in existingIds {
          issues := issues + [items[k]];
        }
      }
    }

    method EnsureIssueLists(kinds: seq<Kind>)
      modifies this`lists, this`loads
      ensures View() == IssueListsEnsured(old(View()), kinds)
    {
      for k := 0 to |kinds|
        invariant IssueListsEnsured(View(), kinds[k..]) == IssueListsEnsured(old(View()), kinds)
      {
        assert kinds[k..][1..] == kinds[k + 1..];
        var kind := kinds[k];
        if kind !in lists {
          lists := lists[kind := |loads|];
          loads := loads + [ListLoad(kind, generation, activeLoad, ListFetching)];
        }
      }
    }

    method LoadIssues(kinds: seq<Kind>)
      modifies this
      ensures View() == IssuesLoaded(old(View()), kinds)
    {
      generation := generation + 1;
      lists := map[];
      active := active[generation := Fetching];
      activeLoad := Some(generation);
      EnsureIssueLists(kinds);
    }

    method ResetIssueLists()
      modifies this
      ensures View() == ListsReset(old(View()))
    {
      generation := generation + 1;
      lists := map[];
      activeLoad := None;
    }

    /** fetchActiveIssuesByProject has settled. */
    method ActiveSettled(gen: nat, items: Option<seq<Listed>>)
      requires IsFetching(View(), gen)
      modifies this
      ensures View() == if items.Some? then ActiveArrives(old(View()), gen, items.value)
          else ActiveFails(old(View()), gen)
    {
      active := active[gen := if items.Some? then Loaded(items.value) else LoadFailed];
      if items.Some? && gen == generation {
        issues := items.value;
        merged := [];
      }
    }

    /** A list's promise after await base. */
    method BaseReady(l: nat)
      requires CanMerge(View(), l)
      modifies this
      ensures View() == Merge(old(View()), l)
    {
      var load := loads[l];
      loads := loads[l := load.(phase := Merged(load.phase.items))];
      if load.gen == generation {
        MergeIntoIssues(load.phase.items);
        merged := merged + [l];
      }
    }

    /** The catch of a list's promise. */
    method ListFailedWith(l: nat)
      requires l < |loads|
      modifies this
      ensures View() == ListFails(old(View()), l)
    {
      var kind := loads[l].kind;
      loads := loads[l := loads[l].(phase := ListFailed)];
      if kind in lists && lists[kind] == l {
        lists := lists - {kind};
      }
    }
  }

  // ----------------------------------------------------------------------------------- invariant

  /** The promises and the variables that point to them. */
  ghost predicate Shape(s: State) {
    && (forall g :: g in s.active ==> g <= s.generation)
    && (s.activeLoad.Some? ==> s.activeLoad.value == s.generation)
    && (s.activeLoad.Some? <==> s.generation in s.active)
    && (forall kind :: kind in s.lists ==>
          && s.lists[kind] < |s.loads|
          && s.loads[s.lists[kind]].kind == kind && s.loads[s.lists[kind]].gen == s.generation)
  }

  ghost predicate LoadSound(s: State, l: nat)
    requires l < |s.loads|
  {
    var load := s.loads[l];
    && load.gen <= s.generation
    && (load.gen == s.generation ==> load.base == s.activeLoad)
    && (load.gen == s.generation && load.phase != ListFailed ==> load.kind in s.lists && s.lists[load.kind] == l)
    && (load.gen == s.generation && load.phase.Merged? ==> BaseSettled(s, load.base))
    && (load.phase.Fetched? || load.phase.Merged? ==> Distinct(load.phase.items))
    && (load.phase == ListFailed ==> forall kind :: kind in s.lists ==> s.lists[kind] != l)
  }

  /** A list is fetched again only after a fetch that failed. */
  ghost predicate FetchedOnce(s: State) {
    forall k, l :: 0 <= k < l < |s.loads| && s.loads[k].kind == s.loads[l].kind && s.loads[k].gen == s.loads[l].gen
      ==> s.loads[k].phase == ListFailed
  }

  function Batches(s: State): seq<seq<Listed>>
    requires forall i :: 0 <= i < |s.merged| ==> s.merged[i] < |s.loads| && s.loads[s.merged[i]].phase.Merged?
  {
    seq(|s.merged|, i requires 0 <= i < |s.merged| => s.loads[s.merged[i]].phase.items)
  }

  ghost predicate MergedLoads(s: State) {
    && (forall i :: 0 <= i < |s.merged| ==> s.merged[i] < |s.loads| && s.loads[s.merged[i]].phase.Merged?)
    && (forall i, j :: 0 <= i < j < |s.merged| ==> s.merged[i] != s.merged[j])
  }

  /** Once the active issues of this generation are there, the issues are those with its lists merged in. */
  ghost predicate Contents(s: State) {
    s.activeLoad.Some? && s.generation in s.active && s.active[s.generation].Loaded? ==>
      && MergedLoads(s)
      && (forall i :: 0 <= i < |s.merged| ==> s.loads[s.merged[i]].gen == s.generation)
      && (forall l :: 0 <= l < |s.loads| && s.loads[l].gen == s.generation && s.loads[l].phase.Merged? ==>
            l in s.merged)
      && Distinct(s.active[s.generation].items)
      && s.issues == MergeAll(s.active[s.generation].items, Batches(s))
  }

  ghost predicate Inv(s: State) {
    Shape(s) && (forall l :: 0 <= l < |s.loads| ==> LoadSound(s, l)) && FetchedOnce(s) && Contents(s)
  }

  // -------------------------------------------------------------------------------- preservation

  lemma {:induction false} SameMerged(s: State, t: State)
    requires Contents(s) && Shape(s) && |s.loads| <= |t.loads|
    requires t.generation == s.generation && t.activeLoad == s.activeLoad && t.active == s.active
    requires t.issues == s.issues && t.merged == s.merged
    requires forall l :: 0 <= l < |s.loads| ==>
        (s.loads[l].phase.Merged? || t.loads[l].phase.Merged? ==> t.loads[l] == s.loads[l])
    requires forall l :: |s.loads| <= l < |t.loads| ==> !t.loads[l].phase.Merged?
    ensures Contents(t)
  {
    if s.activeLoad.Some? && s.active[s.generation].Loaded? {
      assert Batches(t) == Batches(s);
    }
  }

  lemma {:induction false} EnsureOneKeepsInv(s: State, kind: Kind)
    requires Inv(s)
    ensures Inv(EnsureOne(s, kind))
  {
    var t := EnsureOne(s, kind);
    SameMerged(s, t);
    forall l | 0 <= l < |t.loads| ensures LoadSound(t, l) {
      if l < |s.loads| {
        assert LoadSound(s, l);
      }
    }
    forall k, l | 0 <= k < l < |t.loads| && t.loads[k].kind == t.loads[l].kind && t.loads[k].gen == t.loads[l].gen
      ensures t.loads[k].phase == ListFailed
    {
      assert LoadSound(s, k);
    }
  }

  lemma {:induction false} EnsureKeepsInv(s: State, kinds: seq<Kind>)
    requires Inv(s)
    ensures Inv(IssueListsEnsured(s, kinds))
    decreases |kinds|
  {
    hide Inv;
    if kinds != [] {
      EnsureOneKeepsInv(s, kinds[0]);
      EnsureKeepsInv(EnsureOne(s, kinds[0]), kinds[1..]);
    }
  }

  lemma {:induction false} NewGenerationKeepsInv(s: State, active: map<nat, Active>, activeLoad: Option<nat>)
    requires Inv(s)
    requires (activeLoad == Some(s.generation + 1) && active == s.active[s.generation + 1 := Fetching])
             || (activeLoad == None && active == s.active)
    ensures Inv(s.(generation := s.generation + 1, lists := map[], active := active, activeLoad := activeLoad))
  {
    var t := s.(generation := s.generation + 1, lists := map[], active := active, activeLoad := activeLoad);
    assert Contents(t);
    hide Contents;
    forall l | 0 <= l < |t.loads| ensures LoadSound(t, l) {
      assert LoadSound(s, l);
    }
  }

  lemma {:induction false} ActiveKeepsInv(s: State, gen: nat, result: Active)
    requires Inv(s) && IsFetching(s, gen) && result != Fetching && (result.Loaded? ==> Distinct(result.items))
    ensures Inv(if result.Loaded? then ActiveArrives(s, gen, result.items) else ActiveFails(s, gen))
  {
    var t := if result.Loaded? then ActiveArrives(s, gen, result.items) else ActiveFails(s, gen);
    forall l | 0 <= l < |t.loads| ensures LoadSound(t, l) {
      assert LoadSound(s, l);
    }
    forall l | 0 <= l < |s.loads| && s.loads[l].gen == s.generation == gen ensures !s.loads[l].phase.Merged? {
      assert LoadSound(s, l);
    }
    if gen != s.generation && s.activeLoad.Some? && s.active[s.generation].Loaded? {
      assert Batches(t) == Batches(s);
    }
  }

  lemma {:induction false} PhaseKeepsInv(s: State, l: nat, phase: Phase)
    requires Inv(s) && l < |s.loads| && s.loads[l].phase == ListFetching
    requires phase.Fetched? && Distinct(phase.items)
    ensures Inv(SetPhase(s, l, phase))
  {
    var t := SetPhase(s, l, phase);
    SameMerged(s, t);
    forall k | 0 <= k < |t.loads| ensures LoadSound(t, k) {
      assert LoadSound(s, k);
    }
  }

  lemma {:induction false} ListFailsKeepsInv(s: State, l: nat)
    requires Inv(s) && l < |s.loads| && s.loads[l].phase == ListFetching
    ensures Inv(ListFails(s, l))
  {
    var t := ListFails(s, l);
    SameMerged(s, t);
    forall k | 0 <= k < |t.loads| ensures LoadSound(t, k) {
      assert LoadSound(s, k) && LoadSound(s, l);
    }
  }

  lemma {:induction false} MergeAppendsBatch(s: State, l: nat)
    requires MergedLoads(s) && CanMerge(s, l) && s.loads[l].gen == s.generation
    ensures MergedLoads(Merge(s, l)) && Batches(Merge(s, l)) == Batches(s) + [s.loads[l].phase.items]
    ensures forall issues :: s.issues == MergeAll(issues, Batches(s)) ==>
        Merge(s, l).issues == MergeAll(issues, Batches(Merge(s, l)))
  {
    var t := Merge(s, l);
    var items := s.loads[l].phase.items;
    assert Batches(t) == Batches(s) + [items];
    forall issues | s.issues == MergeAll(issues, Batches(s)) ensures t.issues == MergeAll(issues, Batches(t)) {
      assert Batches(t)[..|Batches(t)| - 1] == Batches(s);
    }
  }

  lemma {:induction false} MergeKeepsContents(s: State, l: nat)
    requires Shape(s) && Contents(s) && CanMerge(s, l) && LoadSound(s, l)
    ensures Contents(Merge(s, l))
  {
    hide MergeAll;
    var t := Merge(s, l);
    if s.activeLoad.Some? && s.active[s.generation].Loaded? {
      if s.loads[l].gen == s.generation {
        hide MergedLoads, Batches;
        MergeAppendsBatch(s, l);
      } else {
        assert MergedLoads(t) && Batches(t) == Batches(s);
      }
    }
  }

  lemma {:induction false} MergeKeepsInv(s: State, l: nat)
    requires Inv(s) && CanMerge(s, l)
    ensures Inv(Merge(s, l))
  {
    hide Contents;
    var t := Merge(s, l);
    assert LoadSound(s, l);
    MergeKeepsContents(s, l);
    forall k | 0 <= k < |t.loads| ensures LoadSound(t, k) {
      assert LoadSound(s, k);
    }
  }

  lemma {:induction false} NextKeepsInv(s: State, step: Step)
    requires Inv(s) && Enabled(s, step)
    ensures Inv(Next(s, step))
  {
    hide Inv;
    match step
    case Load(kinds) =>
      var gen := s.generation + 1;
      NewGenerationKeepsInv(s, s.active[gen := Fetching], Some(gen));
      EnsureKeepsInv(s.(generation := gen, lists := map[], active := s.active[gen := Fetching],
        activeLoad := Some(gen)), kinds);
    case Ensure(kinds) => EnsureKeepsInv(s, kinds);
    case Reset => NewGenerationKeepsInv(s, s.active, None);
    case ActiveArrive(gen, items) => ActiveKeepsInv(s, gen, Loaded(items));
    case ActiveFail(gen) => ActiveKeepsInv(s, gen, LoadFailed);
    case ListArrive(l, items) => PhaseKeepsInv(s, l, Fetched(items));
    case ListFail(l) => ListFailsKeepsInv(s, l);
    case MergeStep(l) => MergeKeepsInv(s, l);
  }

  ghost predicate Run(ss: seq<State>, steps: seq<Step>) {
    && |ss| == |steps| + 1 && ss[0] == NO_LISTS
    && forall k :: 0 <= k < |steps| ==> Enabled(ss[k], steps[k]) && ss[k + 1] == Next(ss[k], steps[k])
  }

  lemma {:induction false} RunKeepsInv(ss: seq<State>, steps: seq<Step>, k: nat)
    requires Run(ss, steps) && k < |ss|
    ensures Inv(ss[k])
  {
    hide Next, Enabled;
    if k > 0 {
      hide Inv;
      RunKeepsInv(ss, steps, k - 1);
      NextKeepsInv(ss[k - 1], steps[k - 1]);
    }
  }

  // ------------------------------------------------------------------------------------ theorems

  /** The newest load and all its lists have settled without error. */
  predicate AllSettled(s: State) {
    && s.activeLoad.Some? && s.activeLoad.value in s.active && s.active[s.activeLoad.value].Loaded?
    && forall kind :: kind in s.lists ==> s.lists[kind] < |s.loads| && s.loads[s.lists[kind]].phase.Merged?
  }

  /** The active issues of the newest load. */
  function ActiveItems(s: State): seq<Listed>
    requires AllSettled(s)
  {
    s.active[s.activeLoad.value].items
  }

  function ListItems(s: State, kind: Kind): seq<Listed>
    requires AllSettled(s) && kind in s.lists
  {
    s.loads[s.lists[kind]].phase.items
  }

  /** "Load everything now": the active issues and the requested lists of the newest load, each id once. */
  ghost predicate LoadedNow(s: State)
    requires AllSettled(s)
  {
    && Distinct(s.issues)
    && (forall x :: x in ActiveItems(s) ==> x in s.issues)
    && (forall kind, x :: kind in s.lists && x in ListItems(s, kind) ==> x.id in Ids(s.issues))
    && (forall x :: x in s.issues ==> x in ActiveItems(s) || exists kind :: kind in s.lists && x in ListItems(s, kind))
  }

  lemma {:induction false} MergeAllContents(issues: seq<Listed>, batches: seq<seq<Listed>>)
    requires Distinct(issues) && forall b :: b in batches ==> Distinct(b)
    ensures var all := MergeAll(issues, batches);
      && Distinct(all)
      && (forall x :: x in issues ==> x in all)
      && (forall b, x :: b in batches && x in b ==> x.id in Ids(all))
      && (forall x :: x in all ==> x in issues || exists b :: b in batches && x in b)
    decreases |batches|
  {
    if batches != [] {
      var front, last := batches[..|batches| - 1], batches[|batches| - 1];
      MergeAllContents(issues, front);
      var mid := MergeAll(issues, front);
      MergeContents(mid, last);
      forall b, x | b in batches && x in b ensures x.id in Ids(mid) + Ids(last) {
        assert b in front || b == last;
      }
      forall x | x in MergeAll(issues, batches) ensures x in issues || exists b :: b in batches && x in b {
        if x in mid && x !in issues {
          var b :| b in front && x in b;
          assert b in batches;
        } else if x !in mid {
          assert last in batches && x in last;
        }
      }
    }
  }

  lemma {:induction false} InvIsLoadedNow(s: State)
    requires Inv(s) && AllSettled(s)
    ensures LoadedNow(s)
  {
    var batches := Batches(s);
    forall b | b in batches ensures Distinct(b) && exists kind :: kind in s.lists && ListItems(s, kind) == b {
      var i :| 0 <= i < |batches| && batches[i] == b;
      var l := s.merged[i];
      assert LoadSound(s, l);
      assert ListItems(s, s.loads[l].kind) == b;
    }
    forall kind | kind in s.lists ensures ListItems(s, kind) in batches {
      var l := s.lists[kind];
      assert l in s.merged;
      var i :| 0 <= i < |s.merged| && s.merged[i] == l;
      assert batches[i] == ListItems(s, kind);
    }
    MergeAllContents(ActiveItems(s), batches);
    forall x | x in s.issues ensures x in ActiveItems(s) || exists kind :: kind in s.lists && x in ListItems(s, kind) {
      if x !in ActiveItems(s) {
        var b :| b in batches && x in b;
        var kind :| kind in s.lists && ListItems(s, kind) == b;
        assert x in ListItems(s, kind);
      }
    }
  }

  // ---------------------------------------------------------------- what was asked for and answered

  function KindsOf(kinds: seq<Kind>): set<Kind> {
    set kind | kind in kinds
  }

  /** How many list fetches had been started when the newest load or reset came. */
  function Begun(ss: seq<State>, steps: seq<Step>, k: nat): nat
    requires |ss| == |steps| + 1 && k <= |steps|
  {
    if k == 0 then 0
    else if steps[k - 1].Load? || steps[k - 1].Reset? then |ss[k - 1].loads|
    else Begun(ss, steps, k - 1)
  }

  function WantedNext(loads: seq<ListLoad>, step: Step, wanted: set<Kind>, begun: nat): set<Kind> {
    match step
    case Load(kinds) => KindsOf(kinds)
    case Ensure(kinds) => wanted + KindsOf(kinds)
    case Reset => {}
    case ListFail(l) => if begun <= l < |loads| then wanted - {loads[l].kind} else wanted
    case _ => wanted
  }

  /** The kinds asked for since the newest load or reset, that load included, whose fetch has not failed since. */
  function Wanted(ss: seq<State>, steps: seq<Step>, k: nat): set<Kind>
    requires |ss| == |steps| + 1 && k <= |steps|
  {
    if k == 0 then {}
    else WantedNext(ss[k - 1].loads, steps[k - 1], Wanted(ss, steps, k - 1), Begun(ss, steps, k - 1))
  }

  /** The lists are those wanted, and the loads from begun on are of this generation. */
  ghost predicate Tracks(s: State, wanted: set<Kind>, begun: nat) {
    s.lists.Keys == wanted && begun <= |s.loads| && forall l :: 0 <= l < |s.loads| ==>
      (s.loads[l].gen == s.generation <==> begun <= l)
  }

  lemma {:induction false} EnsureTracks(s: State, kinds: seq<Kind>, wanted: set<Kind>, begun: nat)
    requires Tracks(s, wanted, begun)
    ensures Tracks(IssueListsEnsured(s, kinds), wanted + KindsOf(kinds), begun)
    decreases |kinds|
  {
    if kinds == [] {
      assert wanted + KindsOf(kinds) == wanted;
    } else {
      var t := EnsureOne(s, kinds[0]);
      assert t.lists.Keys == wanted + {kinds[0]};
      EnsureTracks(t, kinds[1..], wanted + {kinds[0]}, begun);
      assert wanted + {kinds[0]} + KindsOf(kinds[1..]) == wanted + KindsOf(kinds);
    }
  }

  lemma {:induction false} NextTracks(s: State, step: Step, wanted: set<Kind>, begun: nat)
    requires Inv(s) && Enabled(s, step) && Tracks(s, wanted, begun)
    ensures Tracks(Next(s, step), WantedNext(s.loads, step, wanted, begun),
                   if step.Load? || step.Reset? then |s.loads| else begun)
  {
    forall l | 0 <= l < |s.loads| ensures s.loads[l].gen <= s.generation {
      assert LoadSound(s, l);
    }
    match step
    case Load(kinds) =>
      var gen := s.generation + 1;
      var begin := s.(generation := gen, lists := map[], active := s.active[gen := Fetching], activeLoad := Some(gen));
      EnsureTracks(begin, kinds, {}, |s.loads|);
    case Ensure(kinds) => EnsureTracks(s, kinds, wanted, begun);
    case ListFail(l) =>
      assert LoadSound(s, l);
      ListFailsTracks(s, l, wanted, begun);
    case _ =>
  }

  lemma {:induction false} RunTracks(ss: seq<State>, steps: seq<Step>, k: nat)
    requires Run(ss, steps) && k < |ss|
    ensures Tracks(ss[k], Wanted(ss, steps, k), Begun(ss, steps, k))
  {
    hide Next, Enabled, Inv, WantedNext;
    if k > 0 {
      RunTracks(ss, steps, k - 1);
      RunKeepsInv(ss, steps, k - 1);
      NextTracks(ss[k - 1], steps[k - 1], Wanted(ss, steps, k - 1), Begun(ss, steps, k - 1));
    }
  }

  lemma {:induction false} ListFailsTracks(s: State, l: nat, wanted: set<Kind>, begun: nat)
    requires Shape(s) && l < |s.loads| && LoadSound(s, l) && s.loads[l].phase == ListFetching
        && Tracks(s, wanted, begun)
    ensures Tracks(ListFails(s, l), if begun <= l then wanted - {s.loads[l].kind} else wanted, begun)
  {
    var kind := s.loads[l].kind;
    assert begun <= l <==> kind in s.lists && s.lists[kind] == l;
  }

  /** The promise of a wanted list is of its kind, was made since the newest load or reset, and has not failed. */
  ghost predicate OnItsWay(s: State, kind: Kind, begun: nat) {
    kind in s.lists && begun <= s.lists[kind] < |s.loads| && s.loads[s.lists[kind]].kind == kind
    && s.loads[s.lists[kind]].phase != ListFailed
  }

  /** In every run, exactly the lists that are wanted have been requested. */
  lemma {:induction false} WantedIsRequested(ss: seq<State>, steps: seq<Step>, k: nat)
    requires Run(ss, steps) && k < |ss|
    ensures ss[k].lists.Keys == Wanted(ss, steps, k)
    ensures forall kind :: kind in Wanted(ss, steps, k) ==> OnItsWay(ss[k], kind, Begun(ss, steps, k))
  {
    RunTracks(ss, steps, k);
    RunKeepsInv(ss, steps, k);
    forall kind | kind in ss[k].lists ensures OnItsWay(ss[k], kind, Begun(ss, steps, k)) {
      assert LoadSound(ss[k], ss[k].lists[kind]);
    }
  }

  /** What a response brought is what its promise holds. */
  ghost predicate Answered(s: State, steps: seq<Step>, k: nat)
    requires k <= |steps|
  {
    && (forall gen :: gen in s.active && s.active[gen].Loaded? ==>
          exists i :: 0 <= i < k && steps[i] == ActiveArrive(gen, s.active[gen].items))
    && (forall l :: 0 <= l < |s.loads| && (s.loads[l].phase.Fetched? || s.loads[l].phase.Merged?) ==>
          exists i :: 0 <= i < k && steps[i] == ListArrive(l, s.loads[l].phase.items))
  }

  lemma {:induction false} EnsureOnlyFetches(s: State, kinds: seq<Kind>)
    ensures var t := IssueListsEnsured(s, kinds);
      && t == s.(lists := t.lists, loads := t.loads) && |s.loads| <= |t.loads| && t.loads[..|s.loads|] == s.loads
      && forall l :: |s.loads| <= l < |t.loads| ==> t.loads[l].phase == ListFetching
    decreases |kinds|
  {
    if kinds != [] {
      var u := EnsureOne(s, kinds[0]);
      EnsureOnlyFetches(u, kinds[1..]);
      assert u.loads[..|s.loads|] == s.loads;
    }
  }

  /** A step brings only the answer it names. */
  lemma {:induction false} NextAnswers(s: State, step: Step)
    requires Enabled(s, step)
    ensures var t := Next(s, step);
      && (forall gen :: gen in t.active && t.active[gen].Loaded? ==>
            (gen in s.active && s.active[gen] == t.active[gen]) || step == ActiveArrive(gen, t.active[gen].items))
      && (forall l :: 0 <= l < |t.loads| && (t.loads[l].phase.Fetched? || t.loads[l].phase.Merged?) ==>
            || (l < |s.loads| && (s.loads[l].phase.Fetched? || s.loads[l].phase.Merged?)
                && s.loads[l].phase.items == t.loads[l].phase.items)
            || step == ListArrive(l, t.loads[l].phase.items))
  {
    hide MergeInto;
    if step.Load? || step.Ensure? {
      var gen := s.generation + 1;
      var begin := if step.Ensure? then s
        else s.(generation := gen, lists := map[], active := s.active[gen := Fetching], activeLoad := Some(gen));
      EnsureOnlyFetches(begin, step.kinds);
      hide IssueListsEnsured;
      var t := Next(s, step);
      forall l | 0 <= l < |s.loads| ensures t.loads[l] == s.loads[l] {
        assert t.loads[..|s.loads|][l] == s.loads[l];
      }
    }
  }

  lemma {:induction false} RunAnswered(ss: seq<State>, steps: seq<Step>, k: nat)
    requires Run(ss, steps) && k < |ss|
    ensures Answered(ss[k], steps, k)
  {
    hide Next, Enabled;
    if k > 0 {
      RunAnswered(ss, steps, k - 1);
      NextAnswers(ss[k - 1], steps[k - 1]);
      var s, t := ss[k - 1], ss[k];
      forall gen | gen in t.active && t.active[gen].Loaded?
        ensures exists i :: 0 <= i < k && steps[i] == ActiveArrive(gen, t.active[gen].items)
      {
        if gen in s.active && s.active[gen] == t.active[gen] {
          var i :| 0 <= i < k - 1 && steps[i] == ActiveArrive(gen, s.active[gen].items);
        } else {
          assert steps[k - 1] == ActiveArrive(gen, t.active[gen].items);
        }
      }
      forall l | 0 <= l < |t.loads| && (t.loads[l].phase.Fetched? || t.loads[l].phase.Merged?)
        ensures exists i :: 0 <= i < k && steps[i] == ListArrive(l, t.loads[l].phase.items)
      {
        if l < |s.loads| && (s.loads[l].phase.Fetched? || s.loads[l].phase.Merged?)
           && s.loads[l].phase.items == t.loads[l].phase.items {
          var i :| 0 <= i < k - 1 && steps[i] == ListArrive(l, s.loads[l].phase.items);
        } else {
          assert steps[k - 1] == ListArrive(l, t.loads[l].phase.items);
        }
      }
    }
  }

  /** Nothing is on its way any more, and no answered list waits for its merge. */
  ghost predicate Quiet(s: State) {
    && (s.activeLoad.Some? && s.activeLoad.value in s.active ==> s.active[s.activeLoad.value] != Fetching)
    && forall l :: 0 <= l < |s.loads| ==> s.loads[l].phase != ListFetching && !CanMerge(s, l)
  }

  /**
   * When nothing more can happen, every wanted list has been merged, also after a reset or a load that
   * failed; and everything has settled if the newest load did not fail.
   */
  lemma {:induction false} QuietIsSettled(ss: seq<State>, steps: seq<Step>, k: nat)
    requires Run(ss, steps) && k < |ss| && Quiet(ss[k])
    ensures forall kind :: kind in Wanted(ss, steps, k) ==>
      OnItsWay(ss[k], kind, Begun(ss, steps, k)) && ss[k].loads[ss[k].lists[kind]].phase.Merged?
    ensures ss[k].activeLoad.Some? && !(ss[k].generation in ss[k].active && ss[k].active[ss[k].generation].LoadFailed?)
            ==> AllSettled(ss[k])
  {
    RunKeepsInv(ss, steps, k);
    WantedIsRequested(ss, steps, k);
    var s := ss[k];
    forall kind | kind in s.lists ensures s.lists[kind] < |s.loads| && s.loads[s.lists[kind]].phase.Merged? {
      var l := s.lists[kind];
      assert LoadSound(s, l);
      assert !CanMerge(s, l);
    }
  }

  /** The issues change only with a response or a merge of the newest load or reset, and then as they should. */
  lemma {:induction false} IssuesChange(s: State, step: Step)
    requires Enabled(s, step)
    ensures var t := Next(s, step);
      match step
      case ActiveArrive(gen, items) => t.issues == if gen == s.generation then items else s.issues
      case MergeStep(l) =>
        if s.loads[l].gen != s.generation then t.issues == s.issues
        else forall x :: x in t.issues <==> x in s.issues || (x in s.loads[l].phase.items && x.id !in Ids(s.issues))
      case _ => t.issues == s.issues
  {
    hide MergeInto, Ids;
    match step
    case MergeStep(l) => MergeContents(s.issues, s.loads[l].phase.items);
    case Load(kinds) =>
      var gen := s.generation + 1;
      EnsureOnlyFetches(s.(generation := gen, lists := map[], active := s.active[gen := Fetching],
                           activeLoad := Some(gen)), kinds);
    case Ensure(kinds) => EnsureOnlyFetches(s, kinds);
    case _ =>
  }

  /** The answer that a list's promise, or the newest load, got in the first k steps. */
  ghost predicate ListAnswer(s: State, steps: seq<Step>, k: nat, kind: Kind, items: seq<Listed>)
    requires k <= |steps|
  {
    kind in s.lists && exists i :: 0 <= i < k && steps[i] == ListArrive(s.lists[kind], items)
  }

  ghost predicate LoadAnswer(s: State, steps: seq<Step>, k: nat, items: seq<Listed>)
    requires k <= |steps|
  {
    s.activeLoad.Some? && exists i :: 0 <= i < k && steps[i] == ActiveArrive(s.activeLoad.value, items)
  }

  /**
   * For every interleaving of loads, list requests and completions: when the newest load and the
   * wanted lists have settled without error, the issues are what loading everything now would give:
   * the active issues that the newest load brought and, for every kind asked for since, those that
   * its fetch brought, each id once; and nothing of a superseded load is among them.
   */
  lemma {:induction false} SettledIsLoadedNow(ss: seq<State>, steps: seq<Step>, k: nat)
    requires Run(ss, steps) && k < |ss| && AllSettled(ss[k])
    ensures LoadedNow(ss[k]) && ss[k].lists.Keys == Wanted(ss, steps, k)
    ensures LoadAnswer(ss[k], steps, k, ActiveItems(ss[k]))
    ensures forall kind :: kind in Wanted(ss, steps, k) ==>
      kind in ss[k].lists && ListAnswer(ss[k], steps, k, kind, ListItems(ss[k], kind))
  {
    hide Inv, LoadedNow;
    RunKeepsInv(ss, steps, k);
    InvIsLoadedNow(ss[k]);
    WantedIsRequested(ss, steps, k);
    RunAnswered(ss, steps, k);
  }

  /** In every run a list is fetched at most once per generation, not counting fetches that failed. */
  lemma {:induction false} ListFetchedOnce(ss: seq<State>, steps: seq<Step>, k: nat, a: nat, b: nat)
    requires Run(ss, steps) && k < |ss| && a < b < |ss[k].loads|
    requires ss[k].loads[a].kind == ss[k].loads[b].kind && ss[k].loads[a].gen == ss[k].loads[b].gen
    ensures ss[k].loads[a].phase == ListFailed
  {
    RunKeepsInv(ss, steps, k);
  }
}
