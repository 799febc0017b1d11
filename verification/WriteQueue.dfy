/** The promise chain of enqueueIssueWrite is the queue that Modal works with. */
module WriteQueue {
  import opened Common
  import opened Db
  import Handlers
  import C = WriteChain
  import M = Modal

  /** Writes that have started, the running one included. */
  function Started(c: C.Chain): nat {
    (|c.log| + 1) / 2
  }

  /** The writes that wait, and the one that runs, among all writes ever enqueued. */
  function QueueOf(c: C.Chain, writes: seq<M.Write>): seq<M.Write> {
    if Started(c) <= |writes| then writes[Started(c)..] else []
  }

  function RunningOf(c: C.Chain, writes: seq<M.Write>): Option<M.Write> {
    if |c.log| % 2 == 1 && |c.log| / 2 < |writes| then Some(writes[|c.log| / 2]) else None
  }

  /** The modal's queue and its running write are those of the chain. */
  ghost predicate Mirrors(c: C.Chain, writes: seq<M.Write>, client: M.Client) {
    && C.Inv(c) && |writes| == c.writes
    && client.queue == QueueOf(c, writes) && (client.running.Idle? <==> RunningOf(c, writes).None?)
  }

  /** enqueueIssueWrite appends the write, as Modal's Enqueue does. */
  lemma {:induction false} EnqueueMirrors(
      c: C.Chain, writes: seq<M.Write>, client: M.Client, db: Database, newProjectId: Option<int>)
        returns (write: M.Write)
    requires Mirrors(c, writes, client)
    ensures Mirrors(C.Enqueue(c), writes + [write], M.ClientNext(db, client, M.Enqueue(newProjectId)))
  {
    write := if newProjectId.Some? then M.MoveWrite(newProjectId.value)
             else M.SaveWrite(if client.currentIssue.Some? then Some(client.currentIssue.value.id) else None);
    C.EnqueueKeepsInv(c);
  }

  /** A promise that reacts swallows a failure and changes nothing, or starts the head of an idle queue. */
  lemma {:induction false} ReactMirrors(c: C.Chain, writes: seq<M.Write>, client: M.Client, p: nat, changes: M.Changes)
    requires Mirrors(c, writes, client) && C.CanReact(c, p)
    ensures c.promises[p].origin.Catch? ==> Mirrors(C.React(c, p), writes, client)
    ensures c.promises[p].origin.Then? ==>
      && client.running.Idle? && client.queue != []
      && RunningOf(C.React(c, p), writes) == Some(client.queue[0])
      && QueueOf(C.React(c, p), writes) == client.queue[1..] == M.StartWrite(client, changes).queue
  {
    hide C.Inv, C.CanReact, C.React;
    C.ReactLog(c, p);
    C.ReactKeepsInv(c, p);
  }

  /** A write that ends leaves the queue alone and the modal idle. */
  lemma {:induction false} EndMirrors(c: C.Chain, writes: seq<M.Write>, client: M.Client, p: nat, ok: bool)
    requires Mirrors(c, writes, client) && C.CanEnd(c, p)
    ensures !client.running.Idle? && Mirrors(C.End(c, p, ok), writes, client.(running := M.Idle))
  {
    C.PromiseOrigin(c, p);
    C.EndKeepsInv(c, p, ok);
  }

  /** An idle chain with waiting writes starts the next one after at most two reactions. */
  lemma {:induction false} NextWriteStarts(c: C.Chain, writes: seq<M.Write>)
    requires C.Inv(c) && |writes| == c.writes && RunningOf(c, writes).None? && QueueOf(c, writes) != []
    ensures var p := 2 * Started(c);
      || C.CanReact(c, p + 1)
      || (C.CanReact(c, p) && c.promises[p].origin.Catch? && C.CanReact(C.React(c, p), p + 1))
  {
    var w := Started(c);
    assert C.LinkSound(c, w);
    if w > 0 {
      assert C.LinkSound(c, w - 1);
    }
  }

  // ------------------------------------------------------------------------------------- runs

  /** How many writes the first k steps enqueue. */
  function Enqueued(steps: seq<M.Step>, k: nat): nat
    requires k <= |steps|
  {
    if k == 0 then 0 else Enqueued(steps, k - 1) + if steps[k - 1].Enqueue? then 1 else 0
  }

  /** The number of the first write that waits, counting from 0 as they were enqueued. */
  function HeadNumber(enqueued: nat, c: M.Client): nat {
    if |c.queue| <= enqueued then enqueued - |c.queue| else 0
  }

  /** The write that a step starts or ends; ok says whether its function returns or throws. */
  function EventsOf(c: M.Client, step: M.Step, next: M.Client, enqueued: nat, ok: bool): seq<C.Event> {
    var head := HeadNumber(enqueued, c);
    if step.Start? then [C.Started(head)] + if next.running.Idle? then [C.Ended(head, ok)] else []
    else if !c.running.Idle? && next.running.Idle? then [C.Ended(if head == 0 then 0 else head - 1, ok)]
    else []
  }

  /** What the first k steps of a run of the modal start and end. */
  function Events(ws: seq<M.World>, steps: seq<M.Step>, oks: nat -> bool, k: nat): seq<C.Event>
    requires |ws| == |steps| + 1 && k <= |steps|
  {
    if k == 0 then []
    else
      Events(ws, steps, oks, k - 1)
      + EventsOf(ws[k - 1].client, steps[k - 1], ws[k].client, Enqueued(steps, k - 1), oks(k))
  }

  /** Only Enqueue and Start change the queue, and only Start makes a write run. */
  lemma {:induction false} StepKinds(w: M.World, step: M.Step)
    requires M.Enabled(w, step)
    ensures var c, d := w.client, M.Next(w, step).client;
      && (step.Enqueue? ==> |d.queue| == |c.queue| + 1 && d.queue[..|c.queue|] == c.queue && d.running == c.running)
      && (step.Start? ==> c.running.Idle? && c.queue != [] && d.queue == c.queue[1..])
      && (!step.Enqueue? && !step.Start? ==> d.queue == c.queue && (c.running.Idle? ==> d.running.Idle?))
  {
    hide Handlers.Handle;
  }

  /** A run of the chain with one more step. */
  lemma {:induction false} Extended(cs: seq<C.Chain>, steps: seq<C.Step>, step: C.Step)
      returns (longer: seq<C.Chain>, more: seq<C.Step>)
    requires C.Run(cs, steps) && C.Enabled(cs[|steps|], step)
    ensures C.Run(longer, more) && longer[|more|] == C.Next(cs[|steps|], step)
  {
    hide C.Enabled, C.Next;
    longer, more := cs + [C.Next(cs[|steps|], step)], steps + [step];
  }

  /** An idle chain with a write that waits goes on to run the next one. */
  lemma {:induction false} StartedRun(cs: seq<C.Chain>, steps: seq<C.Step>)
      returns (longer: seq<C.Chain>, more: seq<C.Step>)
    requires C.Run(cs, steps)
    requires |cs[|steps|].log| % 2 == 0 && |cs[|steps|].log| / 2 < cs[|steps|].writes
    ensures C.Run(longer, more)
    ensures var c, d := cs[|steps|], longer[|more|];
      d.writes == c.writes && d.log == c.log + [C.Started(|c.log| / 2)]
  {
    C.RunKeepsInv(cs, steps, |steps|);
    var c := cs[|steps|];
    var p := 2 * Started(c);
    NextReacts(c);
    longer, more := cs, steps;
    if !C.CanReact(c, p + 1) {
      C.ReactLog(c, p);
      longer, more := Extended(longer, more, C.ReactStep(p));
    }
    C.RunKeepsInv(longer, more, |more|);
    var d := longer[|more|];
    assert C.LinkSound(d, p / 2);
    C.ReactLog(d, p + 1);
    longer, more := Extended(longer, more, C.ReactStep(p + 1));
  }

  lemma {:induction false} NextReacts(c: C.Chain)
    requires C.Inv(c) && |c.log| % 2 == 0 && |c.log| / 2 < c.writes
    ensures var p := 2 * Started(c);
      || C.CanReact(c, p + 1)
      || (C.CanReact(c, p) && c.promises[p].origin.Catch? && C.CanReact(C.React(c, p), p + 1))
  {
    var writes := seq(c.writes, i => M.SaveWrite(None));
    NextWriteStarts(c, writes);
  }

  /** A chain with a running write can end it either way. */
  lemma {:induction false} EndedRun(cs: seq<C.Chain>, steps: seq<C.Step>, ok: bool)
      returns (longer: seq<C.Chain>, more: seq<C.Step>)
    requires C.Run(cs, steps) && |cs[|steps|].log| % 2 == 1
    ensures C.Run(longer, more)
    ensures var c, d := cs[|steps|], longer[|more|];
      d.writes == c.writes && d.log == c.log + [C.Ended(|c.log| / 2, ok)]
  {
    C.RunKeepsInv(cs, steps, |steps|);
    var c := cs[|steps|];
    assert C.LinkSound(c, |c.log| / 2);
    longer, more := Extended(cs, steps, C.EndStep(2 * (|c.log| / 2) + 1, ok));
  }

  /** The chain of this run has these events, and mirrors this client. */
  ghost predicate Simulates(
    cs: seq<C.Chain>, chainSteps: seq<C.Step>, writes: seq<M.Write>, client: M.Client, events: seq<C.Event>) {
    C.Run(cs, chainSteps) && cs[|chainSteps|].log == events && Mirrors(cs[|chainSteps|], writes, client)
  }

  lemma {:induction false} EnqueueSimulated(
    cs: seq<C.Chain>, chainSteps: seq<C.Step>, writes: seq<M.Write>, c: M.Client, d: M.Client, events: seq<C.Event>)
      returns (longer: seq<C.Chain>, more: seq<C.Step>, allWrites: seq<M.Write>)
    requires Simulates(cs, chainSteps, writes, c, events)
    requires |d.queue| == |c.queue| + 1 && d.queue[..|c.queue|] == c.queue && d.running == c.running
    ensures Simulates(longer, more, allWrites, d, events) && |allWrites| == |writes| + 1
  {
    longer, more := Extended(cs, chainSteps, C.EnqueueStep);
    C.RunKeepsInv(longer, more, |more|);
    allWrites := writes + [d.queue[|c.queue|]];
    hide C.Run, C.Inv;
    assert d.queue == c.queue + [d.queue[|c.queue|]];
  }

  lemma {:induction false} StartSimulated(
    cs: seq<C.Chain>, chainSteps: seq<C.Step>, writes: seq<M.Write>, c: M.Client, d: M.Client, events: seq<C.Event>,
      ok: bool)
      returns (longer: seq<C.Chain>, more: seq<C.Step>)
    requires Simulates(cs, chainSteps, writes, c, events)
    requires c.running.Idle? && c.queue != [] && d.queue == c.queue[1..]
    ensures var head := HeadNumber(|writes|, c);
      Simulates(longer, more, writes, d,
                events + [C.Started(head)] + if d.running.Idle? then [C.Ended(head, ok)] else [])
  {
    assert |cs| == |chainSteps| + 1;
    hide C.Run, C.Inv, Mirrors, HeadNumber;
    IdleHead(cs[|chainSteps|], writes, c);
    longer, more := StartedRun(cs, chainSteps);
    if d.running.Idle? {
      longer, more := EndedRun(longer, more, ok);
    }
    C.RunKeepsInv(longer, more, |more|);
    StartMirrors(cs[|chainSteps|], writes, c, longer[|more|], d);
  }

  lemma {:induction false} IdleHead(c: C.Chain, writes: seq<M.Write>, client: M.Client)
    requires Mirrors(c, writes, client) && client.running.Idle? && client.queue != []
    ensures |c.log| % 2 == 0 && |c.log| / 2 == HeadNumber(|writes|, client) < c.writes
  {
    hide C.Inv;
  }

  lemma {:induction false} StartMirrors(
    c: C.Chain, writes: seq<M.Write>, client: M.Client, started: C.Chain, next: M.Client)
    requires Mirrors(c, writes, client) && client.running.Idle? && client.queue != []
    requires C.Inv(started) && started.writes == c.writes && next.queue == client.queue[1..]
    requires |started.log| == |c.log| + if next.running.Idle? then 2 else 1
    ensures Mirrors(started, writes, next)
  {
    hide C.Inv;
  }

  lemma {:induction false} EndSimulated(
    cs: seq<C.Chain>, chainSteps: seq<C.Step>, writes: seq<M.Write>, c: M.Client, d: M.Client, events: seq<C.Event>,
      ok: bool)
      returns (longer: seq<C.Chain>, more: seq<C.Step>)
    requires Simulates(cs, chainSteps, writes, c, events)
    requires !c.running.Idle? && d.running.Idle? && d.queue == c.queue
    ensures var head := HeadNumber(|writes|, c);
      Simulates(longer, more, writes, d, events + [C.Ended(if head == 0 then 0 else head - 1, ok)])
  {
    hide C.Run, C.Inv;
    longer, more := EndedRun(cs, chainSteps, ok);
    C.RunKeepsInv(longer, more, |more|);
  }

  lemma {:induction false} StillSimulated(
    cs: seq<C.Chain>, chainSteps: seq<C.Step>, writes: seq<M.Write>, c: M.Client, d: M.Client, events: seq<C.Event>)
    requires Simulates(cs, chainSteps, writes, c, events)
    requires d.queue == c.queue && (c.running.Idle? <==> d.running.Idle?)
    ensures Simulates(cs, chainSteps, writes, d, events)
  {
  }

  lemma {:induction false} StepSimulated(
    cs: seq<C.Chain>, chainSteps: seq<C.Step>, writes: seq<M.Write>, w: M.World, step: M.Step, events: seq<C.Event>,
      ok: bool)
      returns (longer: seq<C.Chain>, more: seq<C.Step>, allWrites: seq<M.Write>)
    requires Simulates(cs, chainSteps, writes, w.client, events) && M.Enabled(w, step)
    ensures var d := M.Next(w, step).client;
      Simulates(longer, more, allWrites, d, events + EventsOf(w.client, step, d, |writes|, ok))
    ensures |allWrites| == |writes| + if step.Enqueue? then 1 else 0
  {
    hide M.Enabled, M.Next, Simulates, HeadNumber;
    StepKinds(w, step);
    var c, d := w.client, M.Next(w, step).client;
    longer, more, allWrites := cs, chainSteps, writes;
    if step.Enqueue? {
      longer, more, allWrites := EnqueueSimulated(cs, chainSteps, writes, c, d, events);
    } else if step.Start? {
      longer, more := StartSimulated(cs, chainSteps, writes, c, d, events, ok);
      var head := HeadNumber(|writes|, c);
      assert events + EventsOf(c, step, d, |writes|, ok)
          == events + [C.Started(head)] + if d.running.Idle? then [C.Ended(head, ok)] else [];
    } else if !c.running.Idle? && d.running.Idle? {
      longer, more := EndSimulated(cs, chainSteps, writes, c, d, events, ok);
    } else {
      StillSimulated(cs, chainSteps, writes, c, d, events);
    }
    assert events + [] == events;
  }

  /**
   * Every run of the modal is a run of the promise chain, whichever writes throw: after each step the
   * chain has started and ended the same writes, and its queue and running write are the modal's.
   */
  lemma {:induction false} ChainSimulates(ws: seq<M.World>, steps: seq<M.Step>, oks: nat -> bool, k: nat)
      returns (cs: seq<C.Chain>, chainSteps: seq<C.Step>, writes: seq<M.Write>)
    requires M.Run(ws, steps) && k < |ws| && ws[0].client == M.NO_CLIENT
    ensures Simulates(cs, chainSteps, writes, ws[k].client, Events(ws, steps, oks, k)) && |writes| == Enqueued(steps, k)
  {
    if k == 0 {
      cs, chainSteps, writes := [C.EMPTY_CHAIN], [], [];
    } else {
      hide M.Enabled, M.Next, Simulates, EventsOf;
      cs, chainSteps, writes := ChainSimulates(ws, steps, oks, k - 1);
      cs, chainSteps, writes :=
        StepSimulated(cs, chainSteps, writes, ws[k - 1], steps[k - 1], Events(ws, steps, oks, k - 1), oks(k));
    }
  }

  /**
   * So in every run of the modal the saves and moves run one at a time, in the order they were
   * enqueued, and each at most once.
   */
  lemma {:induction false} ModalWritesInOrder(ws: seq<M.World>, steps: seq<M.Step>, oks: nat -> bool, k: nat)
    requires M.Run(ws, steps) && k < |ws| && ws[0].client == M.NO_CLIENT
    ensures C.InOrder(Events(ws, steps, oks, k))
    ensures |Events(ws, steps, oks, k)| <= 2 * Enqueued(steps, k)
    ensures !ws[k].client.running.Idle? <==> |Events(ws, steps, oks, k)| % 2 == 1
  {
    var cs, chainSteps, writes := ChainSimulates(ws, steps, oks, k);
    C.WritesInOrder(cs, chainSteps, |chainSteps|);
  }
}
