/** enqueueIssueWrite of static/js/components/modal.js: a queue made of promises. */
module WriteChain {

  /** How a promise was made, and its state; a then whose callback has been called is Running. */
  datatype Origin = Resolved | Then(prev: nat, write: nat) | Catch(prev: nat)
  datatype Status = Pending | Running | Fulfilled | Rejected
  datatype Promise = Promise(origin: Origin, status: Status)

  datatype Event = Started(write: nat) | Ended(write: nat, ok: bool)

  /** All promises so far, issueSaveChain as an index, and what the writes have done. */
  datatype Chain = Chain(promises: seq<Promise>, tail: nat, writes: nat, log: seq<Event>)

  const EMPTY_CHAIN := Chain([Promise(Resolved, Fulfilled)], 0, 0, [])

  /** run = issueSaveChain.then(write); issueSaveChain = run.catch(() => {}) */
  function Enqueue(c: Chain): Chain {
    var run := |c.promises|;
    Chain(c.promises + [Promise(Then(c.tail, c.writes), Pending), Promise(Catch(run), Pending)], run + 1, c.writes + 1,
      c.log)
  }

  /** The previous promise has settled, and this one has not reacted to it yet. */
  predicate CanReact(c: Chain, p: nat) {
    && p < |c.promises| && c.promises[p].status == Pending && c.promises[p].origin != Resolved
    && c.promises[p].origin.prev < |c.promises|
    && c.promises[c.promises[p].origin.prev].status in {Fulfilled, Rejected}
  }

  /** A then calls its write after success and skips it after a failure; a catch fulfils either way. */
  function React(c: Chain, p: nat): Chain
    requires CanReact(c, p)
  {
    match c.promises[p].origin
    case Catch(_) => c.(promises := c.promises[p := c.promises[p].(status := Fulfilled)])
    case Then(prev, write) =>
      if c.promises[prev].status == Fulfilled then
        c.(promises := c.promises[p := c.promises[p].(status := Running)], log := c.log + [Started(write)])
      else c.(promises := c.promises[p := c.promises[p].(status := Rejected)])
    case Resolved => c
  }

  predicate CanEnd(c: Chain, p: nat) {
    p < |c.promises| && c.promises[p].status == Running && c.promises[p].origin.Then?
  }

  /** A running write returns or throws. */
  function End(c: Chain, p: nat, ok: bool): Chain
    requires CanEnd(c, p)
  {
    c.(promises := c.promises[p := c.promises[p].(status := if ok then Fulfilled else Rejected)],
       log := c.log + [Ended(c.promises[p].origin.write, ok)])
  }

  class IssueSaveChain {
    var promises: seq<Promise>
    var issueSaveChain: nat
    var writes: nat
    var log: seq<Event>

    constructor ()
      ensures View() == EMPTY_CHAIN
    {
      promises, issueSaveChain, writes, log := [Promise(Resolved, Fulfilled)], 0, 0, [];
    }

    function View(): Chain
      reads this
    {
      Chain(promises, issueSaveChain, writes, log)
    }

    method EnqueueIssueWrite() returns (run: nat)
      modifies this
      ensures View() == Enqueue(old(View())) && run == |old(promises)|
    {
      run := |promises|;
      promises := promises + [Promise(Then(issueSaveChain, writes), Pending)];
      promises := promises + [Promise(Catch(run), Pending)];
      issueSaveChain := run + 1;
      writes := writes + 1;
    }
  }

  // -------------------------------------------------------------------------------- invariant

  /** The log so far: write 0 starts and ends, then write 1 starts and ends, and so on. */
  predicate InOrder(log: seq<Event>) {
    forall i :: 0 <= i < |log| ==> log[i].write == i / 2 && (log[i].Started? <==> i % 2 == 0)
  }

  predicate Settled(s: Status) {
    s == Fulfilled || s == Rejected
  }

  /** Promise 2k+1 runs write k and promise 2k+2 swallows its failure. */
  predicate LinkSound(c: Chain, k: nat)
    requires |c.promises| == 2 * c.writes + 1 && k < c.writes
  {
    var run, next := c.promises[2 * k + 1], c.promises[2 * k + 2];
    && run.origin == Then(2 * k, k) && next.origin == Catch(2 * k + 1)
    && (if |c.log| <= 2 * k then run.status == Pending
        else if |c.log| == 2 * k + 1 then run.status == Running
        else Settled(run.status))
    && (next.status == Fulfilled || next.status == Pending)
    && (next.status == Fulfilled ==> |c.log| >= 2 * k + 2)
    && (|c.log| > 2 * k + 2 ==> next.status == Fulfilled)
  }

  ghost predicate Inv(c: Chain) {
    && |c.promises| == 2 * c.writes + 1 && c.tail == 2 * c.writes && |c.log| <= 2 * c.writes
    && c.promises[0] == Promise(Resolved, Fulfilled)
    && InOrder(c.log)
    && forall k: nat :: k < c.writes ==> LinkSound(c, k)
  }

  lemma {:induction false} EnqueueKeepsInv(c: Chain)
    requires Inv(c)
    ensures Inv(Enqueue(c))
  {
    var d := Enqueue(c);
    forall k: nat | k < d.writes ensures LinkSound(d, k) {
      if k < c.writes {
        assert LinkSound(c, k);
      }
    }
  }

  /** The write of an odd promise, or the write whose failure an even one swallows. */
  lemma {:induction false} PromiseOrigin(c: Chain, p: nat)
    requires Inv(c) && 0 < p < |c.promises|
    ensures LinkSound(c, (p - 1) / 2)
    ensures p == 2 * ((p - 1) / 2) + 1 || p == 2 * ((p - 1) / 2) + 2
  {
  }

  lemma {:induction false} ReactKeepsInv(c: Chain, p: nat)
    requires Inv(c) && CanReact(c, p)
    ensures Inv(React(c, p))
  {
    PromiseOrigin(c, p);
    var write := (p - 1) / 2;
    if p == 2 * write + 1 && write > 0 {
      assert LinkSound(c, write - 1);
    }
    var d := React(c, p);
    assert p == 2 * write + 1 ==> |c.log| == 2 * write;
    forall k: nat | k < d.writes ensures LinkSound(d, k) {
      assert LinkSound(c, k);
    }
  }

  /** A reaction starts the next write, once the one before has ended, or leaves the log alone. */
  lemma {:induction false} ReactLog(c: Chain, p: nat)
    requires Inv(c) && CanReact(c, p)
    ensures c.promises[p].origin.Then? || c.promises[p].origin.Catch?
    ensures c.promises[p].origin.Catch? ==> React(c, p).log == c.log
    ensures c.promises[p].origin.Then? ==>
      |c.log| % 2 == 0 && |c.log| / 2 < c.writes && React(c, p).log == c.log + [Started(|c.log| / 2)]
    ensures React(c, p).writes == c.writes
  {
    PromiseOrigin(c, p);
    var write := (p - 1) / 2;
    if p == 2 * write + 1 && write > 0 {
      assert LinkSound(c, write - 1);
    }
  }

  lemma {:induction false} EndKeepsInv(c: Chain, p: nat, ok: bool)
    requires Inv(c) && CanEnd(c, p)
    ensures Inv(End(c, p, ok))
  {
    PromiseOrigin(c, p);
    var write := (p - 1) / 2;
    var d := End(c, p, ok);
    forall k: nat | k < d.writes ensures LinkSound(d, k) {
      assert LinkSound(c, k);
    }
  }

  datatype Step = EnqueueStep | ReactStep(promise: nat) | EndStep(promise: nat, ok: bool)

  predicate Enabled(c: Chain, step: Step) {
    match step
    case EnqueueStep => true
    case ReactStep(p) => CanReact(c, p)
    case EndStep(p, _) => CanEnd(c, p)
  }

  function Next(c: Chain, step: Step): Chain
    requires Enabled(c, step)
  {
    match step
    case EnqueueStep => Enqueue(c)
    case ReactStep(p) => React(c, p)
    case EndStep(p, ok) => End(c, p, ok)
  }

  ghost predicate Run(cs: seq<Chain>, steps: seq<Step>) {
    && |cs| == |steps| + 1 && cs[0] == EMPTY_CHAIN
    && forall k :: 0 <= k < |steps| ==> Enabled(cs[k], steps[k]) && cs[k + 1] == Next(cs[k], steps[k])
  }

  lemma {:induction false} RunKeepsInv(cs: seq<Chain>, steps: seq<Step>, k: nat)
    requires Run(cs, steps) && k < |cs|
    ensures Inv(cs[k])
  {
    if k > 0 {
      RunKeepsInv(cs, steps, k - 1);
      match steps[k - 1]
      case EnqueueStep => EnqueueKeepsInv(cs[k - 1]);
      case ReactStep(p) => ReactKeepsInv(cs[k - 1], p);
      case EndStep(p, ok) => EndKeepsInv(cs[k - 1], p, ok);
    }
  }

  /** In every run the writes run one at a time, in the order they were enqueued, and each at most once. */
  lemma {:induction false} WritesInOrder(cs: seq<Chain>, steps: seq<Step>, k: nat)
    requires Run(cs, steps) && k < |cs|
    ensures InOrder(cs[k].log) && |cs[k].log| <= 2 * cs[k].writes
  {
    RunKeepsInv(cs, steps, k);
  }

  /** Each also runs, whatever the ones before it did: as long as one is missing, something can happen. */
  lemma {:induction false} NoWriteIsStuck(cs: seq<Chain>, steps: seq<Step>, k: nat)
    requires Run(cs, steps) && k < |cs|
    ensures |cs[k].log| < 2 * cs[k].writes ==> exists p :: CanReact(cs[k], p) || CanEnd(cs[k], p)
  {
    RunKeepsInv(cs, steps, k);
    var c := cs[k];
    if |c.log| < 2 * c.writes {
      var w := |c.log| / 2;
      assert LinkSound(c, w);
      if |c.log| % 2 == 1 {
        assert CanEnd(c, 2 * w + 1);
      } else if w == 0 {
        assert CanReact(c, 1);
      } else {
        assert LinkSound(c, w - 1);
        assert CanReact(c, 2 * w) || CanReact(c, 2 * w + 1);
      }
    }
  }
}
