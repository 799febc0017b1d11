/** keyedLimiter of backend/ratelimit.go: a request counter per key with lazy eviction. */
module RateLimit {
  import opened Common

  /** rlMaxAge: one hour in nanoseconds. */
  const MAX_AGE: nat := 3_600_000_000_000

  datatype Entry = Entry(count: nat, windowEnd: int)

  datatype Limits = Limits(max: nat, window: nat, cleanupEvery: nat) {
    predicate Valid() { max >= 1 && cleanupEvery >= 1 }
  }

  /** One call of allow: the clock when it starts, and when it reads the clock again to clean up. */
  datatype Call<K> = Call(key: K, now: int, cleanupNow: int)

  datatype State<K> = State(counts: map<K, Entry>, calls: nat)

  /** The entry of key after one attempt at now. */
  function Attempt<K>(limits: Limits, counts: map<K, Entry>, key: K, now: int): Entry {
    if key !in counts || now > counts[key].windowEnd then Entry(1, now + limits.window)
    else Entry(counts[key].count + 1, counts[key].windowEnd)
  }

  /** A fresh window always lets its first attempt through, whatever the limit. */
  function Answer<K>(limits: Limits, counts: map<K, Entry>, key: K, now: int): bool {
    key !in counts || now > counts[key].windowEnd || counts[key].count + 1 <= limits.max
  }

  function Kept<K>(counts: map<K, Entry>, now: int): map<K, Entry> {
    map k | k in counts && counts[k].windowEnd >= now - MAX_AGE :: counts[k]
  }

  function Next<K>(limits: Limits, s: State<K>, call: Call<K>): State<K>
    requires limits.Valid()
  {
    var counts := s.counts[call.key := Attempt(limits, s.counts, call.key, call.now)];
    State(if (s.calls + 1) % limits.cleanupEvery == 0 then Kept(counts, call.cleanupNow) else counts, s.calls + 1)
  }

  class KeyedLimiter<K(==)> {
    const limits: Limits
    var counts: map<K, Entry>
    var calls: nat

    function View(): State<K> reads this { State(counts, calls) }

    constructor (limits: Limits)
      ensures this.limits == limits && View() == State(map[], 0)
    {
      this.limits, counts, calls := limits, map[], 0;
    }

    method Allow(key: K, now: int, cleanupNow: int) returns (allowed: bool)
      requires limits.Valid()
      modifies this
      ensures View() == Next(limits, old(View()), Call(key, now, cleanupNow))
      ensures allowed == Answer(limits, old(counts), key, now)
    {
      if key !in counts || now > counts[key].windowEnd {
        counts := counts[key := Entry(1, now + limits.window)];
        RecordCall(cleanupNow);
        return true;
      }
      var e := Entry(counts[key].count + 1, counts[key].windowEnd);
      counts := counts[key := e];
      RecordCall(cleanupNow);
      return e.count <= limits.max;
    }

    method RecordCall(now: int)
      requires limits.Valid()
      modifies this
      ensures calls == old(calls) + 1
      ensures counts == if calls % limits.cleanupEvery == 0 then Kept(old(counts), now) else old(counts)
    {
      calls := calls + 1;
      if calls % limits.cleanupEvery == 0 {
        Cleanup(now);
      }
    }

    method Cleanup(now: int)
      modifies this`counts
      ensures counts == Kept(old(counts), now)
      ensures forall k :: k in counts <==> k in old(counts) && old(counts)[k].windowEnd + 3_600_000_000_000 >= now
    {
      var cutoff := now - MAX_AGE;
      var left := counts.Keys;
      while left != {}
        invariant left <= old(counts).Keys && left <= counts.Keys
        invariant forall k :: k in counts ==> k in old(counts) && counts[k] == old(counts)[k]
        invariant forall k :: k in old(counts) && k !in left ==>
          (k in counts <==> old(counts)[k].windowEnd >= cutoff)
      {
        var k :| k in left;
        if counts[k].windowEnd < cutoff {
          counts := counts - {k};
        }
        left := left - {k};
      }
    }
  }

  // -------------------------------------------------------------------------------- runs of calls

  /** The clock never runs backwards, neither between calls nor within one. */
  ghost predicate ClockOrdered<K>(calls: seq<Call<K>>) {
    && (forall i :: 0 <= i < |calls| ==> calls[i].now <= calls[i].cleanupNow)
    && (forall i, j :: 0 <= i < j < |calls| ==> calls[i].cleanupNow <= calls[j].now)
  }

  function Answers<K>(limits: Limits, s: State<K>, calls: seq<Call<K>>): (r: seq<bool>)
    requires limits.Valid()
    ensures |r| == |calls|
    decreases |calls|
  {
    if calls == [] then []
    else [Answer(limits, s.counts, calls[0].key, calls[0].now)] + Answers(limits, Next(limits, s, calls[0]), calls[1..])
  }

  /** The limiter that never evicts an entry. */
  function EternalAnswers<K>(limits: Limits, counts: map<K, Entry>, calls: seq<Call<K>>): (r: seq<bool>)
    ensures |r| == |calls|
    decreases |calls|
  {
    if calls == [] then []
    else
      var key, now := calls[0].key, calls[0].now;
      [Answer(limits, counts, key, now)]
      + EternalAnswers(limits, counts[key := Attempt(limits, counts, key, now)], calls[1..])
  }

  /** Evicted entries are over by now, all others are the same. */
  ghost predicate SameBut<K>(counts: map<K, Entry>, eternal: map<K, Entry>, now: int) {
    && (forall k :: k in counts ==> k in eternal && counts[k] == eternal[k])
    && (forall k :: k in eternal && k !in counts ==> eternal[k].windowEnd < now)
  }

  lemma {:induction false} EvictionInvisibleFrom<K>(limits: Limits, s: State<K>, eternal: map<K, Entry>,
      calls: seq<Call<K>>)
    requires limits.Valid() && ClockOrdered(calls)
    requires calls != [] ==> SameBut(s.counts, eternal, calls[0].now)
    ensures Answers(limits, s, calls) == EternalAnswers(limits, eternal, calls)
    decreases |calls|
  {
    if calls != [] {
      var c := calls[0];
      var eternal' := eternal[c.key := Attempt(limits, eternal, c.key, c.now)];
      if |calls| > 1 {
        assert calls[1..][0] == calls[1];
        assert SameBut(Next(limits, s, c).counts, eternal', calls[1].now);
      }
      EvictionInvisibleFrom(limits, Next(limits, s, c), eternal', calls[1..]);
    }
  }

  /** The limiter with lazy cleanup answers every call exactly as one that never evicts. */
  lemma {:induction false} EvictionInvisible<K>(limits: Limits, calls: seq<Call<K>>)
    requires limits.Valid() && ClockOrdered(calls)
    ensures Answers(limits, State(map[], 0), calls) == EternalAnswers(limits, map[], calls)
  {
    EvictionInvisibleFrom(limits, State(map[], 0), map[], calls);
  }

  predicate Counts<K(==)>(call: Call<K>, answer: bool, key: K, lo: int, hi: int) {
    answer && call.key == key && lo <= call.now <= hi
  }

  /** How many calls of key were let through in the closed interval from lo to hi. */
  function AllowedIn<K(==)>(calls: seq<Call<K>>, answers: seq<bool>, key: K, lo: int, hi: int): nat
    requires |calls| == |answers|
    decreases |calls|
  {
    if calls == [] then 0
    else (if Counts(calls[0], answers[0], key, lo, hi) then 1 else 0)
         + AllowedIn(calls[1..], answers[1..], key, lo, hi)
  }

  /**
   * The most that can have been let through since t, given the current entry: a window open before
   * t has spent its first attempt outside the interval, and one opened after t can only have been
   * preceded by such a window.
   */
  ghost predicate Budget(limits: Limits, e: Option<Entry>, n: nat, t: int) {
    var spent := if e.None? then 0 else if e.value.count < limits.max then e.value.count else limits.max;
    if e.None? then n == 0
    else
      var start := e.value.windowEnd - limits.window;
      && e.value.count >= 1
      && (n > 0 ==> e.value.windowEnd >= t)
      && (start < t ==> n <= spent - 1)
      && (start == t ==> n <= spent)
      && (t < start <= t + limits.window ==> n <= limits.max - 1 + spent)
      && n <= 2 * limits.max - 1
  }

  function EntryOf<K>(counts: map<K, Entry>, key: K): Option<Entry> {
    if key in counts then Some(counts[key]) else None
  }

  lemma {:induction false} WindowBoundFrom<K>(limits: Limits, counts: map<K, Entry>, calls: seq<Call<K>>, key: K,
      n: nat, t: int)
    requires limits.Valid() && ClockOrdered(calls)
    requires Budget(limits, EntryOf(counts, key), n, t)
    requires calls != [] && key in counts ==> counts[key].windowEnd - limits.window <= calls[0].now
    ensures n + AllowedIn(calls, EternalAnswers(limits, counts, calls), key, t, t + limits.window) <= 2 * limits.max - 1
    decreases |calls|
  {
    if calls != [] {
      var c := calls[0];
      var answers := EternalAnswers(limits, counts, calls);
      var counts' := counts[c.key := Attempt(limits, counts, c.key, c.now)];
      var n' := n + if Counts(c, answers[0], key, t, t + limits.window) then 1 else 0;
      assert answers[1..] == EternalAnswers(limits, counts', calls[1..]);
      assert |calls| > 1 ==> calls[1..][0] == calls[1];
      WindowBoundFrom(limits, counts', calls[1..], key, n', t);
    }
  }

  /**
   * For every clock that does not run backwards, at most 2 * max - 1 calls of a key are let through
   * in any closed interval of one window length.
   */
  lemma {:induction false} WindowBound<K>(limits: Limits, calls: seq<Call<K>>, key: K, t: int)
    requires limits.Valid() && ClockOrdered(calls)
    ensures AllowedIn(calls, Answers(limits, State(map[], 0), calls), key, t, t + limits.window) <= 2 * limits.max - 1
  {
    EvictionInvisible(limits, calls);
    WindowBoundFrom(limits, map[], calls, key, 0, t);
  }

  function Repeat<K>(call: Call<K>, n: nat): (r: seq<Call<K>>)
    ensures |r| == n && forall i :: 0 <= i < n ==> r[i] == call
  {
    if n == 0 then [] else [call] + Repeat(call, n - 1)
  }

  /** n further attempts in an open window with room for them, then whatever follows. */
  lemma {:induction false} BurstAllowed<K>(
      limits: Limits, counts: map<K, Entry>, key: K, now: int, n: nat, rest: seq<Call<K>>, lo: int, hi: int)
    requires key in counts && now <= counts[key].windowEnd && counts[key].count + n <= limits.max && lo <= now <= hi
    ensures var calls := Repeat(Call(key, now, now), n) + rest;
      var after := counts[key := Entry(counts[key].count + n, counts[key].windowEnd)];
      AllowedIn(calls, EternalAnswers(limits, counts, calls), key, lo, hi)
        == n + AllowedIn(rest, EternalAnswers(limits, after, rest), key, lo, hi)
  {
    var c := Call(key, now, now);
    var calls := Repeat(c, n) + rest;
    if n == 0 {
      assert calls == rest && counts == counts[key := Entry(counts[key].count, counts[key].windowEnd)];
    } else {
      var counts' := counts[key := Attempt(limits, counts, key, now)];
      assert calls[1..] == Repeat(c, n - 1) + rest;
      BurstAllowed(limits, counts', key, now, n - 1, rest, lo, hi);
      assert EternalAnswers(limits, counts, calls)[1..] == EternalAnswers(limits, counts', calls[1..]);
      assert counts'[key := Entry(counts[key].count + n, counts[key].windowEnd)]
          == counts[key := Entry(counts[key].count + n, counts[key].windowEnd)];
    }
  }

  /** An attempt that opens a window, then whatever follows. */
  lemma {:induction false} OpensWindow<K>(limits: Limits, counts: map<K, Entry>, key: K, now: int, rest: seq<Call<K>>,
      lo: int, hi: int)
    requires key in counts ==> now > counts[key].windowEnd
    ensures var calls := [Call(key, now, now)] + rest;
      var after := counts[key := Entry(1, now + limits.window)];
      AllowedIn(calls, EternalAnswers(limits, counts, calls), key, lo, hi)
        == (if lo <= now <= hi then 1 else 0) + AllowedIn(rest, EternalAnswers(limits, after, rest), key, lo, hi)
  {
    var calls := [Call(key, now, now)] + rest;
    assert calls[1..] == rest;
    assert EternalAnswers(limits, counts, calls)[1..]
        == EternalAnswers(limits, counts[key := Attempt(limits, counts, key, now)], rest);
  }

  /** A full window that opens at now. */
  function FullWindow<K>(limits: Limits, key: K, now: int): seq<Call<K>>
    requires limits.Valid()
  {
    [Call(key, now, now)] + (Repeat(Call(key, now, now), limits.max - 1) + [])
  }

  lemma {:induction false} FullWindowAllowed<K>(limits: Limits, counts: map<K, Entry>, key: K, now: int, lo: int,
      hi: int)
    requires limits.Valid() && lo <= now <= hi && (key in counts ==> now > counts[key].windowEnd)
    ensures var calls := FullWindow(limits, key, now);
      AllowedIn(calls, EternalAnswers(limits, counts, calls), key, lo, hi) == limits.max
  {
    var rest := Repeat(Call(key, now, now), limits.max - 1) + [];
    OpensWindow(limits, counts, key, now, rest, lo, hi);
    BurstAllowed(limits, counts[key := Entry(1, now + limits.window)], key, now, limits.max - 1, [], lo, hi);
  }

  /** One call at 0, the rest of its window at its end, and a full new window right behind it. */
  function WorstCase<K>(limits: Limits, key: K): seq<Call<K>>
    requires limits.Valid()
  {
    var w := limits.window;
    [Call(key, 0, 0)] + (Repeat(Call(key, w, w), limits.max - 1) + FullWindow(limits, key, w + 1))
  }

  lemma {:induction false} WorstCaseOrdered<K>(limits: Limits, key: K)
    requires limits.Valid()
    ensures ClockOrdered(WorstCase(limits, key))
  {
    var w, m := limits.window, limits.max;
    var calls := WorstCase(limits, key);
    assert |calls| == 2 * m;
    forall i | 0 <= i < |calls|
      ensures calls[i].now == calls[i].cleanupNow == if i == 0 then 0 else if i < m then w else w + 1
    {
    }
  }

  /** The bound is reached: no smaller one holds, for any limit and any window. */
  lemma {:induction false} WindowBoundTight<K>(limits: Limits, key: K)
    requires limits.Valid() && limits.window >= 1
    ensures ClockOrdered(WorstCase(limits, key))
    ensures AllowedIn(WorstCase(limits, key), Answers(limits, State(map[], 0), WorstCase(limits, key)), key,
                      1, 1 + limits.window) == 2 * limits.max - 1
  {
    hide AllowedIn, Answers, EternalAnswers, ClockOrdered, FullWindow, Repeat;
    var w, m := limits.window, limits.max;
    var last := FullWindow(limits, key, w + 1);
    var c1: map<K, Entry> := map[key := Entry(1, w)];
    WorstCaseOrdered(limits, key);
    EvictionInvisible(limits, WorstCase(limits, key));
    OpensWindow(limits, map[], key, 0, Repeat(Call(key, w, w), m - 1) + last, 1, 1 + w);
    BurstAllowed(limits, c1, key, w, m - 1, last, 1, 1 + w);
    FullWindowAllowed(limits, c1[key := Entry(m, w)], key, w + 1, 1, 1 + w);
    assert map[][key := Entry(1, 0 + w)] == c1;
  }
}
