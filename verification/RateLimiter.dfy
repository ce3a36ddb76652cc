/** core/rate_limiter.py:30-134: the two sliding-window backends, one key at a time. */
module WindowSpec {
  import opened Common

  /** `[t for t in ts if t > cutoff]` */
  function Prune(ts: seq<real>, cutoff: real): seq<real> {
    if ts == [] then []
    else Prune(ts[..|ts| - 1], cutoff) + if ts[|ts| - 1] > cutoff then [ts[|ts| - 1]] else []
  }

  /** The in-memory list after one more call. */
  function Bump(ts: seq<real>, window: real, now: real): seq<real> {
    Prune(ts, now - window) + [now]
  }

  /** A Redis sorted set with its expiry. */
  datatype ScoreSet = ScoreSet(scores: seq<real>, expireAt: real)

  /** Python's `int()` truncates toward zero. */
  function Truncate(x: real): int { if x >= 0.0 then x.Floor else -((-x).Floor) }

  function Alive(z: Option<ScoreSet>, now: real): seq<real> {
    if z.Some? && now < z.value.expireAt then z.value.scores else []
  }

  /** ZREMRANGEBYSCORE key 0 cutoff */
  function DropScores(ts: seq<real>, cutoff: real): seq<real> {
    if ts == [] then []
    else
      var t := ts[|ts| - 1];
      DropScores(ts[..|ts| - 1], cutoff) + if 0.0 <= t <= cutoff then [] else [t]
  }

  /** The pipeline of `RedisBackend.increment`. */
  function RedisBump(z: Option<ScoreSet>, window: real, now: real): ScoreSet {
    ScoreSet(DropScores(Alive(z, now), now - window) + [now], now + (Truncate(window) + 1) as real)
  }

  /** What one process knows of a key: its latch, the set in Redis and the list in its own memory. */
  datatype Pair = Pair(primaryAvailable: bool, primary: Option<ScoreSet>, memory: seq<real>)

  /** `_call("increment", ...)`: the first exception from Redis switches to memory for good. */
  function Increment(p: Pair, window: real, now: real, reply: Reply): (Pair, int) {
    var bumped := RedisBump(p.primary, window, now);
    var asked := if p.primaryAvailable && reply.TookEffect() then p.(primary := Some(bumped)) else p;
    if p.primaryAvailable && !reply.Raised() then (asked, |bumped.scores|)
    else
      var memory := Bump(p.memory, window, now);
      (asked.(primaryAvailable := false, memory := memory), |memory|)
  }

  /** `get_count` of the in-memory list. */
  function CountIn(ts: seq<real>, window: real, now: real): int { |Prune(ts, now - window)| }

  /** `get_ttl` of the in-memory list: the age of its oldest entry. */
  function Age(ts: seq<real>, now: real): real {
    if ts == [] || now < ts[0] then 0.0 else now - ts[0]
  }

  /** What the docstring of `get_ttl` promises: seconds until the oldest entry in the window expires. */
  function TimeToExpiry(ts: seq<real>, window: real, now: real): real {
    if ts == [] || ts[0] + window < now then 0.0 else ts[0] + window - now
  }

  datatype Decision = Decision(allowed: bool, remaining: int, retryAfter: real)

  /** `SlidingWindowCounter.check` once the backend has counted. */
  function Decide(count: int, requests: int, window: real): Decision {
    Decision(count <= requests, Max(0, requests - count), if count <= requests then 0.0 else window)
  }

  // ----- Facts about pruning -------------------------------------------------------------

  lemma {:induction false} PruneTwice(ts: seq<real>, c: real, d: real)
    requires c <= d
    ensures Prune(Prune(ts, c), d) == Prune(ts, d)
  {
    if ts != [] {
      PruneTwice(ts[..|ts| - 1], c, d);
      PruneConcat(Prune(ts[..|ts| - 1], c), if ts[|ts| - 1] > c then [ts[|ts| - 1]] else [], d);
    }
  }

  lemma {:induction false} PruneConcat(a: seq<real>, b: seq<real>, c: real)
    ensures Prune(a + b, c) == Prune(a, c) + Prune(b, c)
  {
    if b == [] {
      assert a + b == a;
    } else {
      assert (a + b)[..|a + b| - 1] == a + b[..|b| - 1];
      PruneConcat(a, b[..|b| - 1], c);
    }
  }

  ghost predicate Nonnegative(ts: seq<real>) {
    forall i :: 0 <= i < |ts| ==> ts[i] >= 0.0
  }

  /** With nonnegative scores Redis drops what the in-memory list drops. */
  lemma {:induction false} DropIsPrune(ts: seq<real>, cutoff: real)
    requires Nonnegative(ts)
    ensures DropScores(ts, cutoff) == Prune(ts, cutoff) && Nonnegative(Prune(ts, cutoff))
  {
    if ts != [] { DropIsPrune(ts[..|ts| - 1], cutoff); }
  }

  /** `get_ttl` keeps its docstring's promise exactly for an empty list, half-way through the
      window of the oldest entry, and, before that entry's own time, once its window is over. */
  lemma TtlIsTimeToExpiryIff(ts: seq<real>, window: real, now: real)
    ensures Age(ts, now) == TimeToExpiry(ts, window, now)
            <==> ts == [] || (if ts[0] < now then 2.0 * (now - ts[0]) == window else window <= now - ts[0])
  {
  }

  /** Right after the first call of a key with a window of 60 seconds it returns 0 instead of 60. */
  lemma TtlOfNewKey(now: real)
    ensures Bump([], 60.0, now) == [now]
    ensures Age(Bump([], 60.0, now), now) == 0.0 && TimeToExpiry(Bump([], 60.0, now), 60.0, now) == 60.0
  {
  }

  lemma TruncateBound(x: real)
    ensures (Truncate(x) + 1) as real > x
    ensures if x >= 0.0 then Truncate(x) as real <= x else x <= Truncate(x) as real < x + 1.0
  {
  }
}

/** The backends as mutable objects, and the latch between them (core/rate_limit_backend.py:115-155). */
module RateLimiter {
  import opened Common
  import opened WindowSpec

  class InMemoryBackend {
    var windows: map<string, seq<real>>

    constructor ()
      ensures windows == map[]
    {
      windows := map[];
    }

    function Entries(key: string): seq<real>
      reads this
    {
      if key in windows then windows[key] else []
    }

    method Increment(key: string, window: real, now: real) returns (count: int)
      modifies this
      ensures windows == old(windows)[key := Bump(old(Entries(key)), window, now)]
      ensures count == |Entries(key)|
    {
      var cutoff := now - window;
      if key !in windows {
        windows := windows[key := []];
      }
      windows := windows[key := Prune(windows[key], cutoff)];
      windows := windows[key := windows[key] + [now]];
      return |windows[key]|;
    }

    /** The age of the oldest entry: the docstring's "seconds until it expires" is another number. */
    method GetTtl(key: string, now: real) returns (ttl: real)
      ensures ttl == Age(Entries(key), now)
    {
      if key !in windows || windows[key] == [] {
        return 0.0;
      }
      var age := now - windows[key][0];
      return if age > 0.0 then age else 0.0;
    }

    method GetCount(key: string, window: real, now: real) returns (count: int)
      ensures count == CountIn(Entries(key), window, now)
    {
      if key !in windows {
        return 0;
      }
      return |Prune(windows[key], now - window)|;
    }
  }

  class RedisServer {
    var sets: map<string, ScoreSet>

    constructor () {
      sets := map[];
    }
  }

  function SetAt(sets: map<string, ScoreSet>, key: string): Option<ScoreSet> {
    if key in sets then Some(sets[key]) else None
  }

  class FallbackBackend {
    const primary: RedisServer
    const fallback: InMemoryBackend
    var primaryAvailable: bool

    constructor (primary: RedisServer, fallback: InMemoryBackend)
      ensures this.primary == primary && this.fallback == fallback && primaryAvailable
    {
      this.primary, this.fallback, primaryAvailable := primary, fallback, true;
    }

    function At(key: string): Pair
      reads this, primary, fallback
    {
      Pair(primaryAvailable, SetAt(primary.sets, key), fallback.Entries(key))
    }

    method Increment(key: string, window: real, now: real, reply: Reply) returns (count: int)
      modifies this, primary, fallback
      ensures (At(key), count) == WindowSpec.Increment(old(At(key)), window, now, reply)
      ensures forall k :: k != key ==> At(k) == old(At(k)).(primaryAvailable := primaryAvailable)
    {
      if primaryAvailable {
        if reply.TookEffect() {
          primary.sets := primary.sets[key := RedisBump(SetAt(primary.sets, key), window, now)];
        }
        if !reply.Raised() {
          return |primary.sets[key].scores|;
        }
        primaryAvailable := false;
      }
      count := fallback.Increment(key, window, now);
    }
  }

  class SlidingWindowCounter {
    const backend: FallbackBackend

    constructor (backend: FallbackBackend)
      ensures this.backend == backend
    {
      this.backend := backend;
    }

    method Check(key: string, requests: int, window: real, now: real, reply: Reply) returns (d: Decision)
      modifies backend, backend.primary, backend.fallback
      ensures var (p, count) := WindowSpec.Increment(old(backend.At(key)), window, now, reply);
              && backend.At(key) == p
              && d == Decide(count, requests, window)
              && (d.allowed <==> count <= requests)
              && d.remaining == (if count < requests then requests - count else 0)
              && d.retryAfter == (if count <= requests then 0.0 else window)
    {
      var count := backend.Increment(key, window, now, reply);
      var remaining := if requests - count > 0 then requests - count else 0;
      if count <= requests {
        return Decision(true, remaining, 0.0);
      }
      return Decision(false, remaining, window);
    }
  }
}

/** Any number of processes limit one key: each has its own latch and memory, and all share one
    Redis.  With one process this is the pair of core/rate_limit_backend.py. */
module RateLimitBound {
  import opened Common
  import opened WindowSpec

  datatype Process = Process(primaryAvailable: bool, memory: seq<real>)

  datatype State = State(now: real, primary: Option<ScoreSet>, processes: seq<Process>)

  datatype Limit = Limit(requests: int, window: real)

  datatype Event =
    | Check(i: nat, reply: Reply)
    | Peek(i: nat, reply: Reply)     // get_count: prunes, refreshes the expiry, may trip the latch
    | Advance(dt: real)

  predicate Enabled(s: State, e: Event) {
    match e
    case Check(i, _) => i < |s.processes|
    case Peek(i, _) => i < |s.processes|
    case Advance(dt) => dt >= 0.0
  }

  /** Redis is asked while its latch is closed, and counts the call unless the command is lost. */
  predicate Counts(s: State, i: nat, r: Reply)
    requires i < |s.processes|
  {
    s.processes[i].primaryAvailable && r.TookEffect()
  }

  predicate Answers(s: State, i: nat, r: Reply)
    requires i < |s.processes|
  {
    s.processes[i].primaryAvailable && !r.Raised()
  }

  function AskPrimary(l: Limit, s: State, i: nat, r: Reply): State
    requires i < |s.processes|
  {
    if Counts(s, i, r) then s.(primary := Some(RedisBump(s.primary, l.window, s.now))) else s
  }

  /** The memory of process `i` counts the call, and Redis is not asked again. */
  function CountInMemory(l: Limit, s: State, i: nat): State
    requires i < |s.processes|
  {
    s.(processes := s.processes[i := Process(false, Bump(s.processes[i].memory, l.window, s.now))])
  }

  /** The pipeline of `RedisBackend.get_count` on a key that exists. */
  function Peeked(l: Limit, z: Option<ScoreSet>, now: real): ScoreSet {
    ScoreSet(DropScores(Alive(z, now), now - l.window), now + (Truncate(l.window) + 1) as real)
  }

  function Apply(l: Limit, s: State, e: Event): State
    requires Enabled(s, e)
  {
    match e
    case Advance(dt) => s.(now := s.now + dt)
    case Check(i, r) =>
      var s1 := AskPrimary(l, s, i, r);
      if Answers(s, i, r) then s1 else CountInMemory(l, s1, i)
    case Peek(i, r) =>
      var p := s.processes[i];
      var s1 := if p.primaryAvailable && r.TookEffect() && s.primary.Some?
                then s.(primary := Some(Peeked(l, s.primary, s.now)))
                else s;
      if p.primaryAvailable && r.Raised() then s1.(processes := s1.processes[i := p.(primaryAvailable := false)]) else s1
  }

  /** One counted call: backend 0 is Redis, backend i + 1 the memory of process i.  A call that
      Redis counted without its reply arriving is not `answered` there. */
  datatype Entry = Entry(backend: nat, at: real, answered: bool, allowed: bool)

  /** What step `e` adds to the log of counted calls.  A call whose reply from Redis was lost is
      logged there and then again at the memory that answers it. */
  function Logged(l: Limit, s: State, e: Event): seq<Entry>
    requires Enabled(s, e)
  {
    if e.Check? then LoggedByRedis(l, s, e.i, e.reply) + LoggedByMemory(l, AskPrimary(l, s, e.i, e.reply), e.i, e.reply)
    else []
  }

  function LoggedByRedis(l: Limit, s: State, i: nat, r: Reply): seq<Entry>
    requires i < |s.processes|
  {
    if Counts(s, i, r) then
      [Entry(0, s.now, !r.Raised(),
             !r.Raised() && Decide(|RedisBump(s.primary, l.window, s.now).scores|, l.requests, l.window).allowed)]
    else []
  }

  function LoggedByMemory(l: Limit, s: State, i: nat, r: Reply): seq<Entry>
    requires i < |s.processes|
  {
    if Answers(s, i, r) then []
    else [Entry(i + 1, s.now, true, Decide(|Bump(s.processes[i].memory, l.window, s.now)|, l.requests, l.window).allowed)]
  }

  function View(s: State, i: nat): Pair
    requires i < |s.processes|
  {
    Pair(s.processes[i].primaryAvailable, s.primary, s.processes[i].memory)
  }

  /** A Check step is one call of the counter: it changes what its process sees as the latched pair
      does, and the last entry it logs carries the counter's decision. */
  lemma CheckIsIncrement(l: Limit, s: State, i: nat, r: Reply)
    requires i < |s.processes|
    ensures var s', log := Apply(l, s, Check(i, r)), Logged(l, s, Check(i, r));
            var (p, count) := Increment(View(s, i), l.window, s.now, r);
            && View(s', i) == p && s'.now == s.now
            && (forall j :: 0 <= j < |s.processes| && j != i ==> s'.processes[j] == s.processes[j])
            && (s.processes[i].primaryAvailable && !r.Lost? ==>
                  s'.primary.Some? && s'.primary.value.expireAt == s.now + (Truncate(l.window) + 1) as real)
            && (View(s', i).primaryAvailable <==> s.processes[i].primaryAvailable && r.Done?)
            && log != [] && log[|log| - 1].answered && log[|log| - 1].at == s.now
            && (log[|log| - 1].allowed <==> count <= l.requests)
  {
  }

  /** A Peek step asks Redis while the latch is closed: a command that ran has pruned the set, if there
      is one, and renewed its expiry; one that raised opens the latch for good; memory stays. */
  lemma PeekMoves(l: Limit, s: State, i: nat, r: Reply)
    requires i < |s.processes|
    ensures var s', asked := Apply(l, s, Peek(i, r)), s.processes[i].primaryAvailable;
            && s'.processes[i] == Process(asked && r.Done?, s.processes[i].memory) && s'.now == s.now
            && (forall j :: 0 <= j < |s.processes| && j != i ==> s'.processes[j] == s.processes[j])
            && s'.primary == (if asked && !r.Lost? && s.primary.Some?
                              then Some(ScoreSet(DropScores(Alive(s.primary, s.now), s.now - l.window),
                                                 s.now + (Truncate(l.window) + 1) as real))
                              else s.primary)
  {
  }

  datatype Run = Run(limit: Limit, events: seq<Event>, states: seq<State>)

  ghost predicate IsRun(r: Run) {
    && |r.states| == |r.events| + 1
    && r.states[0].primary.None? && r.states[0].now >= 0.0
    && (forall i :: 0 <= i < |r.states[0].processes| ==> r.states[0].processes[i] == Process(true, []))
    && forall k :: 0 <= k < |r.events| ==>
         Enabled(r.states[k], r.events[k]) && r.states[k + 1] == Apply(r.limit, r.states[k], r.events[k])
  }

  ghost function Log(r: Run, n: nat): seq<Entry>
    requires IsRun(r) && n <= |r.events|
  {
    if n == 0 then [] else Log(r, n - 1) + Logged(r.limit, r.states[n - 1], r.events[n - 1])
  }

  // ----- Counting in the full log --------------------------------------------------------

  /** Calls counted by backend `b` after `cutoff`, out of the whole log. */
  function Count(log: seq<Entry>, b: nat, cutoff: real): nat {
    if log == [] then 0
    else
      var e := log[|log| - 1];
      Count(log[..|log| - 1], b, cutoff) + if e.backend == b && e.at > cutoff then 1 else 0
  }

  lemma {:induction false} CountConcat(a: seq<Entry>, c: seq<Entry>, b: nat, cutoff: real)
    ensures Count(a + c, b, cutoff) == Count(a, b, cutoff) + Count(c, b, cutoff)
  {
    if c == [] {
      assert a + c == a;
    } else {
      assert (a + c)[..|a + c| - 1] == a + c[..|c| - 1];
      CountConcat(a, c[..|c| - 1], b, cutoff);
    }
  }

  lemma {:induction false} NothingAfter(log: seq<Entry>, b: nat, cutoff: real)
    requires forall k :: 0 <= k < |log| && log[k].backend == b ==> log[k].at <= cutoff
    ensures Count(log, b, cutoff) == 0
  {
    if log != [] { NothingAfter(log[..|log| - 1], b, cutoff); }
  }

  lemma {:induction false} CountAntitone(log: seq<Entry>, b: nat, c: real, d: real)
    requires c <= d
    ensures Count(log, b, d) <= Count(log, b, c)
  {
    if log != [] { CountAntitone(log[..|log| - 1], b, c, d); }
  }

  // ----- The backends count the full log -------------------------------------------------

  /** The list and the full log count the same calls of backend `b` after `c`. */
  ghost predicate SameCount(ts: seq<real>, log: seq<Entry>, b: nat, c: real) {
    |Prune(ts, c)| == Count(log, b, c)
  }

  /** They do so for every cutoff still to come. */
  ghost predicate CountsLog(ts: seq<real>, log: seq<Entry>, b: nat, from: real) {
    forall c: real :: c >= from ==> SameCount(ts, log, b, c)
  }

  ghost predicate PrimaryFaithful(window: real, z: Option<ScoreSet>, now: real, log: seq<Entry>) {
    && CountsLog(Alive(z, now), log, 0, now - window)
    && (z.Some? ==> Nonnegative(z.value.scores))
    && (forall e :: e in log && e.backend == 0 ==> z.Some? && e.at + (Truncate(window) + 1) as real <= z.value.expireAt)
  }

  ghost predicate Faithful(l: Limit, s: State, log: seq<Entry>) {
    && s.now >= 0.0
    && (forall e :: e in log ==> e.at <= s.now)
    && PrimaryFaithful(l.window, s.primary, s.now, log)
    && (forall i :: 0 <= i < |s.processes| ==> CountsLog(s.processes[i].memory, log, i + 1, s.now - l.window))
  }

  lemma CountOfOne(e: Entry, b: nat, c: real)
    ensures Count([e], b, c) == if e.backend == b && e.at > c then 1 else 0
  {
    assert [e][..0] == [];
  }

  lemma BumpSameCount(ts: seq<real>, log: seq<Entry>, b: nat, window: real, now: real, answered: bool, allowed: bool, c: real)
    requires SameCount(ts, log, b, c) && c >= now - window
    ensures SameCount(Bump(ts, window, now), log + [Entry(b, now, answered, allowed)], b, c)
  {
    PruneConcat(Prune(ts, now - window), [now], c);
    PruneTwice(ts, now - window, c);
    CountConcat(log, [Entry(b, now, answered, allowed)], b, c);
    CountOfOne(Entry(b, now, answered, allowed), b, c);
    assert [now][..0] == [];
  }

  lemma BumpCountsLog(ts: seq<real>, log: seq<Entry>, b: nat, window: real, now: real, answered: bool, allowed: bool)
    requires CountsLog(ts, log, b, now - window)
    ensures CountsLog(Bump(ts, window, now), log + [Entry(b, now, answered, allowed)], b, now - window)
    ensures |Bump(ts, window, now)| == Count(log, b, now - window) + 1
  {
    assert SameCount(ts, log, b, now - window);
    forall c: real | c >= now - window
      ensures SameCount(Bump(ts, window, now), log + [Entry(b, now, answered, allowed)], b, c)
    {
      BumpSameCount(ts, log, b, window, now, answered, allowed, c);
    }
  }

  lemma OtherBackendCountsLog(ts: seq<real>, log: seq<Entry>, b: nat, e: Entry, from: real)
    requires CountsLog(ts, log, b, from) && e.backend != b
    ensures CountsLog(ts, log + [e], b, from)
  {
    forall c: real | c >= from
      ensures SameCount(ts, log + [e], b, c)
    {
      assert SameCount(ts, log, b, c);
      CountConcat(log, [e], b, c);
      CountOfOne(e, b, c);
    }
  }

  lemma RedisBumpFaithful(window: real, z: Option<ScoreSet>, now: real, log: seq<Entry>, answered: bool, allowed: bool)
    requires PrimaryFaithful(window, z, now, log) && now >= 0.0 && forall e :: e in log ==> e.at <= now
    ensures RedisBump(z, window, now).scores == Bump(Alive(z, now), window, now)
    ensures PrimaryFaithful(window, Some(RedisBump(z, window, now)), now, log + [Entry(0, now, answered, allowed)])
  {
    var ts, e := Alive(z, now), Entry(0, now, answered, allowed);
    var z' := RedisBump(z, window, now);
    DropIsPrune(ts, now - window);
    BumpCountsLog(ts, log, 0, window, now, answered, allowed);
    TruncateBound(window);
    if now < z'.expireAt {
      assert Alive(Some(z'), now) == Bump(ts, window, now);
    } else {
      forall c: real | c >= now - window
        ensures SameCount([], log + [e], 0, c)
      {
        DeadOnArrival(window, now, log + [e], 0, c);
      }
    }
  }

  /** Redis counts one more call; its reply may be lost on the way. */
  lemma PrimaryCounts(l: Limit, s: State, log: seq<Entry>, answered: bool, allowed: bool)
    requires Faithful(l, s, log)
    ensures Faithful(l, s.(primary := Some(RedisBump(s.primary, l.window, s.now))), log + [Entry(0, s.now, answered, allowed)])
    ensures |RedisBump(s.primary, l.window, s.now).scores| == Count(log, 0, s.now - l.window) + 1
  {
    hide CountsLog, SameCount, Count, Prune, Bump;
    RedisBumpFaithful(l.window, s.primary, s.now, log, answered, allowed);
    BumpCountsLog(Alive(s.primary, s.now), log, 0, l.window, s.now, answered, allowed);
    forall i | 0 <= i < |s.processes|
      ensures CountsLog(s.processes[i].memory, log + [Entry(0, s.now, answered, allowed)], i + 1, s.now - l.window)
    {
      OtherBackendCountsLog(s.processes[i].memory, log, i + 1, Entry(0, s.now, answered, allowed), s.now - l.window);
    }
  }

  /** A process counts one more call in its own memory. */
  lemma MemoryCounts(l: Limit, s: State, log: seq<Entry>, i: nat, answered: bool, allowed: bool)
    requires Faithful(l, s, log) && i < |s.processes|
    ensures Faithful(l, CountInMemory(l, s, i), log + [Entry(i + 1, s.now, answered, allowed)])
    ensures |Bump(s.processes[i].memory, l.window, s.now)| == Count(log, i + 1, s.now - l.window) + 1
  {
    hide CountsLog, SameCount, Count, Prune, Bump, RedisBump;
    var e := Entry(i + 1, s.now, answered, allowed);
    BumpCountsLog(s.processes[i].memory, log, i + 1, l.window, s.now, answered, allowed);
    OtherBackendCountsLog(Alive(s.primary, s.now), log, 0, e, s.now - l.window);
    forall j | 0 <= j < |s.processes| && j != i
      ensures CountsLog(s.processes[j].memory, log + [e], j + 1, s.now - l.window)
    {
      OtherBackendCountsLog(s.processes[j].memory, log, j + 1, e, s.now - l.window);
    }
  }

  /** Time only narrows what must be remembered, and an expired set has nothing left to forget. */
  lemma AdvanceKeepsFaith(l: Limit, s: State, log: seq<Entry>, dt: real)
    requires Faithful(l, s, log) && dt >= 0.0
    ensures Faithful(l, s.(now := s.now + dt), log)
  {
    var now := s.now + dt;
    TruncateBound(l.window);
    forall c: real | c >= now - l.window
      ensures SameCount(Alive(s.primary, now), log, 0, c)
    {
      assert SameCount(Alive(s.primary, s.now), log, 0, c);
      if s.primary.Some? && s.now < s.primary.value.expireAt <= now {
        NothingAfter(log, 0, c);
      }
    }
  }

  /** A set whose expiry is not in the future belongs to a negative window, which holds nothing. */
  lemma DeadOnArrival(window: real, now: real, log: seq<Entry>, b: nat, c: real)
    requires now + (Truncate(window) + 1) as real <= now && c >= now - window
    requires forall e :: e in log ==> e.at <= now
    ensures SameCount([], log, b, c)
  {
    TruncateBound(window);
    NothingAfter(log, b, c);
  }

  lemma PrunedSameCount(ts: seq<real>, log: seq<Entry>, b: nat, d: real, c: real)
    requires SameCount(ts, log, b, c) && d <= c
    ensures SameCount(Prune(ts, d), log, b, c)
  {
    PruneTwice(ts, d, c);
  }

  lemma PeekCountsLog(l: Limit, z: ScoreSet, now: real, log: seq<Entry>, c: real)
    requires SameCount(Alive(Some(z), now), log, 0, c) && Nonnegative(z.scores) && c >= now - l.window
    requires forall e :: e in log ==> e.at <= now
    ensures SameCount(Alive(Some(Peeked(l, Some(z), now)), now), log, 0, c)
  {
    hide SameCount, Prune, Count;
    var ts, z' := Alive(Some(z), now), Peeked(l, Some(z), now);
    DropIsPrune(ts, now - l.window);
    if now < z'.expireAt {
      PrunedSameCount(ts, log, 0, now - l.window, c);
    } else {
      DeadOnArrival(l.window, now, log, 0, c);
    }
  }

  lemma PeekFaithful(l: Limit, z: ScoreSet, now: real, log: seq<Entry>)
    requires PrimaryFaithful(l.window, Some(z), now, log) && forall e :: e in log ==> e.at <= now
    ensures PrimaryFaithful(l.window, Some(Peeked(l, Some(z), now)), now, log)
  {
    DropIsPrune(Alive(Some(z), now), now - l.window);
    forall c: real | c >= now - l.window
      ensures SameCount(Alive(Some(Peeked(l, Some(z), now)), now), log, 0, c)
    {
      assert SameCount(Alive(Some(z), now), log, 0, c);
      PeekCountsLog(l, z, now, log, c);
    }
  }

  lemma PeekKeepsFaith(l: Limit, s: State, log: seq<Entry>)
    requires Faithful(l, s, log) && s.primary.Some?
    ensures Faithful(l, s.(primary := Some(Peeked(l, s.primary, s.now))), log)
  {
    PeekFaithful(l, s.primary.value, s.now, log);
  }

  lemma AskKeepsFaith(l: Limit, s: State, log: seq<Entry>, i: nat, r: Reply)
    requires Faithful(l, s, log) && i < |s.processes| && Disciplined(l, log)
    ensures Faithful(l, AskPrimary(l, s, i, r), log + LoggedByRedis(l, s, i, r))
    ensures Disciplined(l, log + LoggedByRedis(l, s, i, r))
  {
    hide Faithful, Disciplined;
    if Counts(s, i, r) {
      var e := LoggedByRedis(l, s, i, r)[0];
      PrimaryCounts(l, s, log, e.answered, e.allowed);
      DisciplinedSnoc(l, log, e);
    } else {
      assert log + [] == log;
    }
  }

  lemma MemoryKeepsFaith(l: Limit, s: State, log: seq<Entry>, i: nat, r: Reply)
    requires Faithful(l, s, log) && i < |s.processes| && Disciplined(l, log)
    ensures Faithful(l, if Answers(s, i, r) then s else CountInMemory(l, s, i), log + LoggedByMemory(l, s, i, r))
    ensures Disciplined(l, log + LoggedByMemory(l, s, i, r))
  {
    hide Faithful, Disciplined;
    if Answers(s, i, r) {
      assert log + [] == log;
    } else {
      var e := LoggedByMemory(l, s, i, r)[0];
      MemoryCounts(l, s, log, i, true, e.allowed);
      DisciplinedSnoc(l, log, e);
    }
  }

  /** What one check does: Redis counts it unless the command is lost, and memory counts it unless
      Redis answered. */
  lemma CheckCounts(l: Limit, s: State, log: seq<Entry>, i: nat, r: Reply)
    requires Faithful(l, s, log) && i < |s.processes| && Disciplined(l, log)
    ensures Faithful(l, Apply(l, s, Check(i, r)), log + Logged(l, s, Check(i, r)))
    ensures Disciplined(l, log + Logged(l, s, Check(i, r)))
  {
    hide Faithful, Disciplined;
    var s1, first := AskPrimary(l, s, i, r), LoggedByRedis(l, s, i, r);
    AskKeepsFaith(l, s, log, i, r);
    MemoryKeepsFaith(l, s1, log + first, i, r);
    assert log + Logged(l, s, Check(i, r)) == (log + first) + LoggedByMemory(l, s1, i, r);
  }

  lemma StepKeepsFaith(l: Limit, s: State, log: seq<Entry>, e: Event)
    requires Faithful(l, s, log) && Enabled(s, e) && Disciplined(l, log)
    ensures Faithful(l, Apply(l, s, e), log + Logged(l, s, e))
    ensures Disciplined(l, log + Logged(l, s, e))
  {
    assert log + [] == log;
    match e
    case Advance(dt) => AdvanceKeepsFaith(l, s, log, dt);
    case Peek(i, r) => if s.primary.Some? { PeekKeepsFaith(l, s, log); }
    case Check(i, r) => CheckCounts(l, s, log, i, r);
  }

  /** A call is allowed exactly if it was answered and, by the whole log, is among the first
      `requests` of its window at its backend. */
  ghost predicate Disciplined(l: Limit, log: seq<Entry>) {
    forall k :: 0 <= k < |log| ==>
      (log[k].allowed <==>
         log[k].answered && Count(log[..k], log[k].backend, log[k].at - l.window) + 1 <= l.requests)
  }

  lemma DisciplinedSnoc(l: Limit, log: seq<Entry>, e: Entry)
    requires Disciplined(l, log)
    requires e.allowed <==> e.answered && Count(log, e.backend, e.at - l.window) + 1 <= l.requests
    ensures Disciplined(l, log + [e])
  {
    var log' := log + [e];
    forall k | 0 <= k < |log'|
      ensures log'[k].allowed <==>
                log'[k].answered && Count(log'[..k], log'[k].backend, log'[k].at - l.window) + 1 <= l.requests
    {
      assert log'[..k] == if k < |log| then log[..k] else log;
    }
  }

  ghost predicate InOrder(log: seq<Entry>) {
    forall i, j :: 0 <= i < j < |log| ==> log[i].at <= log[j].at
  }

  lemma StepLogsInOrder(l: Limit, s: State, log: seq<Entry>, e: Event)
    requires Enabled(s, e) && InOrder(log) && forall x :: x in log ==> x.at <= s.now
    ensures InOrder(log + Logged(l, s, e))
    ensures forall x :: x in Logged(l, s, e) ==> x.backend <= |s.processes|
    ensures |Apply(l, s, e).processes| == |s.processes|
  {
  }

  /** The pruned lists and the expiring Redis set decide every call as the full history would. */
  lemma {:induction false} BackendsCountFullHistory(r: Run, n: nat)
    requires IsRun(r) && n <= |r.events|
    ensures Faithful(r.limit, r.states[n], Log(r, n))
    ensures Disciplined(r.limit, Log(r, n)) && InOrder(Log(r, n))
    ensures |r.states[n].processes| == |r.states[0].processes|
    ensures forall e :: e in Log(r, n) ==> e.backend <= |r.states[0].processes|
  {
    if n > 0 {
      BackendsCountFullHistory(r, n - 1);
      StepKeepsFaith(r.limit, r.states[n - 1], Log(r, n - 1), r.events[n - 1]);
      StepLogsInOrder(r.limit, r.states[n - 1], Log(r, n - 1), r.events[n - 1]);
    }
  }

  // ----- The bound -----------------------------------------------------------------------

  lemma FinalLogIsDisciplined(r: Run)
    requires IsRun(r)
    ensures Disciplined(r.limit, Log(r, |r.events|)) && InOrder(Log(r, |r.events|))
  {
    BackendsCountFullHistory(r, |r.events|);
  }

  /** Calls allowed by backends below `b` at times in `(t - window, t]`. */
  function AllowedBelow(log: seq<Entry>, b: nat, from: real, t: real): nat {
    if log == [] then 0
    else
      var e := log[|log| - 1];
      AllowedBelow(log[..|log| - 1], b, from, t) + if e.allowed && e.backend < b && from < e.at <= t then 1 else 0
  }

  function AllowedBy(log: seq<Entry>, b: nat, from: real, t: real): nat {
    if log == [] then 0
    else
      var e := log[|log| - 1];
      AllowedBy(log[..|log| - 1], b, from, t) + if e.allowed && e.backend == b && from < e.at <= t then 1 else 0
  }

  lemma {:induction false} SplitByBackend(log: seq<Entry>, b: nat, from: real, t: real)
    ensures AllowedBelow(log, 0, from, t) == 0
    ensures AllowedBelow(log, b + 1, from, t) == AllowedBelow(log, b, from, t) + AllowedBy(log, b, from, t)
  {
    if log != [] { SplitByBackend(log[..|log| - 1], b, from, t); }
  }

  lemma {:induction false} AllowedAreCounted(log: seq<Entry>, b: nat, from: real, t: real)
    ensures AllowedBy(log, b, from, t) <= Count(log, b, from)
  {
    if log != [] { AllowedAreCounted(log[..|log| - 1], b, from, t); }
  }

  /** One backend allows at most `requests` calls in any window. */
  lemma {:induction false} OneBackendBounded(l: Limit, log: seq<Entry>, b: nat, t: real)
    requires Disciplined(l, log) && InOrder(log)
    ensures AllowedBy(log, b, t - l.window, t) <= Max(0, l.requests)
  {
    if log != [] {
      var front, e := log[..|log| - 1], log[|log| - 1];
      assert forall k :: 0 <= k < |front| ==> front[..k] == log[..k];
      OneBackendBounded(l, front, b, t);
      if e.allowed && e.backend == b && t - l.window < e.at <= t {
        AllowedAreCounted(front, b, t - l.window, t);
        CountAntitone(front, b, e.at - l.window, t - l.window);
      }
    }
  }

  /** Each backend on its own, in-memory or Redis, allows at most `requests` calls in any window
      `(t - window, t]`, although its list forgets older calls. */
  lemma EachBackendBounded(r: Run, b: nat, t: real)
    requires IsRun(r)
    ensures AllowedBy(Log(r, |r.events|), b, t - r.limit.window, t) <= Max(0, r.limit.requests)
  {
    hide Disciplined, InOrder, IsRun, Log;
    FinalLogIsDisciplined(r);
    OneBackendBounded(r.limit, Log(r, |r.events|), b, t);
  }

  lemma {:induction false} BackendsBounded(l: Limit, log: seq<Entry>, b: nat, t: real)
    requires Disciplined(l, log) && InOrder(log)
    ensures AllowedBelow(log, b, t - l.window, t) <= b * Max(0, l.requests)
  {
    SplitByBackend(log, 0, t - l.window, t);
    if b > 0 {
      BackendsBounded(l, log, b - 1, t);
      SplitByBackend(log, b - 1, t - l.window, t);
      OneBackendBounded(l, log, b - 1, t);
      assert b * Max(0, l.requests) == (b - 1) * Max(0, l.requests) + Max(0, l.requests);
    }
  }

  /** All calls allowed at times in `(from, t]`. */
  function AllowedIn(log: seq<Entry>, from: real, t: real): nat {
    if log == [] then 0
    else
      var e := log[|log| - 1];
      AllowedIn(log[..|log| - 1], from, t) + if e.allowed && from < e.at <= t then 1 else 0
  }

  lemma {:induction false} AllAreBelow(log: seq<Entry>, b: nat, from: real, t: real)
    requires forall e :: e in log ==> e.backend < b
    ensures AllowedIn(log, from, t) == AllowedBelow(log, b, from, t)
  {
    if log != [] { AllAreBelow(log[..|log| - 1], b, from, t); }
  }

  /** `n` processes that share one Redis allow at most `(n + 1) * requests` calls in any window,
      wherever each of them switches to its own memory. */
  lemma FallbackBound(r: Run, t: real)
    requires IsRun(r)
    ensures AllowedIn(Log(r, |r.events|), t - r.limit.window, t)
            <= (|r.states[0].processes| + 1) * Max(0, r.limit.requests)
  {
    hide Disciplined, InOrder, Log, Faithful;
    BackendsCountFullHistory(r, |r.events|);
    AllAreBelow(Log(r, |r.events|), |r.states[0].processes| + 1, t - r.limit.window, t);
    BackendsBounded(r.limit, Log(r, |r.events|), |r.states[0].processes| + 1, t);
  }

  /** The latched pair of a single process: at most twice the limit. */
  lemma PairBound(r: Run, t: real)
    requires IsRun(r) && |r.states[0].processes| == 1
    ensures AllowedIn(Log(r, |r.events|), t - r.limit.window, t) <= 2 * Max(0, r.limit.requests)
  {
    hide IsRun, Log;
    FallbackBound(r, t);
  }

  // ----- Counting without a call ---------------------------------------------------------

  /** `get_count` answers the number of calls the list of process `i` has counted in the window
      ending now, and `get_count` on Redis answers those Redis has. */
  ghost predicate CountsAnswered(l: Limit, s: State, log: seq<Entry>, i: nat)
    requires i < |s.processes|
  {
    && CountIn(s.processes[i].memory, l.window, s.now) == Count(log, i + 1, s.now - l.window)
    && |Peeked(l, s.primary, s.now).scores| == Count(log, 0, s.now - l.window)
  }

  lemma FaithfulCountsAnswered(l: Limit, s: State, log: seq<Entry>, i: nat)
    requires Faithful(l, s, log) && i < |s.processes|
    ensures CountsAnswered(l, s, log, i)
  {
    hide Count, Prune, DropScores;
    assert SameCount(s.processes[i].memory, log, i + 1, s.now - l.window);
    assert SameCount(Alive(s.primary, s.now), log, 0, s.now - l.window);
    DropIsPrune(Alive(s.primary, s.now), s.now - l.window);
  }

  /** At every point of every run `get_count` answers, from memory and from Redis, as the whole
      history of calls would, although both have forgotten the older ones. */
  lemma GetCountIsFullHistory(r: Run, n: nat, i: nat)
    requires IsRun(r) && n <= |r.events| && i < |r.states[n].processes|
    ensures CountsAnswered(r.limit, r.states[n], Log(r, n), i)
  {
    hide Log, CountsAnswered, Faithful, Disciplined, InOrder;
    BackendsCountFullHistory(r, n);
    FaithfulCountsAnswered(r.limit, r.states[n], Log(r, n), i);
  }

  // ----- Retry-After ---------------------------------------------------------------------

  /** What the counter answers to the check at event `k`. */
  ghost function DecisionAt(r: Run, k: nat): Decision
    requires IsRun(r) && k < |r.events| && r.events[k].Check?
  {
    var (_, count) := Increment(View(r.states[k], r.events[k].i), r.limit.window, r.states[k].now, r.events[k].reply);
    Decide(count, r.limit.requests, r.limit.window)
  }

  /** If every call counted so far has left the window, the next one is the first, wherever it is
      counted. */
  lemma QuietPairCountsOne(l: Limit, s: State, log: seq<Entry>, i: nat, r: Reply)
    requires Faithful(l, s, log) && i < |s.processes|
    requires forall e :: e in log ==> e.at <= s.now - l.window
    ensures Increment(View(s, i), l.window, s.now, r).1 == 1
  {
    NothingAfter(log, 0, s.now - l.window);
    NothingAfter(log, i + 1, s.now - l.window);
    PrimaryCounts(l, s, log, true, true);
    MemoryCounts(l, s, log, i, true, true);
  }

  lemma {:induction false} QuietLog(r: Run, d: nat, k: nat)
    requires IsRun(r) && d < k <= |r.events| && forall m :: d < m < k ==> !r.events[m].Check?
    ensures Log(r, k) == Log(r, d + 1)
  {
    if k > d + 1 {
      QuietLog(r, d, k - 1);
      assert Logged(r.limit, r.states[k - 1], r.events[k - 1]) == [];
    }
  }

  /** After a denial, if the key stays silent for the `retry_after` that was given, the next call
      is allowed, as long as the limit allows any call at all. */
  lemma RetryAfterSuffices(r: Run, d: nat, k: nat)
    requires IsRun(r) && d < k < |r.events| && r.events[d].Check? && r.events[k].Check?
    requires !DecisionAt(r, d).allowed && forall m :: d < m < k ==> !r.events[m].Check?
    requires r.states[k].now >= r.states[d].now + DecisionAt(r, d).retryAfter
    ensures DecisionAt(r, k).allowed <==> r.limit.requests >= 1
  {
    QuietLog(r, d, k);
    assert r.states[d + 1].now == r.states[d].now;
    BackendsCountFullHistory(r, d + 1);
    BackendsCountFullHistory(r, k);
    hide PrimaryFaithful, CountsLog, Disciplined, InOrder, Log, RedisBump, Bump;
    QuietPairCountsOne(r.limit, r.states[k], Log(r, k), r.events[k].i, r.events[k].reply);
  }
}
