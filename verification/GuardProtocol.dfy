/** Any number of clients inside `DistributedLock.guard` on one key
    (core/distributed_lock.py:541-709).

    Every stretch of code between two awaits is one atomic step, and the steps of different
    clients interleave freely.  A command to Redis may succeed, be lost, or be applied with its
    reply lost.  A crash needs no step: a crashed client is one that never moves again. */
module GuardProtocol {
  import opened Common
  import opened LeaseKey

  /** The arguments of one `guard` call.  `ttl` and `cacheTtl` are seconds, the rest milliseconds. */
  datatype Config = Config(
    ttl: int,
    useCache: bool,        // result_cache is not None
    cacheTtl: int,
    waitMs: int,
    pollMs: int,
    returnIfContended: bool)

  /** A cached result: the JSON text of the value, or None for JSON `null`. */
  datatype Cell = Cell(value: Option<string>, expiry: int)

  datatype Result = Unset | Given(value: Option<string>)

  datatype Outcome =
    | CachedResult(value: string)   // is_cached
    | Worked                        // the handler ran to its end, raising or not
    | Declined                      // on_contended="return"
    | Refused                       // LockContended
    | Failed                        // DistributedLockError out of acquire()

  datatype Phase =
    | FirstRead
    | Acquiring
    | Rechecking
    | Sleeping(wake: int)
    | PostRead
    | DroppingLock(hit: string)
    | Running
    | Writing(payload: Option<string>)
    | Releasing
    | Finished(outcome: Outcome)

  /** `lease` is the time up to which the client may count on its lock: set by each successful
      SET NX or extend, and lowered by an extend whose reply was lost. */
  datatype Client = Client(config: Config, phase: Phase, token: Token, deadline: int, result: Result, lease: int)

  datatype State = State(
    now: int,
    lock: Option<Lease>,
    cache: Option<Cell>,
    clients: seq<Client>,
    nextToken: Token)

  datatype Event =
    | Enter(config: Config)
    | ReadFirst(i: nat, ok: bool)
    | Acquire(i: nat, reply: Reply)
    | Recheck(i: nat, ok: bool)
    | Wake(i: nat)
    | ReadAgain(i: nat, ok: bool)
    | DropLock(i: nat, reply: Reply)
    | SetResult(i: nat, value: Option<string>)
    | Extend(i: nat, ttl: int, reply: Reply)
    | Return(i: nat)
    | Raise(i: nat)
    | Write(i: nat, reply: Reply)
    | Release(i: nat, reply: Reply)
    | Tick(ms: nat)

  const INIT := State(0, None, None, [], 0)

  // ----- What the store holds ------------------------------------------------------------

  /** What a working read of the result cache returns: JSON null reads as a miss. */
  function CacheValue(s: State): Option<string> {
    if s.cache.Some? && s.now < s.cache.value.expiry then s.cache.value.value else None
  }

  /** `result_cache.get` as client `c` sees it: no cache, or a failed read, is a miss. */
  function ReadCache(s: State, c: Client, ok: bool): Option<string> {
    if c.config.useCache && ok then CacheValue(s) else None
  }

  predicate Owns(s: State, c: Client) { OwnedBy(s.lock, s.now, c.token) }

  // ----- Steps ---------------------------------------------------------------------------

  predicate At(s: State, i: nat, p: Phase -> bool) {
    i < |s.clients| && p(s.clients[i].phase)
  }

  predicate Enabled(s: State, e: Event) {
    match e
    case Enter(_) => true
    case ReadFirst(i, _) => At(s, i, (p: Phase) => p.FirstRead?)
    case Acquire(i, r) =>
      // A non-positive TTL raises before anything is sent.
      At(s, i, (p: Phase) => p.Acquiring?) && (r.TookEffect() ==> s.clients[i].config.ttl > 0)
    case Recheck(i, _) => At(s, i, (p: Phase) => p.Rechecking?)
    case Wake(i) => At(s, i, (p: Phase) => p.Sleeping?) && s.clients[i].phase.wake <= s.now
    case ReadAgain(i, _) => At(s, i, (p: Phase) => p.PostRead?)
    case DropLock(i, _) => At(s, i, (p: Phase) => p.DroppingLock?)
    case SetResult(i, _) => At(s, i, (p: Phase) => p.Running?)
    case Extend(i, ttl, _) => At(s, i, (p: Phase) => p.Running?) && ttl > 0
    case Return(i) => At(s, i, (p: Phase) => p.Running?)
    case Raise(i) => At(s, i, (p: Phase) => p.Running?)
    case Write(i, r) =>
      // Redis rejects a non-positive EX.
      At(s, i, (p: Phase) => p.Writing?) && (r.TookEffect() ==> s.clients[i].config.cacheTtl > 0)
    case Release(i, _) => At(s, i, (p: Phase) => p.Releasing?)
    case Tick(_) => true
  }

  function Move(s: State, i: nat, c: Client): State
    requires i < |s.clients|
  {
    s.(clients := s.clients[i := c])
  }

  /** The contended branch after its cache read (lines 618-639). */
  function AfterContended(s: State, c: Client, cached: Option<string>): Client {
    if cached.Some? then c.(phase := Finished(CachedResult(cached.value)))
    else if s.now >= c.deadline then
      c.(phase := Finished(if c.config.returnIfContended then Declined else Refused))
    else c.(phase := Sleeping(s.now + c.config.pollMs))
  }

  function ApplyReadFirst(s: State, i: nat, ok: bool): State
    requires i < |s.clients|
  {
    var c := s.clients[i];
    var cached := ReadCache(s, c, ok);
    Move(s, i,
         if cached.Some? then c.(phase := Finished(CachedResult(cached.value)))
         else c.(phase := Acquiring, deadline := s.now + Max(c.config.waitMs, 0)))
  }

  function ApplyAcquire(s: State, i: nat, r: Reply): State
    requires i < |s.clients|
  {
    var c := s.clients[i];
    var t := s.nextToken;
    var won := !Live(s.lock, s.now);
    var s1 := if r.TookEffect()
              then s.(lock := SetNx(s.lock, s.now, t, c.config.ttl), nextToken := t + 1)
              else s.(nextToken := t + 1);
    Move(s1, i,
         if r.Raised() then c.(phase := Finished(Failed))
         else if won then c.(phase := PostRead, token := t, lease := s.now + 1000 * c.config.ttl)
         else if c.config.useCache then c.(phase := Rechecking)
         else AfterContended(s, c, None))
  }

  /** The re-read after the lock was won: a hit gives the lock back, a miss starts the handler. */
  function ApplyReadAgain(s: State, i: nat, ok: bool): State
    requires i < |s.clients|
  {
    var c := s.clients[i];
    var cached := ReadCache(s, c, ok);
    Move(s, i, c.(phase := if cached.Some? then DroppingLock(cached.value) else Running))
  }

  function Unlock(s: State, token: Token, r: Reply): State {
    if r.TookEffect() then s.(lock := CompareAndDelete(s.lock, s.now, token)) else s
  }

  function ApplyExtend(s: State, i: nat, ttl: int, r: Reply): State
    requires i < |s.clients|
  {
    var c := s.clients[i];
    var until := s.now + 1000 * ttl;
    var s1 := if r.TookEffect() then s.(lock := CompareAndExtend(s.lock, s.now, c.token, ttl)) else s;
    Move(s1, i,
         if r.Raised() then c.(lease := Min(c.lease, until))
         else if Owns(s, c) then c.(lease := until)
         else c)
  }

  function ApplyReturn(s: State, i: nat): State
    requires i < |s.clients|
  {
    var c := s.clients[i];
    Move(s, i, c.(phase := if c.result.Given? && c.config.useCache then Writing(c.result.value) else Releasing))
  }

  function ApplyWrite(s: State, i: nat, r: Reply): State
    requires i < |s.clients| && s.clients[i].phase.Writing?
  {
    var c := s.clients[i];
    var s1 := if r.TookEffect()
              then s.(cache := Some(Cell(c.phase.payload, s.now + 1000 * c.config.cacheTtl)))
              else s;
    Move(s1, i, c.(phase := Releasing))
  }

  function Apply(s: State, e: Event): State
    requires Enabled(s, e)
  {
    match e
    case Enter(cfg) => s.(clients := s.clients + [Client(cfg, FirstRead, 0, 0, Unset, s.now)])
    case ReadFirst(i, ok) => ApplyReadFirst(s, i, ok)
    case Acquire(i, r) => ApplyAcquire(s, i, r)
    case Recheck(i, ok) =>
      var c := s.clients[i];
      Move(s, i, AfterContended(s, c, ReadCache(s, c, ok)))
    case Wake(i) => Move(s, i, s.clients[i].(phase := Acquiring))
    case ReadAgain(i, ok) => ApplyReadAgain(s, i, ok)
    case DropLock(i, r) =>
      var c := s.clients[i];
      Move(Unlock(s, c.token, r), i, c.(phase := Finished(CachedResult(c.phase.hit))))
    case SetResult(i, v) => Move(s, i, s.clients[i].(result := Given(v)))
    case Extend(i, ttl, r) => ApplyExtend(s, i, ttl, r)
    case Return(i) => ApplyReturn(s, i)
    case Raise(i) => Move(s, i, s.clients[i].(phase := Releasing))
    case Write(i, r) => ApplyWrite(s, i, r)
    case Release(i, r) =>
      var c := s.clients[i];
      Move(Unlock(s, c.token, r), i, c.(phase := Finished(Worked)))
    case Tick(ms) => s.(now := s.now + ms)
  }

  // ----- Runs ----------------------------------------------------------------------------

  datatype Run = Run(events: seq<Event>, states: seq<State>)

  ghost predicate IsRun(r: Run) {
    && |r.states| == |r.events| + 1
    && r.states[0] == INIT
    && forall k :: 0 <= k < |r.events| ==>
         Enabled(r.states[k], r.events[k]) && r.states[k + 1] == Apply(r.states[k], r.events[k])
  }

  ghost function Last(r: Run): State
    requires IsRun(r)
  {
    r.states[|r.events|]
  }
}
