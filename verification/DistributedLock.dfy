/** core/distributed_lock.py:252-512 as functions of the lock object's fields and of the lock keys
    in Redis, and what each operation means as a step of the guard protocol. */
module LockSpec {
  import opened Common
  import opened LeaseKey
  import opened HalfOpen
  import CacheSpec
  import P = GuardProtocol

  datatype Settings = Settings(namespace: string, defaultTtl: int, cooldown: int, hasUrl: bool)

  datatype LockState = LockState(local: Local, entries: map<string, Lease>)

  datatype Acquired = Won(token: Token) | Contended | LockError | BadTtl

  datatype Answer = Yes | No | Unavailable | BadArgument

  function FullKey(cfg: Settings, key: string): string { "lock:" + cfg.namespace + ":" + key }

  function At(entries: map<string, Lease>, k: string): Option<Lease> {
    if k in entries then Some(entries[k]) else None
  }

  function Put(entries: map<string, Lease>, k: string, v: Option<Lease>): map<string, Lease> {
    if v.Some? then entries[k := v.value] else entries - {k}
  }

  /** `_ensure_client` and `_ensure_healthy`: false stands for DistributedLockError. */
  function Ready(s: LockState, now: int, cfg: Settings, net: CacheSpec.Net): (LockState, bool) {
    var l := Connect(s.local, cfg.hasUrl, net.connects);
    if !l.client then (s.(local := l), false)
    else
      var (latch, open) := Gate(l.latch, l.locked, now, cfg.cooldown, net.pong);
      (s.(local := l.(latch := latch)), open)
  }

  /** One command on the lock key: `after` is what it makes of the key when it runs. */
  function Command(s: LockState, now: int, k: string, r: Reply, after: Option<Lease>): LockState {
    var s1 := if r.TookEffect() then s.(entries := Put(s.entries, k, after)) else s;
    if r.Raised() then s1.(local := s1.local.(latch := Trip(s1.local.latch, now))) else s1
  }

  function Acquire(s: LockState, now: int, cfg: Settings, net: CacheSpec.Net, key: string, token: Token, ttl: Option<int>)
    : (LockState, Acquired)
  {
    var (s1, ready) := Ready(s, now, cfg, net);
    var seconds := if ttl.Some? then ttl.value else cfg.defaultTtl;
    var k := FullKey(cfg, key);
    if !ready then (s1, LockError)
    else if seconds <= 0 then (s1, BadTtl)
    else
      (Command(s1, now, k, net.reply, SetNx(At(s1.entries, k), now, token, seconds)),
       if net.reply.Raised() then LockError else if Live(At(s1.entries, k), now) then Contended else Won(token))
  }

  /** No token stands for the empty string, which `release` rejects. */
  function Release(s: LockState, now: int, cfg: Settings, net: CacheSpec.Net, key: string, token: Option<Token>)
    : (LockState, Answer)
  {
    var k := FullKey(cfg, key);
    if token.None? then (s, BadArgument)
    else
      var (s1, ready) := Ready(s, now, cfg, net);
      if !ready then (s1, Unavailable)
      else
        (Command(s1, now, k, net.reply, CompareAndDelete(At(s1.entries, k), now, token.value)),
         if net.reply.Raised() then Unavailable else if OwnedBy(At(s1.entries, k), now, token.value) then Yes else No)
  }

  function Extend(s: LockState, now: int, cfg: Settings, net: CacheSpec.Net, key: string, token: Token, ttl: int)
    : (LockState, Answer)
  {
    var k := FullKey(cfg, key);
    if ttl <= 0 then (s, BadArgument)
    else
      var (s1, ready) := Ready(s, now, cfg, net);
      if !ready then (s1, Unavailable)
      else
        (Command(s1, now, k, net.reply, CompareAndExtend(At(s1.entries, k), now, token, ttl)),
         if net.reply.Raised() then Unavailable else if OwnedBy(At(s1.entries, k), now, token) then Yes else No)
  }

  /** The lock fails closed: once an acquire has raised, until the cooldown is over, and while another
      coroutine probes, every operation refuses, and none of them reaches Redis. */
  lemma FailsClosed(s: LockState, now: int, cfg: Settings, net: CacheSpec.Net, key: string, token: Token, ttl: Option<int>,
                    later: int, net': CacheSpec.Net, key': string, token': Token, ttl': int)
    requires Acquire(s, now, cfg, net, key, token, ttl).1.LockError?
    requires Acquire(s, now, cfg, net, key, token, ttl).0.local.client && ttl' > 0
    ensures var s' := Acquire(s, now, cfg, net, key, token, ttl).0;
            var refuses := s'.local.locked || (s'.local.latch.since.Some? && later < s'.local.latch.since.value + cfg.cooldown);
            && !s'.local.latch.healthy && (s'.local.latch.since.Some? || s'.local.locked)
            && (refuses ==>
                  && Acquire(s', later, cfg, net', key', token', Some(ttl')) == (s', LockError)
                  && Release(s', later, cfg, net', key', Some(token')) == (s', Unavailable)
                  && Extend(s', later, cfg, net', key', token', ttl') == (s', Unavailable))
  {
  }

  // ----- What the operations answer ------------------------------------------------------

  /** An operation may go on exactly when there is a client, or one can be built, and the latch is
      closed, or a probe is due, nobody else is probing, and it is answered. */
  lemma ReadyExactly(s: LockState, now: int, cfg: Settings, net: CacheSpec.Net)
    ensures var (s', ready), l := Ready(s, now, cfg, net), s.local;
            && s'.entries == s.entries
            && (ready <==>
                  && (l.client || (cfg.hasUrl && net.connects))
                  && (|| (l.latch.healthy && l.latch == s'.local.latch)
                      || (!l.latch.healthy && (l.latch.since.None? || now - l.latch.since.value >= cfg.cooldown)
                          && !l.locked && net.pong && s'.local.latch == Latch(true, None))))
            && (!l.client && cfg.hasUrl && !net.connects ==> !s'.local.available && !s'.local.latch.healthy)
  {
  }

  /** The entry of a key is there and has not run out. */
  predicate Taken(s: LockState, now: int, k: string) { k in s.entries && now < s.entries[k].expiry }

  predicate TakenBy(s: LockState, now: int, k: string, token: Token) {
    Taken(s, now, k) && s.entries[k].token == token
  }

  /** A latch that trips now, unless it still carries the time of an earlier failure. */
  function TrippedFrom(s: LockState, now: int): Latch {
    Latch(false, if s.local.latch.healthy && s.local.latch.since.Some? then s.local.latch.since else Some(now))
  }

  /** What `acquire` answers: an object that is not ready, and a command that raised, give an error;
      a TTL that is not positive is rejected; a key whose entry has not run out is contended and
      stays as it is; any other is won. */
  lemma AcquireAnswers(s: LockState, now: int, cfg: Settings, net: CacheSpec.Net, key: string, token: Token, ttl: Option<int>)
    ensures var ready := Ready(s, now, cfg, net).1;
            var seconds := if ttl.Some? then ttl.value else cfg.defaultTtl;
            var k := "lock:" + cfg.namespace + ":" + key;
            var (s', r) := Acquire(s, now, cfg, net, key, token, ttl);
            && (r.BadTtl? <==> ready && seconds <= 0)
            && (r.LockError? <==> !ready || (seconds > 0 && net.reply.Raised()))
            && (r.Contended? <==> ready && seconds > 0 && net.reply.Done? && Taken(s, now, k))
            && (r.Won? <==> ready && seconds > 0 && net.reply.Done? && !Taken(s, now, k))
            && (r.Won? ==> r.token == token)
            && s'.entries == (if ready && seconds > 0 && !net.reply.Lost? && !Taken(s, now, k)
                              then s.entries[k := Lease(token, now + 1000 * seconds)] else s.entries)
            && (ready && r.LockError? ==> s'.local.latch == TrippedFrom(s, now))
  {
    assert Put(s.entries, FullKey(cfg, key), At(s.entries, FullKey(cfg, key))) == s.entries;
  }

  /** What `release` answers: True exactly when the script ran and found the caller's own token on an
      entry that has not run out, which is then gone; nothing else ever goes. */
  lemma ReleaseAnswers(s: LockState, now: int, cfg: Settings, net: CacheSpec.Net, key: string, token: Option<Token>)
    ensures var ready := Ready(s, now, cfg, net).1;
            var k := "lock:" + cfg.namespace + ":" + key;
            var (s', r) := Release(s, now, cfg, net, key, token);
            && (r.BadArgument? <==> token.None?)
            && (r.Unavailable? <==> token.Some? && (!ready || net.reply.Raised()))
            && (r.Yes? <==> token.Some? && ready && net.reply.Done? && TakenBy(s, now, k, token.value))
            && (r.No? <==> token.Some? && ready && net.reply.Done? && !TakenBy(s, now, k, token.value))
            && s'.entries == (if token.Some? && ready && !net.reply.Lost? && TakenBy(s, now, k, token.value)
                              then s.entries - {k} else s.entries)
            && (ready && r.Unavailable? ==> s'.local.latch == TrippedFrom(s, now))
  {
    assert Put(s.entries, FullKey(cfg, key), At(s.entries, FullKey(cfg, key))) == s.entries;
  }

  /** Likewise for `extend`, which moves the end of the caller's own entry. */
  lemma ExtendAnswers(s: LockState, now: int, cfg: Settings, net: CacheSpec.Net, key: string, token: Token, ttl: int)
    ensures var ready := Ready(s, now, cfg, net).1;
            var k := "lock:" + cfg.namespace + ":" + key;
            var (s', r) := Extend(s, now, cfg, net, key, token, ttl);
            && (r.BadArgument? <==> ttl <= 0)
            && (r.Unavailable? <==> ttl > 0 && (!ready || net.reply.Raised()))
            && (r.Yes? <==> ttl > 0 && ready && net.reply.Done? && TakenBy(s, now, k, token))
            && (r.No? <==> ttl > 0 && ready && net.reply.Done? && !TakenBy(s, now, k, token))
            && s'.entries == (if ttl > 0 && ready && !net.reply.Lost? && TakenBy(s, now, k, token)
                              then s.entries[k := Lease(token, now + 1000 * ttl)] else s.entries)
            && (ready && r.Unavailable? ==> s'.local.latch == TrippedFrom(s, now))
  {
    assert Put(s.entries, FullKey(cfg, key), At(s.entries, FullKey(cfg, key))) == s.entries;
  }

  // ----- The operations are the protocol's steps -----------------------------------------

  /** A latch that refuses the call is, to the protocol, a command that was lost. */
  function Fate(ready: bool, r: Reply): Reply { if ready then r else Lost }

  lemma OtherKeysUntouched(s: LockState, now: int, k: string, r: Reply, after: Option<Lease>, other: string)
    requires other != k
    ensures At(Command(s, now, k, r, after).entries, other) == At(s.entries, other)
  {
  }

  /** What `acquire` does to the key and what it answers is the protocol's Acquire step. */
  lemma AcquireIsProtocolStep(s: LockState, cfg: Settings, net: CacheSpec.Net, key: string, p: P.State, i: nat)
    requires i < |p.clients| && p.clients[i].phase.Acquiring?
    requires p.lock == At(s.entries, FullKey(cfg, key)) && p.clients[i].config.ttl > 0
    ensures var e := P.Acquire(i, Fate(Ready(s, p.now, cfg, net).1, net.reply));
            var (s', r) := Acquire(s, p.now, cfg, net, key, p.nextToken, Some(p.clients[i].config.ttl));
            && P.Enabled(p, e)
            && P.Apply(p, e).lock == At(s'.entries, FullKey(cfg, key))
            && (r.Won? <==> P.Apply(p, e).clients[i].phase.PostRead?)
            && (r.Won? ==> P.Apply(p, e).clients[i].token == r.token)
            && (r.LockError? <==> P.Apply(p, e).clients[i].phase == P.Finished(P.Failed))
            && (r.Contended? <==> e.reply.Done? && LeaseKey.Live(p.lock, p.now))
  {
  }

  /** `release` is the protocol's Release step: it removes the key exactly when the caller owns
      it and the script runs. */
  lemma ReleaseIsProtocolStep(s: LockState, cfg: Settings, net: CacheSpec.Net, key: string, p: P.State, i: nat)
    requires i < |p.clients| && p.clients[i].phase.Releasing?
    requires p.lock == At(s.entries, FullKey(cfg, key))
    ensures var e := P.Release(i, Fate(Ready(s, p.now, cfg, net).1, net.reply));
            var (s', r) := Release(s, p.now, cfg, net, key, Some(p.clients[i].token));
            && P.Enabled(p, e)
            && P.Apply(p, e).lock == At(s'.entries, FullKey(cfg, key))
            && (r.Yes? <==> e.reply.Done? && P.Owns(p, p.clients[i]))
            && (r.No? <==> e.reply.Done? && !P.Owns(p, p.clients[i]))
            && (r.Yes? ==> P.Apply(p, e).lock.None?)
            && (r.No? ==> P.Apply(p, e).lock == p.lock)
  {
  }

  lemma ExtendIsProtocolStep(s: LockState, cfg: Settings, net: CacheSpec.Net, key: string, ttl: int, p: P.State, i: nat)
    requires i < |p.clients| && p.clients[i].phase.Running? && ttl > 0
    requires p.lock == At(s.entries, FullKey(cfg, key))
    ensures var e := P.Extend(i, ttl, Fate(Ready(s, p.now, cfg, net).1, net.reply));
            var (s', r) := Extend(s, p.now, cfg, net, key, p.clients[i].token, ttl);
            && P.Enabled(p, e)
            && P.Apply(p, e).lock == At(s'.entries, FullKey(cfg, key))
            && (r.Yes? <==> e.reply.Done? && P.Owns(p, p.clients[i]))
            && (r.No? <==> e.reply.Done? && !P.Owns(p, p.clients[i]))
            && (r.Yes? ==> P.Apply(p, e).lock == Some(Lease(p.clients[i].token, p.now + 1000 * ttl))
                           && P.Apply(p, e).clients[i].lease == p.now + 1000 * ttl)
            && (r.No? ==> P.Apply(p, e) == p)
  {
  }
}

/** The result cache of `guard` is a `RedisCache`: what its reads and writes mean to the protocol. */
module GuardCacheLink {
  import opened Common
  import opened HalfOpen
  import opened CacheSpec
  import P = GuardProtocol

  /** The protocol's view of one cache key. */
  function CellOf(data: Data, codec: Codec, fullKey: string): Option<P.Cell> {
    if fullKey in data then Some(P.Cell(codec.loads(data[fullKey].payload), data[fullKey].expiry)) else None
  }

  /** `result_cache.get` is the protocol's cache read, working or failed. */
  lemma CacheReadIsProtocolRead(s: CacheState, cfg: Settings, net: Net, codec: Codec, key: string, p: P.State, c: P.Client)
    requires c.config.useCache && p.cache == CellOf(s.data, codec, FullKey(cfg.namespace, key))
    ensures Get(s, p.now, cfg, net, codec, key).1 == P.ReadCache(p, c, PassGate(s, p.now, cfg, net).1 && net.reply.Done?)
  {
  }

  /** `result_cache.set` is the protocol's Write step; a write the object does not even send is
      lost.  What is written must read back as the result: as its value, or as None for the JSON
      null that a handler's None becomes. */
  lemma CacheWriteIsProtocolWrite(s: CacheState, cfg: Settings, net: Net, codec: Codec, key: string, value: string,
                                  p: P.State, i: nat)
    requires i < |p.clients| && p.clients[i].phase.Writing?
    requires p.cache == CellOf(s.data, codec, FullKey(cfg.namespace, key))
    requires codec.dumps(value).Some? ==> codec.loads(codec.dumps(value).value) == p.clients[i].phase.payload
    ensures var ttl := p.clients[i].config.cacheTtl;
            var (s', ok) := Set(s, p.now, cfg, net, codec, key, value, Some(ttl));
            var sent := Connect(s.local, cfg.hasUrl, net.connects).client && codec.dumps(value).Some? && ttl > 0;
            var e := P.Write(i, if sent then net.reply else Lost);
            && P.Enabled(p, e)
            && P.Apply(p, e).cache == CellOf(s'.data, codec, FullKey(cfg.namespace, key))
            && (ok <==> e.reply.Done?)
  {
  }
}

/** The lock object itself, and the wait loop of `guard`. */
module DistributedLock {
  import opened Common
  import opened LeaseKey
  import opened HalfOpen
  import CacheSpec
  import LockSpec

  class LockServer {
    var entries: map<string, Lease>
    var now: int

    constructor () {
      entries, now := map[], 0;
    }
  }

  class DistributedLock {
    const cfg: LockSpec.Settings
    const redis: LockServer
    var client: bool
    var available: bool
    var healthy: bool
    var unhealthySince: Option<int>
    var recoveryLocked: bool

    ghost function State(): LockSpec.LockState
      reads this, redis
    {
      LockSpec.LockState(Local(client, available, recoveryLocked, Latch(healthy, unhealthySince)), redis.entries)
    }

    constructor (cfg: LockSpec.Settings, client: bool, redis: LockServer)
      ensures this.cfg == cfg && this.redis == redis
      ensures State() == LockSpec.LockState(Local(client, client || cfg.hasUrl, false, Latch(client || cfg.hasUrl, None)), redis.entries)
    {
      this.cfg, this.redis, this.client := cfg, redis, client;
      available, healthy, unhealthySince := client || cfg.hasUrl, client || cfg.hasUrl, None;
      recoveryLocked := false;
    }

    method MarkUnhealthy()
      modifies this
      ensures State() == old(State()).(local := old(State().local).(latch := Trip(old(State().local.latch), redis.now)))
    {
      healthy := false;
      if unhealthySince.None? {
        unhealthySince := Some(redis.now);
      }
    }

    method EnsureReady(net: CacheSpec.Net) returns (ready: bool)
      modifies this
      ensures (State(), ready) == LockSpec.Ready(old(State()), redis.now, cfg, net)
    {
      if !client {
        if !cfg.hasUrl {
          return false;
        }
        if !net.connects {
          available, healthy := false, false;
          return false;
        }
        client := true;
      }
      if healthy {
        return true;
      }
      if unhealthySince.Some? && redis.now - unhealthySince.value < cfg.cooldown {
        return false;
      }
      if recoveryLocked {
        return false;
      }
      recoveryLocked := true;
      if net.pong {
        healthy, unhealthySince := true, None;
      } else {
        unhealthySince := Some(redis.now);
      }
      recoveryLocked := false;
      return net.pong;
    }

    /** SET NX EX under a fresh token. */
    method Acquire(key: string, token: Token, ttl: Option<int>, net: CacheSpec.Net) returns (r: LockSpec.Acquired)
      modifies this, redis`entries
      ensures (State(), r) == LockSpec.Acquire(old(State()), redis.now, cfg, net, key, token, ttl)
    {
      var ready := EnsureReady(net);
      if !ready {
        return LockSpec.LockError;
      }
      var seconds := if ttl.Some? then ttl.value else cfg.defaultTtl;
      if seconds <= 0 {
        return LockSpec.BadTtl;
      }
      var k := LockSpec.FullKey(cfg, key);
      assert LockSpec.Put(redis.entries, k, LockSpec.At(redis.entries, k)) == redis.entries;
      var taken := k in redis.entries && redis.now < redis.entries[k].expiry;
      if net.reply.TookEffect() && !taken {
        redis.entries := redis.entries[k := Lease(token, redis.now + 1000 * seconds)];
      }
      if net.reply.Raised() {
        MarkUnhealthy();
        return LockSpec.LockError;
      }
      return if taken then LockSpec.Contended else LockSpec.Won(token);
    }

    method Release(key: string, token: Option<Token>, net: CacheSpec.Net) returns (r: LockSpec.Answer)
      modifies this, redis`entries
      ensures (State(), r) == LockSpec.Release(old(State()), redis.now, cfg, net, key, token)
    {
      if token.None? {
        return LockSpec.BadArgument;
      }
      var ready := EnsureReady(net);
      if !ready {
        return LockSpec.Unavailable;
      }
      var k := LockSpec.FullKey(cfg, key);
      assert LockSpec.Put(redis.entries, k, LockSpec.At(redis.entries, k)) == redis.entries;
      var mine := k in redis.entries && redis.now < redis.entries[k].expiry && redis.entries[k].token == token.value;
      if net.reply.TookEffect() && mine {
        redis.entries := redis.entries - {k};
      }
      if net.reply.Raised() {
        MarkUnhealthy();
        return LockSpec.Unavailable;
      }
      return if mine then LockSpec.Yes else LockSpec.No;
    }

    method Extend(key: string, token: Token, ttl: int, net: CacheSpec.Net) returns (r: LockSpec.Answer)
      modifies this, redis`entries
      ensures (State(), r) == LockSpec.Extend(old(State()), redis.now, cfg, net, key, token, ttl)
    {
      if ttl <= 0 {
        return LockSpec.BadArgument;
      }
      var ready := EnsureReady(net);
      if !ready {
        return LockSpec.Unavailable;
      }
      var k := LockSpec.FullKey(cfg, key);
      assert LockSpec.Put(redis.entries, k, LockSpec.At(redis.entries, k)) == redis.entries;
      var mine := k in redis.entries && redis.now < redis.entries[k].expiry && redis.entries[k].token == token;
      if net.reply.TookEffect() && mine {
        redis.entries := redis.entries[k := Lease(token, redis.now + 1000 * ttl)];
      }
      if net.reply.Raised() {
        MarkUnhealthy();
        return LockSpec.Unavailable;
      }
      return if mine then LockSpec.Yes else LockSpec.No;
    }
  }

  // ----- The wait loop (lines 605-639) ---------------------------------------------------

  /** One turn of the loop as the environment lets it go: the answer of `acquire`, what a
      re-read of the cache would give, and the clock at the deadline test. */
  datatype Turn = Turn(attempt: LockSpec.Acquired, cached: Option<string>, clock: int)

  datatype Entered =
    | Holding(token: Token)
    | Hit(value: string)
    | GivenUp        // on_contended="return"
    | Contention     // LockContended
    | Error          // acquire() raised

  ghost predicate ClockAdvances(script: nat -> Turn, start: int, pollMs: int) {
    start <= script(0).clock && forall k: nat :: script(k).clock + pollMs <= script(k + 1).clock
  }

  lemma {:induction false} ClockHasAdvanced(script: nat -> Turn, start: int, pollMs: int, k: nat)
    requires ClockAdvances(script, start, pollMs)
    ensures start + k * pollMs <= script(k).clock
  {
    if k > 0 {
      ClockHasAdvanced(script, start, pollMs, k - 1);
      assert script(k - 1).clock + pollMs <= script(k - 1 + 1).clock;
      assert k * pollMs == (k - 1) * pollMs + pollMs;
    }
  }

  /** The loop ends, with the decision of the first turn that decides; `turns` counts the attempts:
      one, or fewer than 2 + wait / poll. */
  method WaitForLock(script: nat -> Turn, start: int, waitMs: int, pollMs: int, returnIfContended: bool)
    returns (r: Entered, turns: nat)
    requires pollMs > 0 && ClockAdvances(script, start, pollMs)
    ensures turns > 0
    ensures forall k: nat :: k < turns - 1 ==>
              script(k).attempt.Contended? && script(k).cached.None? && script(k).clock < start + Max(waitMs, 0)
    ensures var t := script(turns - 1);
            && (forall token :: t.attempt == LockSpec.Won(token) <==> r == Holding(token))
            && (t.attempt.LockError? || t.attempt.BadTtl? <==> r.Error?)
            && (forall v :: t.attempt.Contended? && t.cached == Some(v) <==> r == Hit(v))
            && (r.GivenUp? || r.Contention? <==> t.attempt.Contended? && t.cached.None?)
            && (r.GivenUp? ==> returnIfContended) && (r.Contention? ==> !returnIfContended)
            && (r.GivenUp? || r.Contention? ==> t.clock >= start + Max(waitMs, 0))
    ensures turns > 1 ==> (turns - 2) * pollMs < Max(waitMs, 0)
  {
    var deadline := start + Max(waitMs, 0);
    turns := 0;
    while true
      invariant forall k: nat :: k < turns ==>
                  script(k).attempt.Contended? && script(k).cached.None? && script(k).clock < deadline
      invariant turns > 0 ==> (turns - 1) * pollMs < Max(waitMs, 0)
      decreases Max(waitMs, 0) - (turns - 1) * pollMs
    {
      var t := script(turns);
      ClockHasAdvanced(script, start, pollMs, turns);
      turns := turns + 1;
      match t.attempt {
        case Won(token) =>
          return Holding(token), turns;
        case LockError =>
          return Error, turns;
        case BadTtl =>
          return Error, turns;
        case Contended =>
      }
      if t.cached.Some? {
        return Hit(t.cached.value), turns;
      }
      if t.clock >= deadline {
        return if returnIfContended then GivenUp else Contention, turns;
      }
      assert (turns - 1) * pollMs < Max(waitMs, 0);
      assert (turns - 1) * pollMs == (turns - 2) * pollMs + pollMs;
    }
  }
}
