/** core/redis_cache.py:148-596 as a mutable object over a shared Redis.  Each method runs without
    interference between its awaits; `ProbeProtocol` treats the latch under interleaving. */
module RedisCache {
  import opened Common
  import opened HalfOpen
  import opened CacheSpec

  /** The Redis server, shared by every cache object that points at it. */
  class Redis {
    var data: Data
    var now: int

    constructor () {
      data, now := map[], 0;
    }
  }

  class RedisCache {
    const cfg: Settings
    const redis: Redis
    var client: bool
    var available: bool
    var healthy: bool
    var unhealthySince: Option<int>
    var recoveryLocked: bool

    ghost function State(): CacheState
      reads this, redis
    {
      CacheState(Local(client, available, recoveryLocked, Latch(healthy, unhealthySince)), redis.data)
    }

    constructor (cfg: Settings, client: bool, redis: Redis)
      ensures this.cfg == cfg && this.redis == redis
      ensures State() == CacheState(Local(client, client || cfg.hasUrl, false, Latch(client || cfg.hasUrl, None)), redis.data)
    {
      this.cfg, this.redis, this.client := cfg, redis, client;
      available, healthy, unhealthySince := client || cfg.hasUrl, client || cfg.hasUrl, None;
      recoveryLocked := false;
    }

    method EnsureClient(connects: bool) returns (ok: bool)
      modifies this
      ensures State() == old(State()).(local := Connect(old(State().local), cfg.hasUrl, connects))
      ensures ok == client
    {
      if !client && cfg.hasUrl {
        if connects {
          client := true;
        } else {
          available, healthy := false, false;
        }
      }
      return client;
    }

    method MarkUnhealthy()
      modifies this
      ensures State() == Tripped(old(State()), redis.now)
    {
      healthy := false;
      if unhealthySince.None? {
        unhealthySince := Some(redis.now);
      }
    }

    method AttemptRecovery(pong: bool) returns (recovered: bool)
      modifies this
      ensures var probes := !old(healthy) && !old(recoveryLocked);
              && recovered == (old(healthy) || (probes && pong))
              && State() == if probes
                            then old(State()).(local := old(State().local).(latch := AfterProbe(old(State().local.latch), redis.now, pong)))
                            else old(State())
    {
      if healthy {
        return true;
      }
      if recoveryLocked {
        return false;
      }
      recoveryLocked := true;
      if pong {
        healthy, unhealthySince := true, None;
      } else {
        unhealthySince := Some(redis.now);
      }
      recoveryLocked := false;
      return pong;
    }

    method EnterGate(net: Net) returns (open: bool)
      modifies this
      ensures (State(), open) == PassGate(old(State()), redis.now, cfg, net)
    {
      open := EnsureClient(net.connects);
      if open && !healthy {
        if unhealthySince.None? || redis.now - unhealthySince.value >= cfg.cooldown {
          open := AttemptRecovery(net.pong);
        } else {
          open := false;
        }
      }
    }

    method Get(key: string, codec: Codec, net: Net) returns (value: Option<string>)
      modifies this
      ensures (State(), value) == CacheSpec.Get(old(State()), redis.now, cfg, net, codec, key)
    {
      var open := EnterGate(net);
      if !open {
        return None;
      }
      if net.reply.Raised() {
        MarkUnhealthy();
        return None;
      }
      var raw := Lookup(redis.data, redis.now, FullKey(cfg.namespace, key));
      if raw.None? {
        return None;
      }
      return codec.loads(raw.value);
    }

    method Set(key: string, value: string, ttl: Option<int>, codec: Codec, net: Net) returns (ok: bool)
      modifies this, redis`data
      ensures (State(), ok) == CacheSpec.Set(old(State()), redis.now, cfg, net, codec, key, value, ttl)
    {
      var connected := EnsureClient(net.connects);
      if !connected {
        return false;
      }
      var payload := codec.dumps(value);
      if payload.None? {
        return false;
      }
      var ex := if ttl.Some? then ttl.value else cfg.defaultTtl;
      if net.reply.TookEffect() && ex > 0 {
        redis.data := redis.data[FullKey(cfg.namespace, key) := Entry(payload.value, redis.now + 1000 * ex)];
      }
      if net.reply.Raised() || ex <= 0 {
        MarkUnhealthy();
        return false;
      }
      if !healthy {
        healthy, unhealthySince := true, None;
      }
      return true;
    }

    method Delete(key: string, net: Net) returns (ok: bool)
      modifies this, redis`data
      ensures (State(), ok) == CacheSpec.Delete(old(State()), redis.now, cfg, net, key)
    {
      var connected := EnsureClient(net.connects);
      if !connected {
        return false;
      }
      if net.reply.TookEffect() {
        redis.data := redis.data - {FullKey(cfg.namespace, key)};
      }
      if net.reply.Raised() {
        MarkUnhealthy();
        return false;
      }
      return true;
    }

    /** `steps` is what the scan yields: keys with the fate of their DEL, or an exception. */
    method DeletePattern(steps: seq<ScanStep>, raiseOnError: bool, net: Net) returns (r: Invalidation)
      modifies this, redis`data
      ensures (State(), r) == CacheSpec.DeletePattern(old(State()), redis.now, cfg, net, steps, raiseOnError)
    {
      var open := EnterGate(net);
      if !open {
        return if raiseOnError then InvalidationError else Deleted(0);
      }
      ghost var before := State();
      var deleted: nat := 0;
      var raised := false;
      var i := 0;
      while i < |steps| && !raised
        invariant 0 <= i <= |steps|
        invariant Sweep(redis.data, deleted, raised) == SweepTo(before.data, steps, i)
        invariant State() == before.(data := redis.data)
      {
        match steps[i] {
          case ScanRaises =>
            raised := true;
          case Found(k, reply) =>
            if reply.TookEffect() {
              redis.data := redis.data - {k};
            }
            if reply.Raised() {
              raised := true;
            } else {
              deleted := deleted + 1;
            }
        }
        i := i + 1;
      }
      if raised {
        SweepStops(before.data, steps, i, |steps|);
        MarkUnhealthy();
        return if raiseOnError then InvalidationError else Deleted(deleted);
      }
      return Deleted(deleted);
    }

    method Ping(net: Net) returns (ok: bool)
      modifies this
      ensures (State(), ok) == CacheSpec.Ping(old(State()), redis.now, cfg, net)
    {
      var connected := EnsureClient(net.connects);
      if !connected {
        return false;
      }
      if net.reply.Done? && net.pong {
        healthy, unhealthySince := true, None;
        return true;
      }
      MarkUnhealthy();
      return false;
    }

    method GetOrLoad(key: string, loader: () -> Option<string>, ttl: Option<int>, codec: Codec, read: Net, write: Net)
      returns (value: Option<string>)
      modifies this, redis`data
      ensures (State(), value) ==
              CacheSpec.GetOrLoad(old(State()), redis.now, cfg, read, write, codec, key, loader(), ttl)
    {
      value := Get(key, codec, read);
      if value.None? {
        value := loader();
        if value.Some? {
          var _ := Set(key, value.value, ttl, codec, write);
        }
      }
    }
  }

  /** Nothing happens after the scan has raised. */
  lemma {:induction false} SweepStops(data: Data, steps: seq<ScanStep>, i: nat, n: nat)
    requires i <= n <= |steps| && SweepTo(data, steps, i).raised
    ensures SweepTo(data, steps, n) == SweepTo(data, steps, i)
  {
    if i < n { SweepStops(data, steps, i, n - 1); }
  }
}
