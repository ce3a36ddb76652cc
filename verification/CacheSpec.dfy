/** What each operation of core/redis_cache.py does to the cache object and to Redis, as functions
    of the state before it and of how the commands to Redis end. */
module CacheSpec {
  import opened Common
  import opened HalfOpen

  datatype Entry = Entry(payload: string, expiry: int)

  /** The keys and values Redis holds. */
  type Data = map<string, Entry>

  /** `dumps` and `loads`.  None stands for an exception and, from `loads`, also for a payload that
      reads back as Python None: both are misses to the caller. */
  datatype Codec = Codec(dumps: string -> Option<string>, loads: string -> Option<string>)

  /** The parts of a cache object that never change. */
  datatype Settings = Settings(namespace: string, defaultTtl: int, cooldown: int, hasUrl: bool)

  /** How the outside world treats one operation: whether building the client works, the answer
      to a recovery probe, and the fate of the command itself. */
  datatype Net = Net(connects: bool, pong: bool, reply: Reply)

  datatype CacheState = CacheState(local: Local, data: Data)

  function FullKey(namespace: string, key: string): string { namespace + ":" + key }

  function Lookup(data: Data, now: int, key: string): Option<string> {
    if key in data && now < data[key].expiry then Some(data[key].payload) else None
  }

  function Tripped(s: CacheState, now: int): CacheState {
    s.(local := s.local.(latch := Trip(s.local.latch, now)))
  }

  /** `_ensure_client`, then the half-open gate. */
  function PassGate(s: CacheState, now: int, cfg: Settings, net: Net): (CacheState, bool) {
    var l := Connect(s.local, cfg.hasUrl, net.connects);
    if !l.client then (s.(local := l), false)
    else
      var (latch, open) := Gate(l.latch, l.locked, now, cfg.cooldown, net.pong);
      (s.(local := l.(latch := latch)), open)
  }

  function Get(s: CacheState, now: int, cfg: Settings, net: Net, codec: Codec, key: string)
    : (CacheState, Option<string>)
  {
    var (s1, open) := PassGate(s, now, cfg, net);
    if !open then (s1, None)
    else if net.reply.Raised() then (Tripped(s1, now), None)
    else
      var raw := Lookup(s1.data, now, FullKey(cfg.namespace, key));
      (s1, if raw.None? then None else codec.loads(raw.value))
  }

  /** `set` does not ask the latch first, and heals it when the write goes through.  Redis refuses
      an expiry that is not positive. */
  function Set(s: CacheState, now: int, cfg: Settings, net: Net, codec: Codec, key: string, value: string, ttl: Option<int>)
    : (CacheState, bool)
  {
    var s1 := s.(local := Connect(s.local, cfg.hasUrl, net.connects));
    var payload := codec.dumps(value);
    var ex := if ttl.Some? then ttl.value else cfg.defaultTtl;
    if !s1.local.client || payload.None? then (s1, false)
    else
      var written := s1.data[FullKey(cfg.namespace, key) := Entry(payload.value, now + 1000 * ex)];
      var s2 := if net.reply.TookEffect() && ex > 0 then s1.(data := written) else s1;
      if net.reply.Raised() || ex <= 0 then (Tripped(s2, now), false)
      else if s2.local.latch.healthy then (s2, true)
      else (s2.(local := s2.local.(latch := RECOVERED)), true)
  }

  function Delete(s: CacheState, now: int, cfg: Settings, net: Net, key: string): (CacheState, bool) {
    var s1 := s.(local := Connect(s.local, cfg.hasUrl, net.connects));
    if !s1.local.client then (s1, false)
    else
      var s2 := if net.reply.TookEffect() then s1.(data := s1.data - {FullKey(cfg.namespace, key)}) else s1;
      if net.reply.Raised() then (Tripped(s2, now), false) else (s2, true)
  }

  /** One step of the scan: a key and the fate of its DEL, or the scan itself raising. */
  datatype ScanStep = Found(key: string, reply: Reply) | ScanRaises

  datatype Sweep = Sweep(data: Data, deleted: nat, raised: bool)

  /** The scan loop over its first `n` steps; it stops at the first exception. */
  function SweepTo(data: Data, steps: seq<ScanStep>, n: nat): Sweep
    requires n <= |steps|
  {
    if n == 0 then Sweep(data, 0, false)
    else
      var w := SweepTo(data, steps, n - 1);
      if w.raised then w
      else match steps[n - 1]
        case ScanRaises => w.(raised := true)
        case Found(k, r) =>
          var after := if r.TookEffect() then w.data - {k} else w.data;
          if r.Raised() then w.(data := after, raised := true) else Sweep(after, w.deleted + 1, false)
  }

  datatype Invalidation = Deleted(count: nat) | InvalidationError

  function DeletePattern(s: CacheState, now: int, cfg: Settings, net: Net, steps: seq<ScanStep>, raiseOnError: bool)
    : (CacheState, Invalidation)
  {
    var (s1, open) := PassGate(s, now, cfg, net);
    if !open then (s1, if raiseOnError then InvalidationError else Deleted(0))
    else
      var w := SweepTo(s1.data, steps, |steps|);
      var s2 := s1.(data := w.data);
      if w.raised then (Tripped(s2, now), if raiseOnError then InvalidationError else Deleted(w.deleted))
      else (s2, Deleted(w.deleted))
  }

  function Ping(s: CacheState, now: int, cfg: Settings, net: Net): (CacheState, bool) {
    var s1 := s.(local := Connect(s.local, cfg.hasUrl, net.connects));
    if !s1.local.client then (s1, false)
    else
      var pong := net.reply.Done? && net.pong;
      (s1.(local := s1.local.(latch := AfterPing(s1.local.latch, now, pong))), pong)
  }

  /** Read through: a miss runs the loader and offers what it found to the cache. */
  function GetOrLoad(s: CacheState, now: int, cfg: Settings, read: Net, write: Net, codec: Codec, key: string,
                     loaded: Option<string>, ttl: Option<int>)
    : (CacheState, Option<string>)
  {
    var (s1, cached) := Get(s, now, cfg, read, codec, key);
    if cached.Some? then (s1, cached)
    else if loaded.None? then (s1, None)
    else (Set(s1, now, cfg, write, codec, key, loaded.value, ttl).0, loaded)
  }

  // ----- What the operations answer ------------------------------------------------------

  /** There is a client, or one can be built. */
  predicate Connected(s: CacheState, cfg: Settings, net: Net) { s.local.client || (cfg.hasUrl && net.connects) }

  /** The time of the first failure stays with the latch until it heals. */
  function FailedSince(l: Latch, now: int): Latch {
    Latch(false, if l.since.Some? then l.since else Some(now))
  }

  /** A read may go on exactly when there is a client and the latch is closed, or a probe is due,
      nobody else is probing, and it is answered, which closes the latch. */
  lemma GateExactly(s: CacheState, now: int, cfg: Settings, net: Net)
    ensures var (s', open), l := PassGate(s, now, cfg, net), s.local.latch;
            && s'.data == s.data && s'.local.client == Connected(s, cfg, net)
            && (open <==>
                  && Connected(s, cfg, net)
                  && (|| (l.healthy && s'.local.latch == l)
                      || (!l.healthy && (l.since.None? || now - l.since.value >= cfg.cooldown)
                          && !s.local.locked && net.pong && s'.local.latch == Latch(true, None))))
            && (!s.local.client && cfg.hasUrl && !net.connects ==> !s'.local.available && !s'.local.latch.healthy)
  {
  }

  /** `get` answers what the payload of an unexpired entry reads back as, and nothing else; a GET that
      raises trips the latch. */
  lemma GetAnswers(s: CacheState, now: int, cfg: Settings, net: Net, codec: Codec, key: string)
    ensures var (s1, open) := PassGate(s, now, cfg, net);
            var k := cfg.namespace + ":" + key;
            var (s', value) := Get(s, now, cfg, net, codec, key);
            && value == (if open && net.reply.Done? && k in s.data && now < s.data[k].expiry
                         then codec.loads(s.data[k].payload) else None)
            && s'.data == s.data
            && s'.local.latch == (if open && net.reply.Raised() then FailedSince(s1.local.latch, now) else s1.local.latch)
  {
  }

  /** `set` answers True exactly when it could be sent, with a positive expiry, and its reply came; a
      write that ran is there whatever it answered; success closes the latch and failure trips it. */
  lemma SetAnswers(s: CacheState, now: int, cfg: Settings, net: Net, codec: Codec, key: string, value: string, ttl: Option<int>)
    ensures var seconds := if ttl.Some? then ttl.value else cfg.defaultTtl;
            var sent := Connected(s, cfg, net) && codec.dumps(value).Some?;
            var (s', ok) := Set(s, now, cfg, net, codec, key, value, ttl);
            && (ok <==> sent && seconds > 0 && net.reply.Done?)
            && s'.data == (if sent && seconds > 0 && !net.reply.Lost?
                           then s.data[cfg.namespace + ":" + key := Entry(codec.dumps(value).value, now + 1000 * seconds)]
                           else s.data)
            && (ok ==> s'.local.latch.healthy && (!s.local.latch.healthy ==> s'.local.latch.since.None?))
            && (sent && !ok ==> s'.local.latch == FailedSince(s.local.latch, now))
  {
  }

  /** `delete` does not ask the latch: it answers True exactly when its reply came, also behind an
      open latch; the key, and no other, is gone whenever the command ran; a DEL that raises trips
      the latch. */
  lemma DeleteAnswers(s: CacheState, now: int, cfg: Settings, net: Net, key: string)
    ensures var (s', ok) := Delete(s, now, cfg, net, key);
            && (ok <==> Connected(s, cfg, net) && net.reply.Done?)
            && s'.data == (if Connected(s, cfg, net) && !net.reply.Lost? then s.data - {cfg.namespace + ":" + key} else s.data)
            && (ok ==> s'.local.latch == s.local.latch)
            && (Connected(s, cfg, net) && !ok ==> s'.local.latch == FailedSince(s.local.latch, now))
  {
  }

  /** `delete_pattern` fails exactly when the gate is closed or a step of its scan raises, which trips
      the latch; only the raising form says so. */
  lemma DeletePatternAnswers(s: CacheState, now: int, cfg: Settings, net: Net, steps: seq<ScanStep>, raiseOnError: bool)
    ensures var (s1, open) := PassGate(s, now, cfg, net);
            var fails := !open || exists i :: 0 <= i < |steps| && (steps[i].ScanRaises? || steps[i].reply.Raised());
            var (s', r) := DeletePattern(s, now, cfg, net, steps, raiseOnError);
            && (r.InvalidationError? <==> raiseOnError && fails)
            && s'.local.latch == (if open && fails then FailedSince(s1.local.latch, now) else s1.local.latch)
  {
    SweepRaisesExactly(PassGate(s, now, cfg, net).0.data, steps, |steps|);
  }

  lemma {:induction false} SweepRaisesExactly(data: Data, steps: seq<ScanStep>, n: nat)
    requires n <= |steps|
    ensures SweepTo(data, steps, n).raised
            <==> exists i :: 0 <= i < n && (steps[i].ScanRaises? || steps[i].reply.Raised())
  {
    if n > 0 { SweepRaisesExactly(data, steps, n - 1); }
  }

  /** `ping` answers True exactly when a pong came, which closes the latch; anything else trips it. */
  lemma PingAnswers(s: CacheState, now: int, cfg: Settings, net: Net)
    ensures var (s', ok) := Ping(s, now, cfg, net);
            && (ok <==> Connected(s, cfg, net) && net.reply.Done? && net.pong)
            && s'.data == s.data
            && (Connected(s, cfg, net) ==>
                  s'.local.latch == if ok then Latch(true, None) else FailedSince(s.local.latch, now))
  {
  }

  /** `get_or_load` answers the cached value or, if there is none, the loaded one, which it offers to
      the cache unless it is None. */
  lemma GetOrLoadAnswers(s: CacheState, now: int, cfg: Settings, read: Net, write: Net, codec: Codec, key: string,
                         loaded: Option<string>, ttl: Option<int>)
    ensures var (s1, cached) := Get(s, now, cfg, read, codec, key);
            var (s', value) := GetOrLoad(s, now, cfg, read, write, codec, key, loaded, ttl);
            && (value.Some? <==> cached.Some? || loaded.Some?)
            && (cached.Some? ==> value == cached && s' == s1)
            && (cached.None? ==> value == loaded)
            && (cached.None? && loaded.None? ==> s' == s1)
            && (cached.None? && loaded.Some? ==> s' == Set(s1, now, cfg, write, codec, key, loaded.value, ttl).0)
  {
  }

  // ----- Writes and reads ----------------------------------------------------------------

  /** A `set` that returns True has healed the latch, and until the entry expires every cache
      object that is healthy and reaches Redis reads the value back. */
  lemma WriteThenRead(s: CacheState, now: int, cfg: Settings, write: Net, codec: Codec, key: string, value: string,
                      ttl: Option<int>, reader: Local, later: int, read: Net)
    requires Set(s, now, cfg, write, codec, key, value, ttl).1
    requires reader.client && reader.latch.healthy && read.reply.Done?
    ensures var s' := Set(s, now, cfg, write, codec, key, value, ttl).0;
            var seconds := if ttl.Some? then ttl.value else cfg.defaultTtl;
            && s'.local.client && s'.local.latch.healthy
            && codec.dumps(value).Some?
            && Get(CacheState(reader, s'.data), later, cfg, read, codec, key).1
               == if later < now + 1000 * seconds then codec.loads(codec.dumps(value).value) else None
  {
  }

  /** An object whose latch is open does not read Redis until its cooldown is over, nor while
      another coroutine probes: it misses, whatever is stored. */
  lemma OpenLatchMisses(s: CacheState, now: int, cfg: Settings, net: Net, codec: Codec, key: string)
    requires s.local.client && s.local.latch.since.Some? && !s.local.latch.healthy
    ensures now < s.local.latch.since.value + cfg.cooldown || s.local.locked ==>
              Get(s, now, cfg, net, codec, key) == (s, None)
    ensures now >= s.local.latch.since.value + cfg.cooldown && !s.local.locked && net.pong && net.reply.Done? ==>
              Get(s, now, cfg, net, codec, key).0.local.latch == RECOVERED
  {
  }

  // ----- The keyspace --------------------------------------------------------------------

  /** Two caches that share one Redis have some full key in common. */
  ghost predicate ShareKeys(n1: string, n2: string) {
    exists k1, k2 :: FullKey(n1, k1) == FullKey(n2, k2)
  }

  lemma CommonKeyIsPrefix(n1: string, k1: string, n2: string, k2: string)
    requires FullKey(n1, k1) == FullKey(n2, k2) && |n1| < |n2|
    ensures n1 + ":" <= n2
  {
    var f := FullKey(n1, k1);
    assert f[..|n2|] == n2 && f[..|n1| + 1] == n1 + ":";
    assert n1 + ":" == n2[..|n1| + 1];
  }

  lemma PrefixSharesKey(n1: string, n2: string)
    requires n1 + ":" <= n2
    ensures ShareKeys(n1, n2) && ShareKeys(n2, n1)
  {
    var k1 := n2[|n1| + 1..] + ":";
    assert FullKey(n1, k1) == n1 + ":" + n2[|n1| + 1..] + ":" == FullKey(n2, "");
  }

  /** Different namespaces keep their caches apart exactly when neither, with a colon behind it,
      begins the other; one namespace keeps its own keys apart. */
  lemma NamespacesApart(n1: string, n2: string)
    ensures n1 != n2 ==> (!ShareKeys(n1, n2) <==> !(n1 + ":" <= n2) && !(n2 + ":" <= n1))
    ensures forall k1, k2 :: FullKey(n1, k1) == FullKey(n1, k2) ==> k1 == k2
  {
    if n1 + ":" <= n2 { PrefixSharesKey(n1, n2); }
    if n2 + ":" <= n1 { PrefixSharesKey(n2, n1); }
    forall k1, k2 | FullKey(n1, k1) == FullKey(n2, k2)
      ensures n1 == n2 || n1 + ":" <= n2 || n2 + ":" <= n1
    {
      if |n1| < |n2| {
        CommonKeyIsPrefix(n1, k1, n2, k2);
      } else if |n2| < |n1| {
        CommonKeyIsPrefix(n2, k2, n1, k1);
      } else {
        assert n1 == FullKey(n1, k1)[..|n1|] && n2 == FullKey(n2, k2)[..|n2|];
      }
    }
    forall k1, k2 | FullKey(n1, k1) == FullKey(n1, k2) ensures k1 == k2 {
      assert k1 == FullKey(n1, k1)[|n1| + 1..] && k2 == FullKey(n1, k2)[|n1| + 1..];
    }
  }

  lemma NamespacesCollide()
    ensures FullKey("a", "b:k") == FullKey("a:b", "k")
  {
    assert "a" + ":" + "b:k" == "a:b" + ":" + "k";
  }
}
