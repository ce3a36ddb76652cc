/** Replicas with one cache object each read through a shared Redis in front of a common source
    (core/redis_cache.py:331-596).  Operations follow one another, but every one of them may meet
    any Redis failure, latch trip, recovery, expiry or eviction. */
module ReplicaCoherence {
  import opened Common
  import opened HalfOpen
  import opened CacheSpec

  datatype World = World(
    now: int,
    data: Data,
    replicas: seq<Local>,
    source: map<string, string>,
    unconfirmed: set<string>)   // keys written at the source and not invalidated since

  datatype Event =
    | Load(i: nat, key: string, ttl: Option<int>, read: Net, write: Net)
    | Peek(i: nat, key: string, read: Net)
    | Update(key: string, value: Option<string>)
    | Invalidate(i: nat, key: string, del: Net)
    | InvalidatePattern(i: nat, pattern: iset<string>, steps: seq<ScanStep>, raiseOnError: bool, scan: Net)
    | HealthPing(i: nat, net: Net)
    | Evict(keys: set<string>)
    | Tick(ms: nat)

  datatype Setup = Setup(cfg: Settings, codec: Codec)

  ghost predicate Yielded(steps: seq<ScanStep>, n: nat, fullKey: string)
    requires n <= |steps|
  {
    exists j :: 0 <= j < n && steps[j].Found? && steps[j].key == fullKey
  }

  ghost predicate Matches(cfg: Settings, pattern: iset<string>, fullKey: string) {
    exists key :: key in pattern && fullKey == FullKey(cfg.namespace, key)
  }

  /** SCAN yields only keys that match, and a scan that ends has yielded every live one. */
  ghost predicate ScanContract(cfg: Settings, data: Data, now: int, pattern: iset<string>, steps: seq<ScanStep>) {
    && (forall fullKey :: Yielded(steps, |steps|, fullKey) ==> Matches(cfg, pattern, fullKey))
    && (!SweepTo(data, steps, |steps|).raised ==>
          forall fullKey :: Matches(cfg, pattern, fullKey) && Lookup(data, now, fullKey).Some? ==>
            Yielded(steps, |steps|, fullKey))
  }

  function Replica(w: World, i: nat): CacheState
    requires i < |w.replicas|
  {
    CacheState(w.replicas[i], w.data)
  }

  ghost predicate Enabled(u: Setup, w: World, e: Event) {
    match e
    case Load(i, _, _, _, _) => i < |w.replicas|
    case Peek(i, _, _) => i < |w.replicas|
    case Invalidate(i, _, _) => i < |w.replicas|
    case InvalidatePattern(i, p, steps, _, _) => i < |w.replicas| && ScanContract(u.cfg, w.data, w.now, p, steps)
    case HealthPing(i, _) => i < |w.replicas|
    case _ => true
  }

  function With(w: World, i: nat, s: CacheState): World
    requires i < |w.replicas|
  {
    w.(data := s.data, replicas := w.replicas[i := s.local])
  }

  /** What the loader would return now. */
  function Loaded(w: World, key: string): Option<string> {
    if key in w.source then Some(w.source[key]) else None
  }

  function LoadStep(u: Setup, w: World, e: Event): (CacheState, Option<string>)
    requires e.Load? && e.i < |w.replicas|
  {
    GetOrLoad(Replica(w, e.i), w.now, u.cfg, e.read, e.write, u.codec, e.key, Loaded(w, e.key), e.ttl)
  }

  ghost function Apply(u: Setup, w: World, e: Event): World
    requires Enabled(u, w, e)
  {
    match e
    case Load(i, _, _, _, _) => With(w, i, LoadStep(u, w, e).0)
    case Peek(i, key, net) => With(w, i, Get(Replica(w, i), w.now, u.cfg, net, u.codec, key).0)
    case Update(key, v) =>
      w.(source := if v.Some? then w.source[key := v.value] else w.source - {key}, unconfirmed := w.unconfirmed + {key})
    case Invalidate(i, key, net) =>
      var (s, ok) := Delete(Replica(w, i), w.now, u.cfg, net, key);
      With(w, i, s).(unconfirmed := if ok then w.unconfirmed - {key} else w.unconfirmed)
    case InvalidatePattern(i, p, steps, raiseOnError, net) =>
      var (s, r) := DeletePattern(Replica(w, i), w.now, u.cfg, net, steps, raiseOnError);
      With(w, i, s).(unconfirmed :=
        if raiseOnError && r.Deleted? then set k | k in w.unconfirmed && k !in p else w.unconfirmed)
    case HealthPing(i, net) => With(w, i, Ping(Replica(w, i), w.now, u.cfg, net).0)
    case Evict(keys) => w.(data := w.data - keys)
    case Tick(ms) => w.(now := w.now + ms)
  }

  datatype Run = Run(setup: Setup, events: seq<Event>, worlds: seq<World>)

  ghost predicate IsRun(r: Run) {
    && |r.worlds| == |r.events| + 1
    && r.worlds[0].data == map[] && r.worlds[0].unconfirmed == {}
    && forall k :: 0 <= k < |r.events| ==>
         Enabled(r.setup, r.worlds[k], r.events[k])
         && r.worlds[k + 1] == Apply(r.setup, r.worlds[k], r.events[k])
  }

  /** Reading back what was written never yields another value; failing to read it is allowed. */
  ghost predicate Faithful(c: Codec) {
    forall v: string :: c.dumps(v).Some? && c.loads(c.dumps(v).value).Some? ==> c.loads(c.dumps(v).value).value == v
  }

  // ----- Coherence -----------------------------------------------------------------------

  /** A live entry of a key that is not awaiting invalidation reads back as the source's value. */
  ghost predicate InSync(u: Setup, w: World) {
    forall key :: key !in w.unconfirmed ==> EntryInSync(u, w.data, w.now, key, Loaded(w, key))
  }

  ghost predicate EntryInSync(u: Setup, data: Data, now: int, key: string, value: Option<string>) {
    var raw := Lookup(data, now, FullKey(u.cfg.namespace, key));
    raw.Some? && u.codec.loads(raw.value).Some? ==> u.codec.loads(raw.value) == value
  }

  lemma FullKeyInjective(ns: string, k1: string, k2: string)
    ensures FullKey(ns, k1) == FullKey(ns, k2) ==> k1 == k2
  {
    assert FullKey(ns, k1)[|ns| + 1..] == k1;
    assert FullKey(ns, k2)[|ns| + 1..] == k2;
  }

  lemma SetKeepsSync(u: Setup, s: CacheState, now: int, net: Net, key: string, value: string, ttl: Option<int>, other: string, v: Option<string>)
    requires Faithful(u.codec) && EntryInSync(u, s.data, now, other, v) && (other == key ==> v == Some(value))
    ensures EntryInSync(u, Set(s, now, u.cfg, net, u.codec, key, value, ttl).0.data, now, other, v)
  {
    FullKeyInjective(u.cfg.namespace, key, other);
  }

  /** A key leaves the data during a sweep only if the scan yielded it, and after a clean sweep
      every yielded key is gone. */
  lemma {:induction false} SweepRemoves(data: Data, steps: seq<ScanStep>, n: nat, k: string)
    requires n <= |steps|
    ensures var w := SweepTo(data, steps, n);
            && (k in w.data ==> k in data && w.data[k] == data[k])
            && (!w.raised ==> w.deleted == n)
            && (!w.raised && Yielded(steps, n, k) ==> k !in w.data)
            && (k in data && !Yielded(steps, n, k) ==> k in w.data)
  {
    if n > 0 {
      SweepRemoves(data, steps, n - 1, k);
      assert Yielded(steps, n, k) <==> Yielded(steps, n - 1, k) || (steps[n - 1].Found? && steps[n - 1].key == k);
    }
  }

  lemma MatchIsMembership(cfg: Settings, pattern: iset<string>, key: string)
    ensures Matches(cfg, pattern, FullKey(cfg.namespace, key)) <==> key in pattern
  {
    forall other | other in pattern && FullKey(cfg.namespace, key) == FullKey(cfg.namespace, other)
      ensures other == key
    {
      FullKeyInjective(cfg.namespace, key, other);
    }
  }

  /** A `delete_pattern` that was asked to raise and returns has removed every matching key, one
      DEL for each key scanned; whether or not it returns, it touches nothing else. */
  lemma ReturnedSweepIsComplete(s: CacheState, now: int, cfg: Settings, net: Net, pattern: iset<string>,
                                steps: seq<ScanStep>, key: string)
    requires ScanContract(cfg, s.data, now, pattern, steps)
    ensures var (s', r) := DeletePattern(s, now, cfg, net, steps, true);
            && (r.Deleted? ==> r.count == |steps|)
            && (r.Deleted? && key in pattern ==> Lookup(s'.data, now, FullKey(cfg.namespace, key)).None?)
            && (key !in pattern ==>
                  Lookup(s'.data, now, FullKey(cfg.namespace, key)) == Lookup(s.data, now, FullKey(cfg.namespace, key)))
  {
    var (s1, open) := PassGate(s, now, cfg, net);
    assert s1.data == s.data;
    var w := SweepTo(s.data, steps, |steps|);
    SweepRemoves(s.data, steps, |steps|, FullKey(cfg.namespace, key));
    MatchIsMembership(cfg, pattern, key);
  }

  /** With `raise_on_error=False` a normal return confirms nothing: an open latch returns 0 and
      leaves every key where it was. */
  lemma QuietSweepConfirmsNothing(s: CacheState, now: int, cfg: Settings, net: Net, steps: seq<ScanStep>)
    requires s.local.client && !s.local.latch.healthy && !ProbeDue(s.local.latch, now, cfg.cooldown)
    ensures DeletePattern(s, now, cfg, net, steps, false) == (s, Deleted(0))
    ensures DeletePattern(s, now, cfg, net, steps, true) == (s, InvalidationError)
  {
  }

  ghost predicate AllGone(cfg: Settings, data: Data, now: int, pattern: iset<string>) {
    forall key :: key in pattern ==> Lookup(data, now, FullKey(cfg.namespace, key)).None?
  }

  /** A quiet `delete_pattern` that meets this gate, and whose scan raises or does not, leaves no
      matching key, whatever is stored and whatever conforming scan it runs. */
  ghost predicate QuietSweepConfirms(local: Local, now: int, cfg: Settings, net: Net, raises: bool) {
    forall data: Data, pattern: iset<string>, steps: seq<ScanStep> ::
      ScanContract(cfg, data, now, pattern, steps) && SweepTo(data, steps, |steps|).raised == raises ==>
        AllGone(cfg, DeletePattern(CacheState(local, data), now, cfg, net, steps, false).0.data, now, pattern)
  }

  /** It does so exactly when the gate opens and no step of the scan raises; its return value shows
      neither. */
  lemma QuietSweepConfirmsIff(local: Local, now: int, cfg: Settings, net: Net, raises: bool)
    ensures QuietSweepConfirms(local, now, cfg, net, raises)
            <==> PassGate(CacheState(local, map[]), now, cfg, net).1 && !raises
  {
    var open := PassGate(CacheState(local, map[]), now, cfg, net).1;
    if open && !raises {
      forall data: Data, pattern: iset<string>, steps: seq<ScanStep>
        | ScanContract(cfg, data, now, pattern, steps) && SweepTo(data, steps, |steps|).raised == raises
        ensures AllGone(cfg, DeletePattern(CacheState(local, data), now, cfg, net, steps, false).0.data, now, pattern)
      {
        forall key | key in pattern
          ensures Lookup(SweepTo(data, steps, |steps|).data, now, FullKey(cfg.namespace, key)).None?
        {
          SweepRemoves(data, steps, |steps|, FullKey(cfg.namespace, key));
          MatchIsMembership(cfg, pattern, key);
        }
      }
    } else {
      UnconfirmedSweep(local, now, cfg, net, raises);
    }
  }

  /** One live key, and a scan that raises before it, or that never starts, is enough. */
  lemma UnconfirmedSweep(local: Local, now: int, cfg: Settings, net: Net, raises: bool)
    requires !PassGate(CacheState(local, map[]), now, cfg, net).1 || raises
    ensures !QuietSweepConfirms(local, now, cfg, net, raises)
  {
    var k := FullKey(cfg.namespace, "k");
    var data: Data, pattern := map[k := Entry("", now + 1)], iset{"k"};
    var steps := if raises then [ScanRaises] else [Found(k, Done)];
    MatchIsMembership(cfg, pattern, "k");
    assert !raises ==> steps[0].Found? && Yielded(steps, |steps|, k);
    assert SweepTo(data, steps, 0) == Sweep(data, 0, false);
    assert SweepTo(data, steps, 1).raised == raises;
    assert raises ==> SweepTo(data, steps, 1).data == data;
    assert ScanContract(cfg, data, now, pattern, steps);
    var after := DeletePattern(CacheState(local, data), now, cfg, net, steps, false).0.data;
    assert after == data;
    assert "k" in pattern && Lookup(after, now, k).Some?;
  }

  lemma GetKeepsData(s: CacheState, now: int, cfg: Settings, net: Net, codec: Codec, key: string)
    ensures Get(s, now, cfg, net, codec, key).0.data == s.data
    ensures Get(s, now, cfg, net, codec, key).1.Some? ==>
              var raw := Lookup(s.data, now, FullKey(cfg.namespace, key));
              raw.Some? && codec.loads(raw.value) == Get(s, now, cfg, net, codec, key).1
  {
  }

  lemma StepKeepsSync(u: Setup, w: World, e: Event)
    requires Faithful(u.codec) && InSync(u, w) && Enabled(u, w, e)
    ensures InSync(u, Apply(u, w, e))
  {
    var w' := Apply(u, w, e);
    forall key | key !in w'.unconfirmed
      ensures EntryInSync(u, w'.data, w'.now, key, Loaded(w', key))
    {
      match e
      case Load(i, k, ttl, read, write) =>
        var s := Replica(w, i);
        GetKeepsData(s, w.now, u.cfg, read, u.codec, k);
        if Get(s, w.now, u.cfg, read, u.codec, k).1.None? && Loaded(w, k).Some? {
          var s1 := Get(s, w.now, u.cfg, read, u.codec, k).0;
          SetKeepsSync(u, s1, w.now, write, k, Loaded(w, k).value, ttl, key, Loaded(w, key));
        }
      case Peek(i, k, net) =>
        GetKeepsData(Replica(w, i), w.now, u.cfg, net, u.codec, k);
      case Update(k, v) =>
        assert key !in w.unconfirmed && Loaded(w', key) == Loaded(w, key);
      case Invalidate(i, k, net) =>
        FullKeyInjective(u.cfg.namespace, k, key);
      case InvalidatePattern(i, p, steps, raiseOnError, net) =>
        SweepRemoves(w.data, steps, |steps|, FullKey(u.cfg.namespace, key));
        if key in w.unconfirmed {
          ReturnedSweepIsComplete(Replica(w, i), w.now, u.cfg, net, p, steps, key);
        }
      case HealthPing(_, _) =>
      case Evict(_) =>
      case Tick(_) =>
    }
  }

  lemma {:induction false} AlwaysInSync(r: Run, n: nat)
    requires IsRun(r) && Faithful(r.setup.codec) && n <= |r.events|
    ensures InSync(r.setup, r.worlds[n])
  {
    if n > 0 {
      AlwaysInSync(r, n - 1);
      StepKeepsSync(r.setup, r.worlds[n - 1], r.events[n - 1]);
    }
  }

  /** Event `n` invalidates the key for certain: its `delete` returns True, or a raising
      `delete_pattern` over it returns. */
  ghost predicate Confirms(r: Run, n: nat, key: string)
    requires IsRun(r) && n < |r.events|
  {
    var e, w, cfg := r.events[n], r.worlds[n], r.setup.cfg;
    match e
    case Invalidate(i, k, net) => k == key && net.reply.Done? && Connected(Replica(w, i), cfg, net)
    case InvalidatePattern(i, p, steps, raiseOnError, net) =>
      && key in p && raiseOnError && PassGate(Replica(w, i), w.now, cfg, net).1
      && forall j :: 0 <= j < |steps| ==> steps[j].Found? && steps[j].reply.Done?
    case _ => false
  }

  /** A key is unconfirmed exactly when some update of it has not been followed by such an event. */
  lemma {:induction false} UnconfirmedExactly(r: Run, n: nat, key: string)
    requires IsRun(r) && n <= |r.events|
    ensures key in r.worlds[n].unconfirmed
            <==> exists a :: 0 <= a < n && r.events[a].Update? && r.events[a].key == key
                   && forall b :: a < b < n ==> !Confirms(r, b, key)
  {
    if n > 0 {
      UnconfirmedExactly(r, n - 1, key);
      UnconfirmedStep(r, n - 1, key);
    }
  }

  lemma UnconfirmedStep(r: Run, n: nat, key: string)
    requires IsRun(r) && n < |r.events|
    ensures key in r.worlds[n + 1].unconfirmed
            <==> (r.events[n].Update? && r.events[n].key == key)
                 || (key in r.worlds[n].unconfirmed && !Confirms(r, n, key))
  {
    var e, w, u := r.events[n], r.worlds[n], r.setup;
    match e
    case Invalidate(i, k, net) => DeleteAnswers(Replica(w, i), w.now, u.cfg, net, k);
    case InvalidatePattern(i, p, steps, raiseOnError, net) =>
      DeletePatternAnswers(Replica(w, i), w.now, u.cfg, net, steps, raiseOnError);
    case _ =>
  }

  /** Every read of every run, on a key whose last source write has been invalidated, returns what
      the loader would. */
  ghost predicate AlwaysTransparent(u: Setup) {
    forall r: Run, e: Event ::
      IsRun(r) && r.setup == u && e.Load? && Enabled(u, r.worlds[|r.events|], e)
      && e.key !in r.worlds[|r.events|].unconfirmed ==>
        LoadStep(u, r.worlds[|r.events|], e).1 == Loaded(r.worlds[|r.events|], e.key)
  }

  lemma FaithfulCodecIsTransparent(u: Setup)
    requires Faithful(u.codec)
    ensures AlwaysTransparent(u)
  {
    forall r: Run, e: Event | IsRun(r) && r.setup == u && e.Load? && Enabled(u, r.worlds[|r.events|], e)
                              && e.key !in r.worlds[|r.events|].unconfirmed
      ensures LoadStep(u, r.worlds[|r.events|], e).1 == Loaded(r.worlds[|r.events|], e.key)
    {
      var w := r.worlds[|r.events|];
      AlwaysInSync(r, |r.events|);
      GetKeepsData(Replica(w, e.i), w.now, u.cfg, e.read, u.codec, e.key);
      assert EntryInSync(u, w.data, w.now, e.key, Loaded(w, e.key));
    }
  }

  /** If some value reads back as another, two reads in a row already show it. */
  lemma UnfaithfulCodecIsNotTransparent(u: Setup, v: string)
    requires u.codec.dumps(v).Some? && u.codec.loads(u.codec.dumps(v).value).Some?
    requires u.codec.loads(u.codec.dumps(v).value).value != v
    ensures !AlwaysTransparent(u)
  {
    var fine := Net(true, true, Done);
    var w0 := World(0, map[], [Local(true, true, false, RECOVERED)], map["k" := v], {});
    var load := Load(0, "k", Some(1), fine, fine);
    var w1 := Apply(u, w0, load);
    var r := Run(u, [load], [w0, w1]);
    assert Lookup(w1.data, 0, FullKey(u.cfg.namespace, "k")) == u.codec.dumps(v);
    assert IsRun(r) && Enabled(u, r.worlds[|r.events|], load);
    assert LoadStep(u, r.worlds[|r.events|], load).1 != Loaded(w1, "k");
  }

  /** The cache is transparent in every sequential run exactly when the codec is faithful. */
  lemma TransparentIffFaithful(u: Setup)
    ensures AlwaysTransparent(u) <==> Faithful(u.codec)
  {
    if Faithful(u.codec) {
      FaithfulCodecIsTransparent(u);
    } else {
      var v :| u.codec.dumps(v).Some? && u.codec.loads(u.codec.dumps(v).value).Some?
               && u.codec.loads(u.codec.dumps(v).value).value != v;
      UnfaithfulCodecIsNotTransparent(u, v);
    }
  }

  /** Operations must not overlap: a reader that missed, then loaded, then was overtaken by an
      update and its confirmed delete, puts the old value back. */
  lemma OverlappingReadGoesStale(u: Setup, s: CacheState, now: int, key: string, stale: string)
    requires s.local.client && s.local.latch.healthy && Lookup(s.data, now, FullKey(u.cfg.namespace, key)).None?
    requires u.codec.dumps(stale).Some? && u.codec.loads(u.codec.dumps(stale).value) == Some(stale)
    ensures var fine := Net(true, true, Done);
            var (s1, miss) := Get(s, now, u.cfg, fine, u.codec, key);
            var (s2, confirmed) := Delete(s1, now, u.cfg, fine, key);
            var (s3, _) := Set(s2, now, u.cfg, fine, u.codec, key, stale, Some(60));
            miss.None? && confirmed && Get(s3, now, u.cfg, fine, u.codec, key).1 == Some(stale)
  {
  }
}
