/** Read-throughs, updates and invalidations that overlap (core/redis_cache.py:331-596).  A
    `get_or_load` is three steps, the miss, the loader and the `set`; a `delete_pattern` is a scan
    with a DEL for each key; and any step of any replica may come between them. */
module OverlapCoherence {
  import opened Common
  import opened HalfOpen
  import opened CacheSpec
  import R = ReplicaCoherence

  /** One `get_or_load` of replica `i`. */
  datatype Load =
    | Missed(i: nat, key: string, ttl: Option<int>)
    | Fetched(i: nat, key: string, ttl: Option<int>, value: string)
    | Over

  /** One `delete_pattern` of replica `i`.  It was started after the last update of each key in
      `covers`, and the scan still has to yield each full key in `due`: those that were live when it
      started and have been ever since. */
  datatype Scan = Scan(i: nat, covers: set<string>, due: set<string>) | Ended

  datatype World = World(
    now: int,
    data: Data,
    replicas: seq<Local>,
    source: map<string, string>,
    unconfirmed: set<string>,    // updated, and not invalidated since
    loads: seq<Load>,
    scans: seq<Scan>)

  datatype Event =
    | Read(i: nat, key: string, ttl: Option<int>, net: Net)
    | Fetch(j: nat)
    | Store(j: nat, net: Net)
    | Update(key: string, value: Option<string>)
    | Invalidate(i: nat, key: string, net: Net)
    | StartScan(i: nat, pattern: iset<string>, net: Net)
    | ScanDelete(j: nat, fullKey: string, reply: Reply)
    | ScanFails(j: nat)
    | EndScan(j: nat)
    | HealthPing(i: nat, net: Net)
    | Evict(keys: set<string>)
    | Tick(ms: nat)

  type Setup = R.Setup

  ghost predicate Enabled(w: World, e: Event) {
    match e
    case Read(i, _, _, _) => i < |w.replicas|
    case Fetch(j) => j < |w.loads| && w.loads[j].Missed?
    case Store(j, _) => j < |w.loads| && w.loads[j].Fetched? && w.loads[j].i < |w.replicas|
    case Invalidate(i, _, _) => i < |w.replicas|
    case StartScan(i, _, _) => i < |w.replicas|
    case ScanDelete(j, _, _) => j < |w.scans| && w.scans[j].Scan? && w.scans[j].i < |w.replicas|
    case ScanFails(j) => j < |w.scans| && w.scans[j].Scan? && w.scans[j].i < |w.replicas|
    // SCAN yields every key that is there from its start to its end.
    case EndScan(j) => j < |w.scans| && w.scans[j].Scan? && w.scans[j].due == {}
    case HealthPing(i, _) => i < |w.replicas|
    case _ => true
  }

  function Replica(w: World, i: nat): CacheState
    requires i < |w.replicas|
  {
    CacheState(w.replicas[i], w.data)
  }

  function With(w: World, i: nat, s: CacheState): World
    requires i < |w.replicas|
  {
    w.(data := s.data, replicas := w.replicas[i := s.local])
  }

  function Loaded(w: World, key: string): Option<string> {
    if key in w.source then Some(w.source[key]) else None
  }

  /** An update is newer than every scan under way. */
  function Uncovered(c: Scan, key: string): Scan {
    if c.Scan? then c.(covers := c.covers - {key}) else c
  }

  ghost function LiveMatches(u: Setup, w: World, pattern: iset<string>): set<string> {
    set f | f in w.data && Lookup(w.data, w.now, f).Some? && R.Matches(u.cfg, pattern, f)
  }

  /** The step itself. */
  ghost function Do(u: Setup, w: World, e: Event): World
    requires Enabled(w, e)
  {
    match e
    case Read(i, key, ttl, net) =>
      var (s, hit) := Get(Replica(w, i), w.now, u.cfg, net, u.codec, key);
      With(w, i, s).(loads := if hit.Some? then w.loads else w.loads + [Missed(i, key, ttl)])
    case Fetch(j) =>
      var l, v := w.loads[j], Loaded(w, w.loads[j].key);
      w.(loads := w.loads[j := if v.Some? then Fetched(l.i, l.key, l.ttl, v.value) else Over])
    case Store(j, net) =>
      var l := w.loads[j];
      With(w, l.i, Set(Replica(w, l.i), w.now, u.cfg, net, u.codec, l.key, l.value, l.ttl).0).(loads := w.loads[j := Over])
    case Update(key, v) =>
      w.(source := if v.Some? then w.source[key := v.value] else w.source - {key},
         unconfirmed := w.unconfirmed + {key},
         scans := seq(|w.scans|, j requires 0 <= j < |w.scans| => Uncovered(w.scans[j], key)))
    case Invalidate(i, key, net) =>
      var (s, ok) := Delete(Replica(w, i), w.now, u.cfg, net, key);
      With(w, i, s).(unconfirmed := if ok then w.unconfirmed - {key} else w.unconfirmed)
    case StartScan(i, p, net) =>
      var (s, open) := PassGate(Replica(w, i), w.now, u.cfg, net);
      var covers := set k | k in w.unconfirmed && k in p;
      With(w, i, s).(scans := if open then w.scans + [Scan(i, covers, LiveMatches(u, w, p))] else w.scans)
    case ScanDelete(j, f, r) =>
      var c := w.scans[j];
      var w1 := if r.TookEffect() then w.(data := w.data - {f}) else w;
      if r.Raised() then With(w1, c.i, Tripped(Replica(w1, c.i), w.now)).(scans := w.scans[j := Ended]) else w1
    case ScanFails(j) =>
      var i := w.scans[j].i;
      With(w, i, Tripped(Replica(w, i), w.now)).(scans := w.scans[j := Ended])
    case EndScan(j) => w.(unconfirmed := w.unconfirmed - w.scans[j].covers, scans := w.scans[j := Ended])
    case HealthPing(i, net) => With(w, i, Ping(Replica(w, i), w.now, u.cfg, net).0)
    case Evict(keys) => w.(data := w.data - keys)
    case Tick(ms) => w.(now := w.now + ms)
  }

  function Refreshed(c: Scan, data: Data, now: int): Scan {
    if c.Scan? then c.(due := set f | f in c.due && Lookup(data, now, f).Some?) else c
  }

  /** The step, after which no scan owes a key that has gone. */
  ghost function Apply(u: Setup, w: World, e: Event): World
    requires Enabled(w, e)
  {
    var w' := Do(u, w, e);
    w'.(scans := seq(|w'.scans|, j requires 0 <= j < |w'.scans| => Refreshed(w'.scans[j], w'.data, w'.now)))
  }

  datatype Run = Run(setup: Setup, events: seq<Event>, worlds: seq<World>)

  ghost predicate IsRun(r: Run) {
    && |r.worlds| == |r.events| + 1
    && r.worlds[0].data == map[] && r.worlds[0].unconfirmed == {} && r.worlds[0].loads == [] && r.worlds[0].scans == []
    && forall k :: 0 <= k < |r.events| ==>
         Enabled(r.worlds[k], r.events[k]) && r.worlds[k + 1] == Apply(r.setup, r.worlds[k], r.events[k])
  }

  // ----- One load ------------------------------------------------------------------------

  /** With nothing in between, the miss, the loader and the store are `get_or_load`. */
  lemma LoadIsItsSteps(u: Setup, w: World, i: nat, key: string, ttl: Option<int>, read: Net, write: Net)
    requires i < |w.replicas|
    ensures var (s, value) := GetOrLoad(Replica(w, i), w.now, u.cfg, read, write, u.codec, key, Loaded(w, key), ttl);
            var j, w1 := |w.loads|, Apply(u, w, Read(i, key, ttl, read));
            if |w1.loads| == j then
              value == Get(Replica(w, i), w.now, u.cfg, read, u.codec, key).1 && value.Some? && Replica(w1, i) == s
            else
              && w1.loads == w.loads + [Missed(i, key, ttl)]
              && var w2 := Apply(u, w1, Fetch(j));
              && (value.None? <==> w2.loads[j].Over?)
              && (value.None? ==> Replica(w2, i) == s)
              && (value.Some? ==>
                    && w2.loads[j] == Fetched(i, key, ttl, value.value)
                    && Replica(Apply(u, w2, Store(j, write)), i) == s
                    && Apply(u, w2, Store(j, write)).loads[j].Over?)
  {
    GetKeepsRest(u, w, i, key, ttl, read);
  }

  lemma GetKeepsRest(u: Setup, w: World, i: nat, key: string, ttl: Option<int>, read: Net)
    requires i < |w.replicas|
    ensures var w1 := Apply(u, w, Read(i, key, ttl, read));
            w1.source == w.source && w1.now == w.now && w1.data == w.data && |w1.replicas| == |w.replicas|
  {
    R.GetKeepsData(Replica(w, i), w.now, u.cfg, read, u.codec, key);
  }

  // ----- What confirms an update ---------------------------------------------------------

  predicate Updates(e: Event, key: string) { e.Update? && e.key == key }

  /** A `delete` that is answered, whatever the latch, confirms the updates of its key so far, and its
      key is gone. */
  lemma DeleteConfirms(u: Setup, w: World, i: nat, key: string, net: Net)
    requires i < |w.replicas| && Connected(Replica(w, i), u.cfg, net) && net.reply.Done?
    ensures var w' := Apply(u, w, Invalidate(i, key, net));
            key !in w'.unconfirmed && FullKey(u.cfg.namespace, key) !in w'.data
  {
    DeleteAnswers(Replica(w, i), w.now, u.cfg, net, key);
  }

  /** Once scan `j` has begun over a key, it covers the key, unless that needs no confirmation or is
      updated again, until it ends. */
  lemma {:induction false} ScanCovers(r: Run, a: nat, b: nat, key: string)
    requires IsRun(r) && a < b <= |r.events| && r.events[a].StartScan? && key in r.events[a].pattern
    requires PassGate(Replica(r.worlds[a], r.events[a].i), r.worlds[a].now, r.setup.cfg, r.events[a].net).1
    requires forall k :: a < k < b ==> !Updates(r.events[k], key)
    ensures var j := |r.worlds[a].scans|;
            && j < |r.worlds[b].scans|
            && (key in r.worlds[b].unconfirmed && r.worlds[b].scans[j].Scan? ==> key in r.worlds[b].scans[j].covers)
  {
    if b > a + 1 { ScanCovers(r, a, b - 1, key); }
  }

  /** A scan that ends without an exception confirms every key of its pattern that was not updated
      since it began. */
  lemma EndedScanConfirms(r: Run, a: nat, b: nat, key: string)
    requires IsRun(r) && a < b < |r.events| && r.events[a].StartScan? && key in r.events[a].pattern
    requires PassGate(Replica(r.worlds[a], r.events[a].i), r.worlds[a].now, r.setup.cfg, r.events[a].net).1
    requires r.events[b] == EndScan(|r.worlds[a].scans|) && forall k :: a < k < b ==> !Updates(r.events[k], key)
    ensures key !in r.worlds[b + 1].unconfirmed
  {
    ScanCovers(r, a, b, key);
  }

  // ----- Coherence and what threatens it --------------------------------------------------

  /** Scan `j` was started after the last update of the key, and is past it. */
  predicate PastBy(u: Setup, c: Scan, key: string) {
    c.Scan? && key in c.covers && FullKey(u.cfg.namespace, key) !in c.due
  }

  /** The key is invalidated: its last update is confirmed, or a scan under way is past it. */
  ghost predicate Invalidated(u: Setup, w: World, key: string) {
    key !in w.unconfirmed || exists j :: 0 <= j < |w.scans| && PastBy(u, w.scans[j], key)
  }

  ghost predicate Coherent(u: Setup, w: World) {
    forall key :: Invalidated(u, w, key) ==> R.EntryInSync(u, w.data, w.now, key, Loaded(w, key))
  }

  predicate CanWrite(u: Setup, w: World, i: nat) {
    i < |w.replicas| && (w.replicas[i].client || u.cfg.hasUrl)
  }

  predicate Cacheable(u: Setup, value: string) {
    u.codec.dumps(value).Some? && u.codec.loads(u.codec.dumps(value).value) == Some(value)
  }

  /** A load about to store a value that the source no longer has. */
  predicate Stale(u: Setup, w: World, l: Load) {
    && l.Fetched? && Loaded(w, l.key) != Some(l.value)
    && CanWrite(u, w, l.i) && Cacheable(u, l.value)
    && (if l.ttl.Some? then l.ttl.value else u.cfg.defaultTtl) > 0
  }

  ghost predicate Threatened(u: Setup, w: World) {
    exists j :: 0 <= j < |w.loads| && Stale(u, w, w.loads[j]) && Invalidated(u, w, w.loads[j].key)
  }

  // ----- Without a threat every step keeps coherence --------------------------------------

  /** A key that a step invalidates has no live entry after it. */
  lemma NewlyInvalidatedIsAbsent(u: Setup, w: World, e: Event, key: string)
    requires Enabled(w, e) && !Invalidated(u, w, key) && Invalidated(u, Apply(u, w, e), key)
    ensures Lookup(Apply(u, w, e).data, Apply(u, w, e).now, FullKey(u.cfg.namespace, key)).None?
  {
    var w', f := Apply(u, w, e), FullKey(u.cfg.namespace, key);
    if key in w'.unconfirmed {
      var j :| 0 <= j < |w'.scans| && PastBy(u, w'.scans[j], key);
      if e.StartScan? && j == |w.scans| {
        assert key in e.pattern && R.Matches(u.cfg, e.pattern, f);
      } else {
        assert w.scans[j].Scan? && key in w.scans[j].covers;
        assert !PastBy(u, w.scans[j], key);
      }
    } else if e.EndScan? {
      EndedScanWasPast(u, w, e, key);
    }
  }

  lemma EndedScanWasPast(u: Setup, w: World, e: Event, key: string)
    requires Enabled(w, e) && e.EndScan?
    ensures key in w.scans[e.j].covers ==> Invalidated(u, w, key)
  {
    assert key in w.scans[e.j].covers ==> PastBy(u, w.scans[e.j], key);
  }

  lemma UpdatedIsNotInvalidated(u: Setup, w: World, e: Event)
    requires Enabled(w, e) && e.Update?
    ensures !Invalidated(u, Apply(u, w, e), e.key)
  {
  }

  lemma StepKeepsCoherence(u: Setup, w: World, e: Event)
    requires R.Faithful(u.codec) && Enabled(w, e) && Coherent(u, w) && !Threatened(u, w)
    ensures Coherent(u, Apply(u, w, e))
  {
    var w' := Apply(u, w, e);
    forall key | Invalidated(u, w', key)
      ensures R.EntryInSync(u, w'.data, w'.now, key, Loaded(w', key))
    {
      if !Invalidated(u, w, key) {
        NewlyInvalidatedIsAbsent(u, w, e, key);
      } else {
        KeyStaysInSync(u, w, e, key);
      }
    }
  }

  lemma KeyStaysInSync(u: Setup, w: World, e: Event, key: string)
    requires R.Faithful(u.codec) && Enabled(w, e) && !Threatened(u, w)
    requires Invalidated(u, w, key) && Invalidated(u, Apply(u, w, e), key)
    requires R.EntryInSync(u, w.data, w.now, key, Loaded(w, key))
    ensures R.EntryInSync(u, Apply(u, w, e).data, Apply(u, w, e).now, key, Loaded(Apply(u, w, e), key))
  {
    if e.Store? {
      assert w.loads[e.j].key == key ==> !Stale(u, w, w.loads[e.j]);
      StoreStaysInSync(u, w, e, key);
    } else {
      if e.Update? { UpdatedIsNotInvalidated(u, w, e); }
      hide Invalidated, Threatened, Apply;
      OthersOnlyRemove(u, w, e, FullKey(u.cfg.namespace, key), key);
    }
  }

  lemma StoreStaysInSync(u: Setup, w: World, e: Event, key: string)
    requires R.Faithful(u.codec) && Enabled(w, e) && e.Store?
    requires w.loads[e.j].key == key ==> !Stale(u, w, w.loads[e.j])
    requires R.EntryInSync(u, w.data, w.now, key, Loaded(w, key))
    ensures R.EntryInSync(u, Apply(u, w, e).data, Apply(u, w, e).now, key, Loaded(Apply(u, w, e), key))
  {
    R.FullKeyInjective(u.cfg.namespace, w.loads[e.j].key, key);
  }

  /** No step but a store puts an entry into Redis, and none but an update changes the source. */
  lemma OthersOnlyRemove(u: Setup, w: World, e: Event, fullKey: string, key: string)
    requires Enabled(w, e) && !e.Store?
    ensures var w' := Apply(u, w, e);
            && (Lookup(w'.data, w'.now, fullKey).Some? ==> Lookup(w'.data, w'.now, fullKey) == Lookup(w.data, w.now, fullKey))
            && (!(e.Update? && e.key == key) ==> Loaded(w', key) == Loaded(w, key))
  {
    if e.Read? { R.GetKeepsData(Replica(w, e.i), w.now, u.cfg, e.net, u.codec, e.key); }
  }

  // ----- With a threat the next store breaks it -------------------------------------------

  lemma StoreKeepsInvalidated(u: Setup, w: World, e: Event, key: string)
    requires Enabled(w, e) && e.Store? && Invalidated(u, w, key)
    ensures Invalidated(u, Apply(u, w, e), key)
  {
    if key in w.unconfirmed {
      var j :| 0 <= j < |w.scans| && PastBy(u, w.scans[j], key);
      assert PastBy(u, Apply(u, w, e).scans[j], key);
    }
  }

  lemma ThreatComesTrue(u: Setup, w: World) returns (e: Event)
    requires Threatened(u, w)
    ensures Enabled(w, e) && !Coherent(u, Apply(u, w, e))
  {
    var j :| 0 <= j < |w.loads| && Stale(u, w, w.loads[j]) && Invalidated(u, w, w.loads[j].key);
    e := Store(j, Net(true, true, Done));
    StoreKeepsInvalidated(u, w, e, w.loads[j].key);
    var w' := Apply(u, w, e);
    assert Lookup(w'.data, w'.now, FullKey(u.cfg.namespace, w.loads[j].key)) == u.codec.dumps(w.loads[j].value);
    assert Loaded(w', w.loads[j].key) == Loaded(w, w.loads[j].key);
  }

  // ----- Where threats come from ----------------------------------------------------------

  /** The step invalidates a key, by a DEL that is confirmed or by a scan that gets past it, while a
      load still holds an older value of it. */
  ghost predicate InvalidatesTooEarly(u: Setup, w: World, e: Event)
    requires Enabled(w, e)
  {
    var w' := Apply(u, w, e);
    exists j :: 0 <= j < |w'.loads| && Stale(u, w', w'.loads[j])
      && !Invalidated(u, w, w'.loads[j].key) && Invalidated(u, w', w'.loads[j].key)
  }

  /** A stale load was stale before, unless its key has just been updated. */
  lemma StaleWasStale(u: Setup, w: World, e: Event, j: nat)
    requires Enabled(w, e) && j < |Apply(u, w, e).loads| && Stale(u, Apply(u, w, e), Apply(u, w, e).loads[j])
    ensures j < |w.loads| && w.loads[j] == Apply(u, w, e).loads[j]
    ensures Stale(u, w, w.loads[j]) || (e.Update? && e.key == w.loads[j].key)
  {
  }

  /** Nothing but a premature invalidation brings a threat. */
  lemma ThreatsComeFromInvalidations(u: Setup, w: World, e: Event)
    requires Enabled(w, e) && !Threatened(u, w)
    ensures Threatened(u, Apply(u, w, e)) <==> InvalidatesTooEarly(u, w, e)
  {
    var w' := Apply(u, w, e);
    if Threatened(u, w') {
      var j :| 0 <= j < |w'.loads| && Stale(u, w', w'.loads[j]) && Invalidated(u, w', w'.loads[j].key);
      StaleWasStale(u, w, e, j);
      if e.Update? { UpdatedIsNotInvalidated(u, w, e); }
      assert Stale(u, w, w.loads[j]);
    }
  }

  // ----- Runs ----------------------------------------------------------------------------

  /** No key is invalidated while a load holds an older value of it. */
  ghost predicate Patient(r: Run)
    requires IsRun(r)
  {
    forall n :: 0 <= n < |r.events| ==> !InvalidatesTooEarly(r.setup, r.worlds[n], r.events[n])
  }

  /** Wherever the run stands, whatever comes next leaves every invalidated key in step with the
      source. */
  ghost predicate StaysCoherent(r: Run)
    requires IsRun(r)
  {
    forall n, e :: 0 <= n <= |r.events| && Enabled(r.worlds[n], e) ==> Coherent(r.setup, Apply(r.setup, r.worlds[n], e))
  }

  lemma {:induction false} PatientRunsAreCoherent(r: Run, n: nat)
    requires IsRun(r) && R.Faithful(r.setup.codec) && Patient(r) && n <= |r.events|
    ensures Coherent(r.setup, r.worlds[n]) && !Threatened(r.setup, r.worlds[n])
  {
    if n > 0 {
      PatientRunsAreCoherent(r, n - 1);
      StepKeepsCoherence(r.setup, r.worlds[n - 1], r.events[n - 1]);
      ThreatsComeFromInvalidations(r.setup, r.worlds[n - 1], r.events[n - 1]);
    }
  }

  /** Over every interleaving, with any failures, the cache stays coherent exactly when no key is
      invalidated while a load that fetched an older value of it has yet to store it. */
  lemma CoherentIffPatient(r: Run)
    requires IsRun(r) && R.Faithful(r.setup.codec)
    ensures StaysCoherent(r) <==> Patient(r)
  {
    if Patient(r) {
      forall n, e | 0 <= n <= |r.events| && Enabled(r.worlds[n], e)
        ensures Coherent(r.setup, Apply(r.setup, r.worlds[n], e))
      {
        PatientRunsAreCoherent(r, n);
        StepKeepsCoherence(r.setup, r.worlds[n], e);
      }
    } else {
      var n :| 0 <= n < |r.events| && InvalidatesTooEarly(r.setup, r.worlds[n], r.events[n]);
      assert Threatened(r.setup, r.worlds[n + 1]);
      var e := ThreatComesTrue(r.setup, r.worlds[n + 1]);
    }
  }

  /** In such a run a read of a key whose last update is confirmed returns what the source holds, or
      misses. */
  lemma PatientReadsAreCurrent(r: Run, i: nat, key: string, net: Net)
    requires IsRun(r) && R.Faithful(r.setup.codec) && Patient(r)
    requires var w := r.worlds[|r.events|]; i < |w.replicas| && key !in w.unconfirmed
    ensures var w := r.worlds[|r.events|];
            var value := Get(Replica(w, i), w.now, r.setup.cfg, net, r.setup.codec, key).1;
            value.Some? ==> value == Loaded(w, key)
  {
    var w := r.worlds[|r.events|];
    PatientRunsAreCoherent(r, |r.events|);
    R.GetKeepsData(Replica(w, i), w.now, r.setup.cfg, net, r.setup.codec, key);
    assert Invalidated(r.setup, w, key);
  }
}
