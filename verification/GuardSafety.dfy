/** What a client may rely on while it holds the lock, and where cached results come from
    (core/distributed_lock.py:426-512 and 593-688). */
module GuardSafety {
  import opened Common
  import opened LeaseKey
  import opened GuardProtocol
  import opened GuardCounting

  // ----- Leases --------------------------------------------------------------------------

  /** Client `c` holds a token whose lease, as far as it knows, has not run out. */
  predicate Holds(s: State, c: Client) { HasToken(c) && s.now < c.lease }

  /** Every client's idea of its lease is a lower bound on what the store will honour. */
  ghost predicate LeasesHonoured(s: State) {
    forall i :: 0 <= i < |s.clients| && Holds(s, s.clients[i]) ==>
      s.lock.Some? && s.lock.value.token == s.clients[i].token && s.clients[i].lease <= s.lock.value.expiry
  }

  lemma StepHonoursLeases(s: State, e: Event)
    requires TokensDistinct(s) && LeasesHonoured(s) && Enabled(s, e)
    ensures LeasesHonoured(Apply(s, e))
  {
    var s' := Apply(s, e);
    forall j | 0 <= j < |s'.clients| && Holds(s', s'.clients[j])
      ensures s'.lock.Some? && s'.lock.value.token == s'.clients[j].token && s'.clients[j].lease <= s'.lock.value.expiry
    {
      if !e.Acquire? {
        KeepsToken(s, e, j);
        StepHonoursLease(s, e, j);
      } else if j != e.i {
        assert s'.clients[j] == s.clients[j];
      }
    }
  }

  lemma StepHonoursLease(s: State, e: Event, j: nat)
    requires TokensDistinct(s) && LeasesHonoured(s) && Enabled(s, e) && !e.Acquire?
    requires j < |s.clients| && HasToken(s.clients[j]) && j < |Apply(s, e).clients|
    requires Holds(Apply(s, e), Apply(s, e).clients[j])
    ensures var s' := Apply(s, e);
            s'.lock.Some? && s'.lock.value.token == s'.clients[j].token && s'.clients[j].lease <= s'.lock.value.expiry
  {
    match e
    case DropLock(i, r) => assert i != j && HasToken(s.clients[i]);
    case Release(i, r) => assert i != j && HasToken(s.clients[i]);
    case Extend(i, ttl, r) => assert HasToken(s.clients[i]);
    case _ => NobodyMovesLock(s, e, j);
  }

  lemma NobodyMovesLock(s: State, e: Event, j: nat)
    requires Enabled(s, e) && !e.Acquire? && !e.DropLock? && !e.Release? && !e.Extend?
    requires j < |s.clients| && HasToken(s.clients[j])
    ensures var s' := Apply(s, e);
            s'.lock == s.lock && s'.now >= s.now && j < |s'.clients| && s'.clients[j].lease == s.clients[j].lease
  {
  }

  lemma {:induction false} LeasesAlwaysHonoured(r: Run, n: nat)
    requires IsRun(r) && n <= |r.events|
    ensures TokensDistinct(r.states[n]) && LeasesHonoured(r.states[n])
  {
    StartsArePaidFor(r, n);
    if n > 0 {
      LeasesAlwaysHonoured(r, n - 1);
      StepHonoursLeases(r.states[n - 1], r.events[n - 1]);
    }
  }

  /** In every reachable state a client with an unexpired lease owns the store entry, and no
      other client holds an unexpired lease. */
  lemma MutualExclusion(r: Run, i: nat, j: nat)
    requires IsRun(r) && i < |Last(r).clients| && j < |Last(r).clients|
    requires Holds(Last(r), Last(r).clients[i])
    ensures Owns(Last(r), Last(r).clients[i])
    ensures Holds(Last(r), Last(r).clients[j]) ==> i == j
  {
    LeasesAlwaysHonoured(r, |r.events|);
  }

  /** The client that takes step `e`, if it is a step of one client. */
  function Mover(e: Event): Option<nat> {
    match e
    case Enter(_) => None
    case Tick(_) => None
    case ReadFirst(i, _) => Some(i)
    case Acquire(i, _) => Some(i)
    case Recheck(i, _) => Some(i)
    case Wake(i) => Some(i)
    case ReadAgain(i, _) => Some(i)
    case DropLock(i, _) => Some(i)
    case SetResult(i, _) => Some(i)
    case Extend(i, _, _) => Some(i)
    case Return(i) => Some(i)
    case Raise(i) => Some(i)
    case Write(i, _) => Some(i)
    case Release(i, _) => Some(i)
  }

  /** A live lock changes only by a release or an extend of the client that owns it: nobody
      else's release, extend or SET NX moves it. */
  lemma LiveLockIsUntouchable(r: Run, e: Event)
    requires IsRun(r) && Enabled(Last(r), e)
    requires Live(Last(r).lock, Last(r).now)
    ensures Apply(Last(r), e).lock != Last(r).lock ==>
              && (e.Extend? || e.Release? || e.DropLock?)
              && e.i < |Last(r).clients| && Owns(Last(r), Last(r).clients[e.i])
    ensures forall j | 0 <= j < |Last(r).clients| && HasToken(Last(r).clients[j]) && Owns(Last(r), Last(r).clients[j]) ::
              Mover(e) != Some(j) ==> Apply(Last(r), e).lock == Last(r).lock
  {
    LeasesAlwaysHonoured(r, |r.events|);
    var s := Last(r);
    forall j | 0 <= j < |s.clients| && HasToken(s.clients[j]) && Owns(s, s.clients[j]) && Mover(e) != Some(j)
      ensures Apply(s, e).lock == s.lock
    {
      if e.Extend? || e.Release? || e.DropLock? {
        assert HasToken(s.clients[e.i]) && e.i != j;
      }
    }
  }

  // ----- Where results come from ---------------------------------------------------------

  /** `v` is in the cache, or some client has taken it from there. */
  ghost predicate Seen(s: State, v: string) {
    || (s.cache.Some? && s.cache.value.value == Some(v))
    || exists i :: 0 <= i < |s.clients| && Took(s.clients[i], v)
  }

  predicate Took(c: Client, v: string) {
    c.phase == DroppingLock(v) || c.phase == Finished(CachedResult(v))
  }

  /** The client's handler is over and `v` is the result it was given last. */
  predicate Settled(c: Client, v: string) {
    (c.phase.Releasing? || c.phase == Finished(Worked)) && c.result == Given(Some(v))
  }

  ghost predicate WritesOwnResult(s: State) {
    forall i :: 0 <= i < |s.clients| && s.clients[i].phase.Writing? ==>
      s.clients[i].result == Given(s.clients[i].phase.payload)
  }

  ghost predicate SomeSettled(s: State, v: string) {
    exists i :: 0 <= i < |s.clients| && Settled(s.clients[i], v)
  }

  ghost predicate ResultsTraced(s: State) {
    WritesOwnResult(s) && forall v :: Seen(s, v) ==> SomeSettled(s, v)
  }

  lemma StepWritesOwnResult(s: State, e: Event)
    requires WritesOwnResult(s) && Enabled(s, e)
    ensures WritesOwnResult(Apply(s, e))
  {
  }

  lemma SettledStays(s: State, e: Event, i: nat, v: string)
    requires Enabled(s, e) && i < |s.clients| && Settled(s.clients[i], v)
    ensures i < |Apply(s, e).clients| && Settled(Apply(s, e).clients[i], v)
  {
  }

  lemma StepKeepsResultsTraced(s: State, e: Event)
    requires ResultsTraced(s) && Enabled(s, e)
    ensures ResultsTraced(Apply(s, e))
  {
    var s' := Apply(s, e);
    StepWritesOwnResult(s, e);
    forall v | Seen(s', v)
      ensures SomeSettled(s', v)
    {
      NewlySeen(s, e, v);
      if Seen(s, v) {
        var i: nat :| i < |s.clients| && Settled(s.clients[i], v);
        SettledStays(s, e, i, v);
      } else {
        assert Settled(s'.clients[e.i], v);
      }
    }
  }

  /** Only a cache write makes a value visible that was not. */
  lemma NewlySeen(s: State, e: Event, v: string)
    requires Enabled(s, e) && Seen(Apply(s, e), v)
    ensures Seen(s, v)
              || (e.Write? && s.clients[e.i].phase == Writing(Some(v)) && Apply(s, e).clients[e.i].phase.Releasing?)
  {
    var s' := Apply(s, e);
    if !(s'.cache.Some? && s'.cache.value.value == Some(v)) {
      var i: nat :| i < |s'.clients| && Took(s'.clients[i], v);
      TookFromCache(s, e, i, v);
    }
  }

  lemma TookFromCache(s: State, e: Event, i: nat, v: string)
    requires Enabled(s, e) && i < |Apply(s, e).clients| && Took(Apply(s, e).clients[i], v)
    ensures (i < |s.clients| && Took(s.clients[i], v)) || CacheValue(s) == Some(v)
  {
  }

  lemma {:induction false} ResultsAlwaysTraced(r: Run, n: nat)
    requires IsRun(r) && n <= |r.events|
    ensures ResultsTraced(r.states[n])
  {
    if n > 0 {
      ResultsAlwaysTraced(r, n - 1);
      StepKeepsResultsTraced(r.states[n - 1], r.events[n - 1]);
    }
  }

  /** A client's result is what its own last `set_result` gave it, while it ran the handler. */
  lemma {:induction false} ResultsAreGiven(r: Run, n: nat, i: nat, v: Option<string>) returns (k: nat)
    requires IsRun(r) && n <= |r.events| && i < |r.states[n].clients|
    requires r.states[n].clients[i].result == Given(v)
    ensures k < n && r.events[k] == SetResult(i, v)
  {
    assert n > 0;
    var s, e := r.states[n - 1], r.events[n - 1];
    if e == SetResult(i, v) {
      k := n - 1;
    } else {
      ResultKept(s, e, i, v);
      k := ResultsAreGiven(r, n - 1, i, v);
    }
  }

  lemma ResultKept(s: State, e: Event, i: nat, v: Option<string>)
    requires Enabled(s, e) && i < |Apply(s, e).clients| && Apply(s, e).clients[i].result == Given(v)
    ensures e == SetResult(i, v) || (i < |s.clients| && s.clients[i].result == Given(v))
  {
  }

  /** Every outcome marked `is_cached` carries a value that some client gave to `set_result`
      while it was running the handler under its own token. */
  lemma CachedResultsComeFromHolders(r: Run, i: nat, v: string)
    requires IsRun(r) && i < |Last(r).clients| && Last(r).clients[i].phase == Finished(CachedResult(v))
    ensures exists k: nat, j: nat :: k < |r.events| && r.events[k] == SetResult(j, Some(v))
              && j < |r.states[k].clients| && r.states[k].clients[j].phase.Running?
  {
    ResultsAlwaysTraced(r, |r.events|);
    assert Took(Last(r).clients[i], v);
    assert Seen(Last(r), v) && SomeSettled(Last(r), v);
    var j: nat :| 0 <= j < |Last(r).clients| && Settled(Last(r).clients[j], v);
    var k := ResultsAreGiven(r, |r.events|, j, Some(v));
    assert Enabled(r.states[k], r.events[k]);
  }

  // ----- Agreement -----------------------------------------------------------------------

  predicate Ran(c: Client) {
    c.phase.Running? || c.phase.Writing? || c.phase.Releasing? || c.phase == Finished(Worked)
  }

  /** While the handler has started at most once, at most one client has run it. */
  lemma {:induction false} RanIsCounted(r: Run, n: nat)
    requires IsRun(r) && n <= |r.events|
    ensures forall i :: 0 <= i < |r.states[n].clients| && Ran(r.states[n].clients[i]) ==> Starts(r, n) >= 1
    ensures forall i, j | 0 <= i < j < |r.states[n].clients| ::
              Ran(r.states[n].clients[i]) && Ran(r.states[n].clients[j]) ==> Starts(r, n) >= 2
  {
    if n > 0 {
      RanIsCounted(r, n - 1);
      var s, e := r.states[n - 1], r.events[n - 1];
      forall i | 0 <= i < |Apply(s, e).clients| && Ran(Apply(s, e).clients[i])
        ensures (i < |s.clients| && Ran(s.clients[i])) || (StartsHandler(s, e) && i == e.i)
      {
      }
    }
  }

  /** A value client `c` finished with, whether it ran the handler or read the cache. */
  predicate FinishedWith(c: Client, v: string) {
    c.phase == Finished(CachedResult(v)) || (c.phase == Finished(Worked) && c.result == Given(Some(v)))
  }

  lemma FinishersTraced(r: Run, i: nat, v: string) returns (k: nat)
    requires IsRun(r) && i < |Last(r).clients| && FinishedWith(Last(r).clients[i], v)
    ensures k < |Last(r).clients| && Settled(Last(r).clients[k], v)
  {
    ResultsAlwaysTraced(r, |r.events|);
    if Settled(Last(r).clients[i], v) {
      k := i;
    } else {
      assert Took(Last(r).clients[i], v);
      assert Seen(Last(r), v) && SomeSettled(Last(r), v);
      k :| k < |Last(r).clients| && Settled(Last(r).clients[k], v);
    }
  }

  /** If the handler started once, every client that finished with a value has the same one. */
  lemma OneStartOneValue(r: Run, i: nat, j: nat, v: string, w: string)
    requires IsRun(r) && Starts(r, |r.events|) <= 1
    requires i < |Last(r).clients| && FinishedWith(Last(r).clients[i], v)
    requires j < |Last(r).clients| && FinishedWith(Last(r).clients[j], w)
    ensures v == w
  {
    var i' := FinishersTraced(r, i, v);
    var j' := FinishersTraced(r, j, w);
    RanIsCounted(r, |r.events|);
    assert Ran(Last(r).clients[i']) && Ran(Last(r).clients[j']);
  }

  // ----- Runs without faults -------------------------------------------------------------

  predicate Finalised(c: Client) {
    (c.phase.Releasing? || c.phase == Finished(Worked)) ==> c.result.Given? && c.result.value.Some?
  }

  /** What no fault means: a handler that has not published owns the lock, and one that is over has
      left a result. */
  ghost predicate Faultless(s: State) {
    && (forall i :: 0 <= i < |s.clients| && Unpublished(s.clients[i]) ==> Owns(s, s.clients[i]))
    && (forall i :: 0 <= i < |s.clients| ==> Finalised(s.clients[i]))
  }

  lemma TickKeepsOwning(s: State, e: Event, j: nat)
    requires TokensDistinct(s) && Enabled(s, e) && e.Tick? && !Faulty(s, e)
    requires j < |s.clients| && Unpublished(s.clients[j]) && Owns(s, s.clients[j])
    ensures Owns(Apply(s, e), Apply(s, e).clients[j])
  {
    assert Active(s);
    assert LeaseLost in FaultsAt(s, e) <==> Active(s) && !Active(Apply(s, e));
    var k :| 0 <= k < |s.clients| && Unpublished(s.clients[k]) && Owns(Apply(s, e), s.clients[k]);
    assert HasToken(s.clients[j]) && HasToken(s.clients[k]);
  }

  lemma RaiseIsFault(s: State, e: Event)
    requires Enabled(s, e)
    ensures e.Raise? && Owns(s, s.clients[e.i]) ==> Faulty(s, e)
  {
    if e.Raise? {
      assert HandlerRaised in FaultsAt(s, e) <==> Owns(s, s.clients[e.i]);
    }
  }

  /** Without a fault a handler leaves its unpublished stretch only by a write that goes through. */
  lemma EndIsPublication(s: State, e: Event)
    requires Enabled(s, e) && (e.Return? || e.Raise? || e.Write?) && !Faulty(s, e)
    requires Faultless(s) && WritesOwnResult(s)
    ensures Apply(s, e).clients[e.i].phase.Writing?
            || (e.Write? && Finalised(Apply(s, e).clients[e.i]) && Apply(s, e).clients[e.i].phase.Releasing?)
  {
    var c := s.clients[e.i];
    assert Owns(s, c);
    RaiseIsFault(s, e);
    if e.Return? {
      assert NoResult in FaultsAt(s, e) <==> Apply(s, e).clients[e.i].phase.Releasing?;
    } else if e.Write? {
      assert WriteFailed in FaultsAt(s, e) <==> e.reply.Raised();
      assert NullResult in FaultsAt(s, e) <==> e.reply.TookEffect() && c.phase.payload.None?;
    }
  }

  lemma UnpublishedStillOwns(s: State, e: Event, j: nat)
    requires TokensDistinct(s) && Faultless(s) && WritesOwnResult(s) && Enabled(s, e) && !Faulty(s, e)
    requires j < |Apply(s, e).clients| && Unpublished(Apply(s, e).clients[j])
    ensures Owns(Apply(s, e), Apply(s, e).clients[j])
  {
    var s' := Apply(s, e);
    if j < |s.clients| && Unpublished(s.clients[j]) {
      if e.Tick? {
        TickKeepsOwning(s, e, j);
      } else if e.Return? || e.Raise? || e.Write? {
        assert s'.lock == s.lock && s'.now == s.now && s'.clients[j].token == s.clients[j].token;
      } else {
        KeepsOwning(s, e, j);
      }
    } else {
      assert StartsHandler(s, e) && j == e.i;
      assert LeaseLost in FaultsAt(s, e) <==> !Owns(s, s.clients[j]);
    }
  }

  lemma StepStaysFaultless(s: State, e: Event)
    requires TokensDistinct(s) && Faultless(s) && WritesOwnResult(s) && Enabled(s, e) && !Faulty(s, e)
    ensures Faultless(Apply(s, e))
  {
    var s' := Apply(s, e);
    forall j | 0 <= j < |s'.clients| && Unpublished(s'.clients[j]) ensures Owns(s', s'.clients[j]) {
      UnpublishedStillOwns(s, e, j);
    }
    if e.Return? || e.Raise? || e.Write? { EndIsPublication(s, e); }
    forall j | 0 <= j < |s'.clients| ensures Finalised(s'.clients[j]) {
      StaysFinalised(s, e, j);
    }
  }

  lemma StaysFinalised(s: State, e: Event, j: nat)
    requires Enabled(s, e) && j < |Apply(s, e).clients|
    requires j < |s.clients| ==> Finalised(s.clients[j])
    requires (e.Return? || e.Raise? || e.Write?) && e.i == j ==>
               Apply(s, e).clients[j].phase.Writing? || Finalised(Apply(s, e).clients[j])
    ensures Finalised(Apply(s, e).clients[j])
  {
  }

  lemma {:induction false} FaultFreeStaysFaultless(r: Run, n: nat)
    requires IsRun(r) && n <= |r.events| && FaultySteps(r, n) == 0
    ensures Faultless(r.states[n])
  {
    if n > 0 {
      FaultFreeStaysFaultless(r, n - 1);
      StartsArePaidFor(r, n - 1);
      ResultsAlwaysTraced(r, n - 1);
      StepStaysFaultless(r.states[n - 1], r.events[n - 1]);
    }
  }

  /** What a client came away with, if it is done: it ran the handler, or it was given the cached
      result. */
  predicate Served(c: Client) { c.phase == Finished(Worked) || (c.phase.Finished? && c.phase.outcome.CachedResult?) }

  ghost predicate AllServed(cs: seq<Client>, v: string) {
    forall i :: 0 <= i < |cs| && Served(cs[i]) ==> FinishedWith(cs[i], v)
  }

  /** The idempotent-retry contract.  In every run without faults the handler starts at most once,
      and there is one value with which everybody comes away, worker and retriers alike.  Only the
      refused and the failed come away without. */
  lemma FaultFreeRunsAgree(r: Run)
    requires IsRun(r) && FaultySteps(r, |r.events|) == 0
    ensures Starts(r, |r.events|) <= 1
    ensures exists v :: AllServed(Last(r).clients, v)
  {
    HandlerStartsBounded(r);
    FaultFreeStaysFaultless(r, |r.events|);
    var cs := Last(r).clients;
    forall i | 0 <= i < |cs| && Served(cs[i]) ensures exists v :: FinishedWith(cs[i], v) {
      assert Finalised(cs[i]);
      assert FinishedWith(cs[i], if cs[i].phase == Finished(Worked) then cs[i].result.value.value else cs[i].phase.outcome.value);
    }
    if i :| 0 <= i < |cs| && Served(cs[i]) {
      var v :| FinishedWith(cs[i], v);
      forall j | 0 <= j < |cs| && Served(cs[j]) ensures FinishedWith(cs[j], v) {
        var w :| FinishedWith(cs[j], w);
        OneStartOneValue(r, i, j, v, w);
      }
      assert AllServed(cs, v);
    } else {
      assert AllServed(cs, "");
    }
  }

  // ----- The bound is reached ------------------------------------------------------------

  function Then(r: Run, e: Event): Run
    requires |r.states| == |r.events| + 1 && Enabled(r.states[|r.events|], e)
  {
    Run(r.events + [e], r.states + [Apply(r.states[|r.events|], e)])
  }

  lemma {:induction false} CountsOfPrefix(r: Run, e: Event, n: nat)
    requires IsRun(r) && Enabled(Last(r), e) && n <= |r.events|
    ensures IsRun(Then(r, e))
    ensures Starts(Then(r, e), n) == Starts(r, n) && FaultySteps(Then(r, e), n) == FaultySteps(r, n)
  {
    if n > 0 { CountsOfPrefix(r, e, n - 1); }
  }

  lemma CountsOfThen(r: Run, e: Event)
    requires IsRun(r) && Enabled(Last(r), e)
    ensures var r' := Then(r, e);
            && IsRun(r') && Last(r') == Apply(Last(r), e)
            && Starts(r', |r'.events|) == Starts(r, |r.events|) + One(StartsHandler(Last(r), e))
            && FaultySteps(r', |r'.events|) == FaultySteps(r, |r.events|) + One(Faulty(Last(r), e))
  {
    CountsOfPrefix(r, e, |r.events|);
  }

  const CAREFUL := Config(60, true, 300, 0, 50, false)

  /** One more client arrives at a free lock and an empty cache, and starts the handler. */
  lemma OneMoreStart(r: Run) returns (r': Run)
    requires IsRun(r) && Last(r).lock.None? && Last(r).cache.None?
    ensures IsRun(r') && Starts(r', |r'.events|) == Starts(r, |r.events|) + 1
    ensures FaultySteps(r', |r'.events|) == FaultySteps(r, |r.events|)
    ensures Last(r').cache.None?
    ensures |Last(r').clients| == |Last(r).clients| + 1
    ensures Last(r').clients[|Last(r).clients|].phase.Running?
    ensures Owns(Last(r'), Last(r').clients[|Last(r).clients|])
  {
    hide Starts, FaultySteps, Then;
    var i := |Last(r).clients|;
    CountsOfThen(r, Enter(CAREFUL));
    r' := Then(r, Enter(CAREFUL));
    CountsOfThen(r', ReadFirst(i, true));
    r' := Then(r', ReadFirst(i, true));
    CountsOfThen(r', Acquire(i, Done));
    r' := Then(r', Acquire(i, Done));
    CountsOfThen(r', ReadAgain(i, true));
    r' := Then(r', ReadAgain(i, true));
  }

  /** The handler raises, and the lock is released. */
  lemma HandlerRaises(r: Run, i: nat) returns (r': Run)
    requires IsRun(r) && i < |Last(r).clients| && Last(r).clients[i].phase.Running? && Owns(Last(r), Last(r).clients[i])
    ensures IsRun(r') && Starts(r', |r'.events|) == Starts(r, |r.events|)
    ensures FaultySteps(r', |r'.events|) == FaultySteps(r, |r.events|) + 1
    ensures Last(r').lock.None? && Last(r').cache == Last(r).cache
  {
    hide Starts, FaultySteps, Then;
    assert FaultsAt(Last(r), Raise(i)) == {HandlerRaised};
    CountsOfThen(r, Raise(i));
    r' := Then(r, Raise(i));
    CountsOfThen(r', Release(i, Done));
    r' := Then(r', Release(i, Done));
  }

  /** `n` handlers in a row that all raise. */
  lemma {:induction false} FailingHandlers(n: nat) returns (r: Run)
    ensures IsRun(r) && Starts(r, |r.events|) == n && FaultySteps(r, |r.events|) == n
    ensures Last(r).lock.None? && Last(r).cache.None?
  {
    if n == 0 {
      r := Run([], [INIT]);
    } else {
      r := FailingHandlers(n - 1);
      var i := |Last(r).clients|;
      r := OneMoreStart(r);
      r := HandlerRaises(r, i);
    }
  }

  /** `HandlerStartsBounded` cannot be improved: for every number of faults some run reaches it. */
  lemma BoundIsReached(n: nat)
    ensures exists r :: IsRun(r) && FaultySteps(r, |r.events|) == n && Starts(r, |r.events|) == n + 1
  {
    var r := FailingHandlers(n);
    r := OneMoreStart(r);
  }
}
