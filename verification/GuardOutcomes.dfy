/** What each step of `guard` does to its client, and what a client comes away with
    (core/distributed_lock.py:593-709), said of the store and of the arguments of the call. */
module GuardOutcomes {
  import opened Common
  import opened LeaseKey
  import opened GuardProtocol
  import opened GuardCounting
  import opened GuardSafety

  /** The cache holds `v` for the key, unexpired. */
  predicate Stored(s: State, v: string) {
    s.cache.Some? && s.now < s.cache.value.expiry && s.cache.value.value == Some(v)
  }

  /** A read by client `c` that works or fails finds no result. */
  ghost predicate FindsNothing(s: State, c: Client, ok: bool) {
    !c.config.useCache || !ok || forall v :: !Stored(s, v)
  }

  predicate Taken(s: State) { s.lock.Some? && s.now < s.lock.value.expiry }

  // ----- Steps ---------------------------------------------------------------------------

  /** A working read that finds a result serves it, on entry and on every turn of the wait; after
      the acquire it gives the lock back first, and serves it whatever becomes of that. */
  lemma HitIsServed(s: State, i: nat, v: string)
    requires i < |s.clients| && s.clients[i].config.useCache && Stored(s, v)
    ensures s.clients[i].phase.FirstRead? ==>
              Apply(s, ReadFirst(i, true)).clients[i].phase == Finished(CachedResult(v))
    ensures s.clients[i].phase.Rechecking? ==>
              Apply(s, Recheck(i, true)).clients[i].phase == Finished(CachedResult(v))
    ensures s.clients[i].phase.PostRead? ==>
              Apply(s, ReadAgain(i, true)).clients[i].phase == DroppingLock(v)
  {
  }

  lemma DroppedLockServes(s: State, i: nat, v: string, reply: Reply)
    requires i < |s.clients| && s.clients[i].phase == DroppingLock(v)
    ensures Apply(s, DropLock(i, reply)).clients[i].phase == Finished(CachedResult(v))
  {
  }

  /** A turn of the wait that found nothing: past the deadline it gives up as the caller asked,
      before it the client sleeps for the poll interval. */
  predicate WaitsOn(s: State, c: Client, c': Client) {
    c' == c.(phase := if s.now < c.deadline then Sleeping(s.now + c.config.pollMs)
                      else if c.config.returnIfContended then Finished(Declined)
                      else Finished(Refused))
  }

  /** A read that finds nothing: on entry the client goes for the lock, after the acquire it starts
      the handler, in between it waits on. */
  lemma MissMovesOn(s: State, i: nat, ok: bool)
    requires i < |s.clients| && FindsNothing(s, s.clients[i], ok)
    ensures var c := s.clients[i];
            && (c.phase.FirstRead? ==>
                  Apply(s, ReadFirst(i, ok)).clients[i]
                  == c.(phase := Acquiring, deadline := if c.config.waitMs > 0 then s.now + c.config.waitMs else s.now))
            && (c.phase.Rechecking? ==> WaitsOn(s, c, Apply(s, Recheck(i, ok)).clients[i]))
            && (c.phase.PostRead? ==> Apply(s, ReadAgain(i, ok)).clients[i] == c.(phase := Running))
  {
    if CacheValue(s).Some? { assert Stored(s, CacheValue(s).value); }
  }

  /** A sleeping client tries the lock again, as it was, once its sleep is over and no sooner. */
  lemma WakesAfterSleep(s: State, i: nat)
    requires i < |s.clients|
    ensures Enabled(s, Wake(i)) <==> s.clients[i].phase.Sleeping? && s.now >= s.clients[i].phase.wake
    ensures Enabled(s, Wake(i)) ==>
              Apply(s, Wake(i)) == s.(clients := s.clients[i := s.clients[i].(phase := Acquiring)])
  {
  }

  /** SET NX EX: an exception ends the guard, a free key is won under a new token, and at a taken one
      the client looks at the cache again, if it has one. */
  lemma AcquireMoves(s: State, i: nat, reply: Reply)
    requires Enabled(s, Acquire(i, reply))
    ensures var s', c := Apply(s, Acquire(i, reply)), s.clients[i];
            && (reply.Raised() ==> s'.clients[i].phase == Finished(Failed))
            && (reply.Done? && !Taken(s) ==>
                  && s'.lock == Some(Lease(s.nextToken, s.now + 1000 * c.config.ttl))
                  && s'.clients[i].phase.PostRead? && s'.clients[i].token == s.nextToken)
            && (Taken(s) ==> s'.lock == s.lock)
            && (reply.Done? && Taken(s) && c.config.useCache ==> s'.clients[i] == c.(phase := Rechecking))
            && (reply.Done? && Taken(s) && !c.config.useCache ==> WaitsOn(s, c, s'.clients[i]))
  {
  }

  /** The end of a handler: a result is written to the cache, if there is one, before the lock is
      given back; a handler that raised, or set no result, writes nothing. */
  lemma HandlerEnds(s: State, i: nat)
    requires i < |s.clients| && s.clients[i].phase.Running?
    ensures var c := s.clients[i];
            && Apply(s, Raise(i)) == s.(clients := s.clients[i := c.(phase := Releasing)])
            && Apply(s, Return(i)) == s.(clients := s.clients[i := c.(phase :=
                 if c.config.useCache && c.result.Given? then Writing(c.result.value) else Releasing)])
            && forall v :: Apply(s, SetResult(i, v)) == s.(clients := s.clients[i := c.(result := Given(v))])
  {
  }

  lemma ResultIsWrittenThenReleased(s: State, i: nat, reply: Reply)
    requires i < |s.clients|
    ensures Enabled(s, Write(i, reply)) ==>
              var s', c := Apply(s, Write(i, reply)), s.clients[i];
              && s'.cache == (if reply.Lost? then s.cache else Some(Cell(c.phase.payload, s.now + 1000 * c.config.cacheTtl)))
              && s'.clients[i].phase.Releasing? && s'.lock == s.lock
    ensures Enabled(s, Release(i, reply)) ==>
              var s', c := Apply(s, Release(i, reply)), s.clients[i];
              && s'.clients[i].phase == Finished(Worked) && s'.cache == s.cache
              && s'.lock == (if Taken(s) && s.lock.value.token == c.token && !reply.Lost? then None else s.lock)
  {
  }

  /** A client that has not finished can always take a step, at the latest when its sleep is over. */
  lemma NobodyIsStuck(s: State, i: nat)
    requires i < |s.clients| && !s.clients[i].phase.Finished?
    ensures exists ms: nat, e :: Mover(e) == Some(i) && Enabled(Apply(s, Tick(ms)), e)
  {
    var c := s.clients[i];
    var ms: nat := if c.phase.Sleeping? && c.phase.wake > s.now then c.phase.wake - s.now else 0;
    var e := match c.phase
      case FirstRead => ReadFirst(i, true)
      case Acquiring => Acquire(i, Lost)
      case Rechecking => Recheck(i, true)
      case Sleeping(_) => Wake(i)
      case PostRead => ReadAgain(i, true)
      case DroppingLock(_) => DropLock(i, Done)
      case Running => Return(i)
      case Writing(_) => Write(i, Lost)
      case _ => Release(i, Done);
    assert Mover(e) == Some(i) && Enabled(Apply(s, Tick(ms)), e);
  }

  // ----- Faults --------------------------------------------------------------------------

  predicate HoldsLock(s: State, c: Client) { Taken(s) && s.lock.value.token == c.token }

  /** The steps that count as faulty are these and no others. */
  lemma FaultyExactly(s: State, e: Event)
    requires Enabled(s, e)
    ensures Faulty(s, e) <==>
            match e
            case ReadAgain(i, ok) =>
              FindsNothing(s, s.clients[i], ok) && (!HoldsLock(s, s.clients[i]) || exists v :: Stored(s, v))
            case Tick(ms) =>
              || (exists v :: Stored(s, v) && s.cache.value.expiry <= s.now + ms)
              || (exists j :: 0 <= j < |s.clients| && (s.clients[j].phase.Running? || s.clients[j].phase.Writing?)
                    && HoldsLock(s, s.clients[j]) && s.lock.value.expiry <= s.now + ms)
            case Raise(i) => HoldsLock(s, s.clients[i])
            case Return(i) =>
              HoldsLock(s, s.clients[i]) && !(s.clients[i].config.useCache && s.clients[i].result.Given?)
            case Write(i, reply) =>
              || (reply.Raised() && HoldsLock(s, s.clients[i]))
              || (!reply.Lost? && s.clients[i].phase.payload.None?)
            case _ => false
  {
    match e
    case Tick(ms) => TickFaultyExactly(s, ms);
    case ReadAgain(i, ok) =>
      var c := s.clients[i];
      assert (exists v :: Stored(s, v)) <==> CacheValue(s).Some? by {
        if CacheValue(s).Some? { assert Stored(s, CacheValue(s).value); }
      }
      assert LeaseLost in FaultsAt(s, e) <==> StartsHandler(s, e) && !Owns(s, c);
      assert ReadMissed in FaultsAt(s, e) <==> StartsHandler(s, e) && CacheValue(s).Some?;
      assert StartsHandler(s, e) <==> FindsNothing(s, c, ok);
    case Raise(i) => assert HandlerRaised in FaultsAt(s, e) <==> Owns(s, s.clients[i]);
    case Return(i) => assert NoResult in FaultsAt(s, e) <==> Faulty(s, e);
    case Write(i, reply) =>
      assert WriteFailed in FaultsAt(s, e) <==> reply.Raised() && Owns(s, s.clients[i]);
      assert NullResult in FaultsAt(s, e) <==> !reply.Lost? && s.clients[i].phase.payload.None?;
    case _ =>
  }

  lemma TickFaultyExactly(s: State, ms: nat)
    ensures Faulty(s, Tick(ms)) <==>
            || (exists v :: Stored(s, v) && s.cache.value.expiry <= s.now + ms)
            || (exists j :: 0 <= j < |s.clients| && (s.clients[j].phase.Running? || s.clients[j].phase.Writing?)
                  && HoldsLock(s, s.clients[j]) && s.lock.value.expiry <= s.now + ms)
  {
    var e, s' := Tick(ms), Apply(s, Tick(ms));
    assert EntryExpired in FaultsAt(s, e) <==> CacheValue(s).Some? && CacheValue(s').None?;
    assert LeaseLost in FaultsAt(s, e) <==> Active(s) && !Active(s');
    if CacheValue(s).Some? { assert Stored(s, CacheValue(s).value); }
    assert Active(s') ==> Live(s.lock, s'.now);
    if Active(s) {
      var j :| 0 <= j < |s.clients| && Unpublished(s.clients[j]) && Owns(s, s.clients[j]);
      assert HoldsLock(s, s.clients[j]);
      assert Live(s.lock, s'.now) ==> Unpublished(s'.clients[j]) && Owns(s', s'.clients[j]);
    }
  }

  // ----- Outcomes ------------------------------------------------------------------------

  /** The step that ends the guard of client `i` with this outcome. */
  ghost predicate Earns(s: State, e: Event, i: nat, o: Outcome) {
    i < |s.clients| && Mover(e) == Some(i) && Enabled(s, e)
    && var c := s.clients[i];
    match o
    case CachedResult(v) =>
      || (c.phase == DroppingLock(v) && e.DropLock?)
      || ((e.ReadFirst? || e.Recheck?) && e.ok && c.config.useCache && Stored(s, v))
    case Worked => e.Release?
    case Declined => TurnedAway(s, e, c) && c.config.returnIfContended
    case Refused => TurnedAway(s, e, c) && !c.config.returnIfContended
    case Failed => e.Acquire? && e.reply.Raised()
  }

  /** At or after its deadline the client found the key taken, and then no result. */
  ghost predicate TurnedAway(s: State, e: Event, c: Client) {
    && s.now >= c.deadline
    && (|| (e.Recheck? && FindsNothing(s, c, e.ok))
        || (e.Acquire? && e.reply.Done? && Taken(s) && !c.config.useCache))
  }

  lemma FinishingStepEarns(s: State, e: Event, i: nat)
    requires Enabled(s, e) && i < |Apply(s, e).clients| && Apply(s, e).clients[i].phase.Finished?
    ensures i < |s.clients|
    ensures s.clients[i] == Apply(s, e).clients[i] || Earns(s, e, i, Apply(s, e).clients[i].phase.outcome)
    ensures s.clients[i].config == Apply(s, e).clients[i].config
  {
  }

  /** Whatever a finished client came away with, one of its own steps earned it: a cached result was
      read, the handler's guard was released, the wait was over without a result, or acquire raised. */
  lemma {:induction false} EveryOutcomeIsEarned(r: Run, n: nat, i: nat) returns (k: nat)
    requires IsRun(r) && n <= |r.events| && i < |r.states[n].clients| && r.states[n].clients[i].phase.Finished?
    ensures k < n && Earns(r.states[k], r.events[k], i, r.states[n].clients[i].phase.outcome)
    ensures r.states[k].clients[i].config == r.states[n].clients[i].config
  {
    assert n > 0;
    var s, e := r.states[n - 1], r.events[n - 1];
    FinishingStepEarns(s, e, i);
    if s.clients[i] == r.states[n].clients[i] {
      k := EveryOutcomeIsEarned(r, n - 1, i);
    } else {
      k := n - 1;
    }
  }

  /** Clients that have entered and do not hold the lock. */
  predicate Waits(c: Client) { c.phase.Acquiring? || c.phase.Rechecking? || c.phase.Sleeping? }

  lemma WaitingStep(s: State, e: Event, i: nat)
    requires Enabled(s, e) && i < |Apply(s, e).clients| && Waits(Apply(s, e).clients[i])
    ensures i < |s.clients| && s.clients[i].config == Apply(s, e).clients[i].config
    ensures || (Waits(s.clients[i]) && s.clients[i].deadline == Apply(s, e).clients[i].deadline)
            || (e.ReadFirst? && e.i == i
                && Apply(s, e).clients[i].deadline == s.now + Max(s.clients[i].config.waitMs, 0))
  {
  }

  lemma {:induction false} DeadlineFromEntry(r: Run, n: nat, i: nat) returns (a: nat)
    requires IsRun(r) && n <= |r.events| && i < |r.states[n].clients| && Waits(r.states[n].clients[i])
    ensures a < n && r.events[a].ReadFirst? && r.events[a].i == i
    ensures r.states[n].clients[i].deadline == r.states[a].now + Max(r.states[n].clients[i].config.waitMs, 0)
  {
    assert n > 0;
    WaitingStep(r.states[n - 1], r.events[n - 1], i);
    if Waits(r.states[n - 1].clients[i]) && r.states[n - 1].clients[i].deadline == r.states[n].clients[i].deadline {
      a := DeadlineFromEntry(r, n - 1, i);
    } else {
      a := n - 1;
    }
  }

  /** A client gives up only after having waited for as long as it was asked to since its first read
      (event `a`), when (event `k`) the key was taken and no result was to be read; and it is declined
      or refused as the caller asked. */
  lemma GivingUpIsLate(r: Run, i: nat) returns (a: nat, k: nat)
    requires IsRun(r) && i < |Last(r).clients|
    requires Last(r).clients[i].phase == Finished(Declined) || Last(r).clients[i].phase == Finished(Refused)
    ensures a < k < |r.events| && r.events[a].ReadFirst? && r.events[a].i == i
    ensures r.states[k].now >= r.states[a].now + Max(Last(r).clients[i].config.waitMs, 0)
    ensures || (r.events[k].Recheck? && r.events[k].i == i && FindsNothing(r.states[k], Last(r).clients[i], r.events[k].ok))
            || (r.events[k] == Acquire(i, Done) && Taken(r.states[k]) && !Last(r).clients[i].config.useCache)
    ensures Last(r).clients[i].phase == Finished(Declined) <==> Last(r).clients[i].config.returnIfContended
  {
    k := EveryOutcomeIsEarned(r, |r.events|, i);
    a := DeadlineFromEntry(r, k, i);
  }

  lemma RunningStep(s: State, e: Event, i: nat)
    requires Enabled(s, e) && i < |Apply(s, e).clients| && Ran(Apply(s, e).clients[i])
    ensures i < |s.clients|
    ensures Ran(s.clients[i]) || (e.ReadAgain? && e.i == i && s.clients[i].phase.PostRead? && FindsNothing(s, s.clients[i], e.ok))
  {
  }

  /** A client that comes away having worked won the lock, re-read the cache, found nothing and
      started the handler. */
  lemma {:induction false} WorkersHaveStarted(r: Run, n: nat, i: nat) returns (k: nat)
    requires IsRun(r) && n <= |r.events| && i < |r.states[n].clients| && Ran(r.states[n].clients[i])
    ensures k < n && r.events[k].ReadAgain? && r.events[k].i == i && i < |r.states[k].clients|
    ensures r.states[k].clients[i].phase.PostRead? && FindsNothing(r.states[k], r.states[k].clients[i], r.events[k].ok)
  {
    assert n > 0;
    RunningStep(r.states[n - 1], r.events[n - 1], i);
    if Ran(r.states[n - 1].clients[i]) {
      k := WorkersHaveStarted(r, n - 1, i);
    } else {
      k := n - 1;
    }
  }
}
