/** How often the handler starts (core/distributed_lock.py:593-709): at most once, plus once for
    every step at which something went wrong. */
module GuardCounting {
  import opened Common
  import opened LeaseKey
  import opened GuardProtocol

  // ----- Tokens are unique ---------------------------------------------------------------

  /** Between a successful SET NX and the end of `guard` a client carries a token. */
  predicate HasToken(c: Client) {
    c.phase.PostRead? || c.phase.DroppingLock? || c.phase.Running? || c.phase.Writing? || c.phase.Releasing?
  }

  ghost predicate TokensDistinct(s: State) {
    && (s.lock.Some? ==> s.lock.value.token < s.nextToken)
    && (forall i :: 0 <= i < |s.clients| && HasToken(s.clients[i]) ==> s.clients[i].token < s.nextToken)
    && (forall i, j :: 0 <= i < j < |s.clients| && HasToken(s.clients[i]) && HasToken(s.clients[j]) ==>
          s.clients[i].token != s.clients[j].token)
  }

  /** A step of one client leaves the others' tokens alone, and hands out no token twice. */
  lemma {:induction false} TokensStayDistinct(s: State, e: Event)
    requires TokensDistinct(s) && Enabled(s, e)
    ensures TokensDistinct(Apply(s, e))
  {
    var s' := Apply(s, e);
    if e.Acquire? {
      assert forall j :: 0 <= j < |s.clients| && j != e.i ==> s'.clients[j] == s.clients[j];
      assert HasToken(s'.clients[e.i]) ==> s'.clients[e.i].token == s.nextToken;
    } else {
      assert s'.nextToken == s.nextToken;
      assert s'.lock.Some? ==> s.lock.Some? && s'.lock.value.token == s.lock.value.token;
      forall j | 0 <= j < |s'.clients| && HasToken(s'.clients[j])
        ensures j < |s.clients| && HasToken(s.clients[j]) && s.clients[j].token == s'.clients[j].token
      {
        KeepsToken(s, e, j);
      }
    }
  }

  lemma KeepsToken(s: State, e: Event, j: nat)
    requires Enabled(s, e) && !e.Acquire? && j < |Apply(s, e).clients| && HasToken(Apply(s, e).clients[j])
    ensures j < |s.clients| && HasToken(s.clients[j]) && s.clients[j].token == Apply(s, e).clients[j].token
  {
  }

  // ----- Starts and faults ---------------------------------------------------------------

  /** The handler starts when the read after the acquire comes back empty. */
  predicate StartsHandler(s: State, e: Event) {
    e.ReadAgain? && e.i < |s.clients| && ReadCache(s, s.clients[e.i], e.ok).None?
  }

  datatype Fault =
    | LeaseLost       // the lease ended before its holder had written the result
    | HandlerRaised
    | NoResult        // the handler returned without a result, or there is no cache for it
    | NullResult      // the result was None
    | WriteFailed
    | EntryExpired    // a cached result ran out
    | ReadMissed      // the read after the acquire missed a result that was there

  predicate Unpublished(c: Client) { c.phase.Running? || c.phase.Writing? }

  /** A handler has started, has not published, and still owns the lock. */
  ghost predicate Active(s: State) {
    exists i :: 0 <= i < |s.clients| && Unpublished(s.clients[i]) && Owns(s, s.clients[i])
  }

  ghost function FaultsAt(s: State, e: Event): set<Fault>
    requires Enabled(s, e)
  {
    match e
    case ReadAgain(i, _) =>
      (if StartsHandler(s, e) && CacheValue(s).Some? then {ReadMissed} else {})
      + (if StartsHandler(s, e) && !Owns(s, s.clients[i]) then {LeaseLost} else {})
    case Tick(_) =>
      var s' := Apply(s, e);
      (if CacheValue(s).Some? && CacheValue(s').None? then {EntryExpired} else {})
      + (if Active(s) && !Active(s') then {LeaseLost} else {})
    case Raise(i) => if Owns(s, s.clients[i]) then {HandlerRaised} else {}
    case Return(i) =>
      if Owns(s, s.clients[i]) && Apply(s, e).clients[i].phase.Releasing? then {NoResult} else {}
    case Write(i, r) =>
      var c := s.clients[i];
      (if r.Raised() && Owns(s, c) then {WriteFailed} else {})
      + (if r.TookEffect() && c.phase.payload.None? then {NullResult} else {})
    case _ => {}
  }

  ghost predicate Faulty(s: State, e: Event)
    requires Enabled(s, e)
  {
    FaultsAt(s, e) != {}
  }

  ghost function Starts(r: Run, n: nat): nat
    requires IsRun(r) && n <= |r.events|
  {
    if n == 0 then 0
    else Starts(r, n - 1) + if StartsHandler(r.states[n - 1], r.events[n - 1]) then 1 else 0
  }

  /** The number of steps at which at least one fault happened. */
  ghost function FaultySteps(r: Run, n: nat): nat
    requires IsRun(r) && n <= |r.events|
  {
    if n == 0 then 0
    else FaultySteps(r, n - 1) + if Faulty(r.states[n - 1], r.events[n - 1]) then 1 else 0
  }

  // ----- The bound -----------------------------------------------------------------------

  /** One start is paid for: a result is cached, or a handler is at work under a live lock. */
  ghost predicate Covered(s: State) { CacheValue(s).Some? || Active(s) }

  ghost function One(b: bool): nat { if b then 1 else 0 }

  /** A step that neither ends an unpublished stretch nor touches the clock keeps the cover. */
  lemma CoverIsKept(s: State, e: Event)
    requires TokensDistinct(s) && Enabled(s, e) && Covered(s)
    requires !e.Tick? && !e.Return? && !e.Raise? && !e.Write?
    ensures Covered(Apply(s, e))
  {
    var s' := Apply(s, e);
    assert s'.cache == s.cache && s'.now == s.now;
    if Active(s) {
      var j :| 0 <= j < |s.clients| && Unpublished(s.clients[j]) && Owns(s, s.clients[j]);
      KeepsOwning(s, e, j);
      assert Unpublished(s'.clients[j]) && Owns(s', s'.clients[j]);
    }
  }

  lemma KeepsOwning(s: State, e: Event, j: nat)
    requires TokensDistinct(s) && Enabled(s, e)
    requires j < |s.clients| && Unpublished(s.clients[j]) && Owns(s, s.clients[j])
    requires !e.Tick? && !e.Return? && !e.Raise? && !e.Write?
    ensures j < |Apply(s, e).clients| && Unpublished(Apply(s, e).clients[j]) && Owns(Apply(s, e), Apply(s, e).clients[j])
  {
    match e
    case Extend(i, ttl, r) =>
    case DropLock(i, r) => assert i != j && HasToken(s.clients[i]) && HasToken(s.clients[j]);
    case Release(i, r) => assert i != j && HasToken(s.clients[i]) && HasToken(s.clients[j]);
    case Acquire(i, r) =>
    case _ =>
  }

  /** A start without a fault finds nothing cached and no other handler active. */
  lemma StartIsPaidFor(s: State, e: Event)
    requires TokensDistinct(s) && Enabled(s, e) && StartsHandler(s, e) && !Faulty(s, e)
    ensures !Covered(s) && Covered(Apply(s, e))
  {
    var s' := Apply(s, e);
    var c := s.clients[e.i];
    assert ReadMissed in FaultsAt(s, e) <==> CacheValue(s).Some?;
    assert LeaseLost in FaultsAt(s, e) <==> !Owns(s, c);
    assert Unpublished(s'.clients[e.i]) && Owns(s', s'.clients[e.i]);
    forall j | 0 <= j < |s.clients| && Unpublished(s.clients[j]) && Owns(s, s.clients[j])
      ensures false
    {
      assert j != e.i && HasToken(s.clients[j]) && HasToken(c);
    }
  }

  /** The end of a handler, or of its cache write, loses cover only with a fault. */
  lemma EndIsPaidFor(s: State, e: Event)
    requires TokensDistinct(s) && Enabled(s, e) && (e.Return? || e.Raise? || e.Write?)
    requires Covered(s) && !Faulty(s, e)
    ensures Covered(Apply(s, e))
  {
    var s' := Apply(s, e);
    var c := s.clients[e.i];
    if e.Write? && e.reply.TookEffect() {
      assert NullResult in FaultsAt(s, e) <==> c.phase.payload.None?;
    } else if e.Write? {
      assert WriteFailed in FaultsAt(s, e) <==> Owns(s, c);
    } else if e.Raise? {
      assert HandlerRaised in FaultsAt(s, e) <==> Owns(s, c);
    }
    if Active(s) {
      var j :| 0 <= j < |s.clients| && Unpublished(s.clients[j]) && Owns(s, s.clients[j]);
      if j != e.i || e.Return? {
        assert s'.lock == s.lock && s'.now == s.now;
        assert j == e.i ==> NoResult in FaultsAt(s, e) || Unpublished(s'.clients[j]);
        assert Unpublished(s'.clients[j]) && Owns(s', s'.clients[j]);
      }
    }
  }

  lemma TickIsPaidFor(s: State, e: Event)
    requires Enabled(s, e) && e.Tick? && Covered(s) && !Faulty(s, e)
    ensures Covered(Apply(s, e))
  {
    var s' := Apply(s, e);
    assert EntryExpired in FaultsAt(s, e) <==> CacheValue(s).Some? && CacheValue(s').None?;
    assert LeaseLost in FaultsAt(s, e) <==> Active(s) && !Active(s');
  }

  /** Each step keeps the account: a start, or a loss of cover, comes with a fault. */
  lemma StepIsPaidFor(s: State, e: Event)
    requires TokensDistinct(s) && Enabled(s, e)
    ensures One(StartsHandler(s, e)) + One(Covered(s)) <= One(Faulty(s, e)) + One(Covered(Apply(s, e)))
  {
    if StartsHandler(s, e) && !Faulty(s, e) {
      StartIsPaidFor(s, e);
    } else if Covered(s) {
      if e.Return? || e.Raise? || e.Write? {
        if !Faulty(s, e) { EndIsPaidFor(s, e); }
      } else if e.Tick? {
        if !Faulty(s, e) { TickIsPaidFor(s, e); }
      } else {
        CoverIsKept(s, e);
      }
    }
  }

  lemma {:induction false} StartsArePaidFor(r: Run, n: nat)
    requires IsRun(r) && n <= |r.events|
    ensures TokensDistinct(r.states[n])
    ensures Starts(r, n) <= FaultySteps(r, n) + One(Covered(r.states[n]))
  {
    if n > 0 {
      StartsArePaidFor(r, n - 1);
      TokensStayDistinct(r.states[n - 1], r.events[n - 1]);
      StepIsPaidFor(r.states[n - 1], r.events[n - 1]);
    }
  }

  /** Over every interleaving of any number of clients, the handler starts at most once more
      than there are steps with a fault. */
  lemma HandlerStartsBounded(r: Run)
    requires IsRun(r)
    ensures Starts(r, |r.events|) <= 1 + FaultySteps(r, |r.events|)
  {
    StartsArePaidFor(r, |r.events|);
  }
}
