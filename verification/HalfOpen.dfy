/** The half-open latch that core/redis_cache.py:223-285 and core/distributed_lock.py:329-394 both
    carry, as functions on its fields. */
module HalfOpen {
  import opened Common

  /** `_healthy` and `_unhealthy_since`. */
  datatype Latch = Latch(healthy: bool, since: Option<int>)

  /** What one client object keeps for itself: whether the redis client was built, `_available`,
      whether a coroutine holds `_recovery_lock`, and the latch. */
  datatype Local = Local(client: bool, available: bool, locked: bool, latch: Latch)

  const RECOVERED := Latch(true, None)

  /** `_mark_unhealthy`: the first trip sets the time, later ones leave it. */
  function Trip(l: Latch, now: int): Latch {
    Latch(false, if l.since.None? then Some(now) else l.since)
  }

  /** `_should_attempt_recovery` */
  predicate ProbeDue(l: Latch, now: int, cooldown: int) {
    !l.healthy && (l.since.None? || now - l.since.value >= cooldown)
  }

  /** The answer to a probe: a failed one restarts the cooldown. */
  function AfterProbe(l: Latch, now: int, pong: bool): Latch {
    if pong then RECOVERED else l.(since := Some(now))
  }

  /** A health-check `ping`. */
  function AfterPing(l: Latch, now: int, pong: bool): Latch {
    if pong then RECOVERED else Trip(l, now)
  }

  /** The latch after an undisturbed pass through the health gate, and whether the caller may go on.
      While another coroutine probes, it may not. */
  function Gate(l: Latch, locked: bool, now: int, cooldown: int, pong: bool): (Latch, bool) {
    if l.healthy then (l, true)
    else if !ProbeDue(l, now, cooldown) || locked then (l, false)
    else (AfterProbe(l, now, pong), pong)
  }

  /** `_ensure_client`: the client is built on first use from the URL, if there is one. */
  function Connect(l: Local, hasUrl: bool, connects: bool): Local {
    if l.client || !hasUrl then l
    else if connects then l.(client := true)
    else l.(available := false, latch := l.latch.(healthy := false))
  }
}

/** The latch of one client object under all interleavings of its coroutines.  A probe is the only
    operation that suspends between reading and writing the latch; everything else that touches it
    does so in one step. */
module ProbeProtocol {
  import opened Common
  import opened HalfOpen

  datatype State = State(
    now: int,
    local: Local,
    probing: seq<bool>)     // per coroutine: awaiting the answer to its PING

  datatype Event =
    | Spawn
    | ConnectFails
    | Connects
    | Probe(i: nat)               // gate passed, recovery lock taken, PING sent
    | Answer(i: nat, pong: bool)
    | Cancel(i: nat)              // the probing coroutine is cancelled
    | CommandFails                // any GET/SET/DEL/SCAN/EVAL that raises
    | WriteSucceeds               // `set` flips the latch back by itself
    | HealthPing(pong: bool)
    | Tick(ms: nat)

  predicate Enabled(s: State, e: Event, cooldown: int) {
    match e
    case Spawn => true
    case ConnectFails => !s.local.client
    case Connects => !s.local.client
    case Probe(i) =>
      s.local.client && i < |s.probing| && !s.probing[i] && ProbeDue(s.local.latch, s.now, cooldown) && !s.local.locked
    case Answer(i, _) => i < |s.probing| && s.probing[i]
    case Cancel(i) => i < |s.probing| && s.probing[i]
    case CommandFails => s.local.client
    case WriteSucceeds => s.local.client
    case HealthPing(_) => s.local.client
    case Tick(_) => true
  }

  function WithLatch(s: State, l: Latch): State { s.(local := s.local.(latch := l)) }

  function WithProbe(s: State, i: nat, on: bool): State
    requires i < |s.probing|
  {
    s.(local := s.local.(locked := on), probing := s.probing[i := on])
  }

  function Apply(s: State, e: Event, cooldown: int): State
    requires Enabled(s, e, cooldown)
  {
    var l := s.local.latch;
    match e
    case Spawn => s.(probing := s.probing + [false])
    case ConnectFails => s.(local := HalfOpen.Connect(s.local, true, false))
    case Connects => s.(local := HalfOpen.Connect(s.local, true, true))
    case Probe(i) => WithProbe(s, i, true)
    case Answer(i, pong) => WithProbe(WithLatch(s, AfterProbe(l, s.now, pong)), i, false)
    case Cancel(i) => WithProbe(s, i, false)
    case CommandFails => WithLatch(s, Trip(l, s.now))
    case WriteSucceeds => if l.healthy then s else WithLatch(s, RECOVERED)
    case HealthPing(pong) => WithLatch(s, AfterPing(l, s.now, pong))
    case Tick(ms) => s.(now := s.now + ms)
  }

  datatype Run = Run(cooldown: int, events: seq<Event>, states: seq<State>)

  predicate Fresh(s: State) { !s.local.locked && s.probing == [] }

  ghost predicate IsRun(r: Run) {
    && |r.states| == |r.events| + 1
    && Fresh(r.states[0])
    && forall k :: 0 <= k < |r.events| ==>
         Enabled(r.states[k], r.events[k], r.cooldown)
         && r.states[k + 1] == Apply(r.states[k], r.events[k], r.cooldown)
  }

  /** An undisturbed pass through the health gate is a probe and its answer, or no step at all. */
  lemma GateIsProbe(s: State, i: nat, cooldown: int, pong: bool)
    requires s.local.client && i < |s.probing| && !s.probing[i]
    ensures var (latch, open) := Gate(s.local.latch, s.local.locked, s.now, cooldown, pong);
            if Enabled(s, Probe(i), cooldown)
            then Apply(Apply(s, Probe(i), cooldown), Answer(i, pong), cooldown) == WithLatch(s, latch) && open == pong
            else latch == s.local.latch && open == s.local.latch.healthy
  {
    assert s.probing[i := true][i := false] == s.probing;
  }

  /** A command that fails leaves the time of the first failure, a write heals an open latch and only
      that, and a health check heals the latch or trips it. */
  lemma StepsOnLatch(s: State, cooldown: int, pong: bool)
    requires s.local.client
    ensures var l := s.local.latch;
            var tripped := Latch(false, if l.since.Some? then l.since else Some(s.now));
            && Apply(s, CommandFails, cooldown).local.latch == tripped
            && Apply(s, WriteSucceeds, cooldown).local.latch == (if l.healthy then l else Latch(true, None))
            && Apply(s, HealthPing(pong), cooldown).local.latch == (if pong then Latch(true, None) else tripped)
  {
  }

  // ----- One probe at a time -------------------------------------------------------------

  ghost predicate LockGuardsProbe(s: State) {
    && (forall i :: 0 <= i < |s.probing| && s.probing[i] ==> s.local.locked)
    && (forall i, j :: 0 <= i < j < |s.probing| ==> !(s.probing[i] && s.probing[j]))
  }

  lemma {:induction false} LockAlwaysGuardsProbe(r: Run, n: nat)
    requires IsRun(r) && n <= |r.events|
    ensures LockGuardsProbe(r.states[n])
  {
    if n > 0 { LockAlwaysGuardsProbe(r, n - 1); }
  }

  /** In every reachable state at most one coroutine awaits a probe. */
  lemma OneProbeInFlight(r: Run, n: nat, i: nat, j: nat)
    requires IsRun(r) && n <= |r.events|
    requires i < |r.states[n].probing| && r.states[n].probing[i]
    requires j < |r.states[n].probing| && r.states[n].probing[j]
    ensures i == j
  {
    LockAlwaysGuardsProbe(r, n);
  }

  // ----- Probes are spaced ---------------------------------------------------------------

  /** What stays true after a probe failed at time `t`. */
  predicate CoolingSince(s: State, t: int) {
    && s.local.client
    && t <= s.now
    && (s.local.latch.since.None? ==> s.local.latch.healthy)
    && (s.local.latch.since.Some? ==> t <= s.local.latch.since.value)
  }

  /** A probe is sent only by an object that has its client. */
  ghost predicate ProbersConnected(s: State) {
    forall i :: 0 <= i < |s.probing| && s.probing[i] ==> s.local.client
  }

  lemma {:induction false} ProbersAlwaysConnected(r: Run, n: nat)
    requires IsRun(r) && n <= |r.events|
    ensures ProbersConnected(r.states[n])
  {
    if n > 0 { ProbersAlwaysConnected(r, n - 1); }
  }

  lemma {:induction false} CoolingLasts(r: Run, a: nat, b: nat)
    requires IsRun(r) && a < b <= |r.events| && r.events[a].Answer? && !r.events[a].pong
    ensures CoolingSince(r.states[b], r.states[a].now)
  {
    if b == a + 1 {
      ProbersAlwaysConnected(r, a);
    } else {
      CoolingLasts(r, a, b - 1);
    }
  }

  /** However the coroutines interleave, and whatever trips or heals the latch in between, no
      probe starts earlier than the cooldown after a failed one. */
  lemma ProbesAreSpaced(r: Run, a: nat, b: nat)
    requires IsRun(r) && a < b < |r.events|
    requires r.events[a].Answer? && !r.events[a].pong && r.events[b].Probe?
    ensures r.states[b].now >= r.states[a].now + r.cooldown
  {
    CoolingLasts(r, a, b);
  }

  /** From the first failure on, further failures do not put the next probe off: while nothing
      answers, a probe is due exactly when the cooldown has passed since that first failure. */
  lemma {:induction false} ProbeDueFromFirstFailure(r: Run, a: nat, b: nat)
    requires IsRun(r) && a < b <= |r.events|
    requires r.states[a].local.latch == RECOVERED && r.events[a].CommandFails?
    requires forall k :: a < k < b ==>
               !r.events[k].WriteSucceeds? && !r.events[k].Answer? && r.events[k] != HealthPing(true)
    ensures r.states[b].local.latch == Latch(false, Some(r.states[a].now))
    ensures ProbeDue(r.states[b].local.latch, r.states[b].now, r.cooldown)
            <==> r.states[b].now >= r.states[a].now + r.cooldown
  {
    if b > a + 1 { ProbeDueFromFirstFailure(r, a, b - 1); }
  }

  // ----- A healthy latch with a timestamp ------------------------------------------------

  /** "Healthy means no timestamp" is broken by exactly one kind of step: a probe that fails
      after something else has already healed the latch. */
  predicate Tidy(s: State) { s.local.latch.healthy ==> s.local.latch.since.None? }

  lemma TidyBrokenExactlyByLateFailure(s: State, e: Event, cooldown: int)
    requires Tidy(s) && Enabled(s, e, cooldown)
    ensures !Tidy(Apply(s, e, cooldown)) <==> e.Answer? && !e.pong && s.local.latch.healthy
  {
  }

  /** And it does happen: a write succeeds while the probe is pending, then the probe fails. */
  lemma HealthyWithTimestampReachable(cooldown: nat)
    ensures exists r :: IsRun(r) && r.cooldown == cooldown && Tidy(r.states[0]) && !Tidy(r.states[|r.events|])
  {
    var s0 := State(0, Local(true, true, false, RECOVERED), []);
    var events := [Spawn, CommandFails, Tick(cooldown), Probe(0), WriteSucceeds, Answer(0, false)];
    var s1 := Apply(s0, events[0], cooldown);
    var s2 := Apply(s1, events[1], cooldown);
    var s3 := Apply(s2, events[2], cooldown);
    var s4 := Apply(s3, events[3], cooldown);
    var s5 := Apply(s4, events[4], cooldown);
    var s6 := Apply(s5, events[5], cooldown);
    var r := Run(cooldown, events, [s0, s1, s2, s3, s4, s5, s6]);
    assert IsRun(r) && Tidy(r.states[0]) && !Tidy(r.states[|r.events|]);
  }
}
