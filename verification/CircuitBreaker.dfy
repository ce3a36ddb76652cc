/** core/circuit_breaker.py:53-143: the breaker's fields as functions of one call. */
module CircuitSpec {
  import opened Common

  datatype Mode = Closed | Open | HalfOpen

  datatype Settings = Settings(threshold: int, timeout: int, maxProbes: int)

  datatype Fields = Fields(failures: int, successes: int, mode: Mode, openedAt: Option<int>, probes: int)

  const INIT := Fields(0, 0, Closed, None, 0)

  datatype Verdict = Admitted | Rejected(retryAfter: int)

  /** The `state` getter: an open breaker whose timeout has passed turns half-open when looked at. */
  function Observe(cfg: Settings, f: Fields, now: int): Fields {
    if f.mode.Open? && f.openedAt.Some? && now - f.openedAt.value >= cfg.timeout
    then f.(mode := HalfOpen, probes := 0)
    else f
  }

  function Check(cfg: Settings, f: Fields, now: int): (Fields, Verdict) {
    var f1 := Observe(cfg, f, now);
    match f1.mode
    case Closed => (f1, Admitted)
    case Open =>
      (f1, Rejected(if f1.openedAt.Some? then Max(0, cfg.timeout - (now - f1.openedAt.value)) else 0))
    case HalfOpen =>
      if f1.probes >= cfg.maxProbes then (f1, Rejected(0)) else (f1.(probes := f1.probes + 1), Admitted)
  }

  function RecordSuccess(f: Fields): Fields {
    Fields(0, f.successes + 1, Closed, None, 0)
  }

  function RecordFailure(cfg: Settings, f: Fields, now: int): Fields {
    var f1 := Observe(cfg, f.(failures := f.failures + 1), now);
    if f1.mode.HalfOpen? then f1.(mode := Open, openedAt := Some(now), probes := 0)
    else if f1.failures >= cfg.threshold then f1.(mode := Open, openedAt := Some(now))
    else f1
  }
}

/** The breaker as a mutable object. */
module CircuitBreaker {
  import opened Common
  import opened CircuitSpec

  class CircuitBreaker {
    const cfg: Settings
    var failureCount: int
    var successCount: int
    var mode: Mode
    var openedAt: Option<int>
    var halfOpenCalls: int

    ghost function View(): Fields
      reads this
    {
      Fields(failureCount, successCount, mode, openedAt, halfOpenCalls)
    }

    constructor (cfg: Settings)
      ensures this.cfg == cfg && View() == INIT
    {
      this.cfg := cfg;
      failureCount, successCount, mode, openedAt, halfOpenCalls := 0, 0, Closed, None, 0;
    }

    method State(now: int) returns (m: Mode)
      modifies this
      ensures View() == Observe(cfg, old(View()), now) && m == View().mode
    {
      if mode.Open? && openedAt.Some? {
        var elapsed := now - openedAt.value;
        if elapsed >= cfg.timeout {
          mode, halfOpenCalls := HalfOpen, 0;
        }
      }
      return mode;
    }

    method Check(now: int) returns (v: Verdict)
      modifies this
      ensures (View(), v) == CircuitSpec.Check(cfg, old(View()), now)
    {
      var current := State(now);
      match current {
        case Closed =>
          return Admitted;
        case Open =>
          var remaining := if openedAt.Some? then cfg.timeout - (now - openedAt.value) else 0;
          return Rejected(Max(0, remaining));
        case HalfOpen =>
          if halfOpenCalls >= cfg.maxProbes {
            return Rejected(0);
          }
          halfOpenCalls := halfOpenCalls + 1;
          return Admitted;
      }
    }

    method RecordSuccess(now: int)
      modifies this
      ensures View() == CircuitSpec.RecordSuccess(old(View()))
    {
      if !mode.HalfOpen? {
        var _ := State(now);
      }
      failureCount := 0;
      successCount := successCount + 1;
      mode, openedAt, halfOpenCalls := Closed, None, 0;
    }

    method RecordFailure(now: int)
      modifies this
      ensures View() == CircuitSpec.RecordFailure(cfg, old(View()), now)
    {
      failureCount := failureCount + 1;
      var halfOpen := mode.HalfOpen?;
      if !halfOpen {
        var m := State(now);
        halfOpen := m.HalfOpen?;
      }
      if halfOpen {
        mode, openedAt, halfOpenCalls := Open, Some(now), 0;
        return;
      }
      if failureCount >= cfg.threshold {
        mode, openedAt := Open, Some(now);
      }
    }
  }
}

/** The breaker as a function of the calls made to it: the fields are an incremental form of three
    quantities of the call history. */
module CircuitHistory {
  import opened Common
  import opened CircuitSpec

  datatype Event = Asked(at: int) | Succeeded(at: int) | Failed(at: int) | Looked(at: int)

  type History = seq<Event>

  ghost predicate Ordered(h: History) {
    forall i, j :: 0 <= i < j < |h| ==> h[i].at <= h[j].at
  }

  ghost predicate NotAfter(h: History, now: int) {
    forall i :: 0 <= i < |h| ==> h[i].at <= now
  }

  function Fold(cfg: Settings, h: History): Fields {
    if h == [] then INIT else Advance(cfg, Fold(cfg, h[..|h| - 1]), h[|h| - 1])
  }

  function Advance(cfg: Settings, f: Fields, e: Event): Fields {
    match e
    case Asked(at) => Check(cfg, f, at).0
    case Succeeded(_) => RecordSuccess(f)
    case Failed(at) => RecordFailure(cfg, f, at)
    case Looked(at) => Observe(cfg, f, at)
  }

  // ----- What the history alone says -----------------------------------------------------

  function FailuresSinceSuccess(h: History): nat {
    if h == [] then 0
    else match h[|h| - 1]
      case Succeeded(_) => 0
      case Failed(_) => FailuresSinceSuccess(h[..|h| - 1]) + 1
      case _ => FailuresSinceSuccess(h[..|h| - 1])
  }

  function LastFailure(h: History): Option<int> {
    if h == [] then None
    else match h[|h| - 1]
      case Failed(at) => Some(at)
      case _ => LastFailure(h[..|h| - 1])
  }

  function ModeAt(cfg: Settings, h: History, now: int): Mode {
    if FailuresSinceSuccess(h) < cfg.threshold then Closed
    else if LastFailure(h).Some? && now - LastFailure(h).value < cfg.timeout then Open
    else HalfOpen
  }

  /** Half-open requests for admission since the last recorded result. */
  function ProbesAsked(cfg: Settings, h: History): nat {
    if h == [] then 0
    else
      var front := h[..|h| - 1];
      match h[|h| - 1]
      case Asked(at) => ProbesAsked(cfg, front) + if ModeAt(cfg, front, at).HalfOpen? then 1 else 0
      case Looked(_) => ProbesAsked(cfg, front)
      case _ => 0
  }

  predicate Admits(cfg: Settings, h: History, now: int) {
    match ModeAt(cfg, h, now)
    case Closed => true
    case Open => false
    case HalfOpen => ProbesAsked(cfg, h) < cfg.maxProbes
  }

  // ----- The fields agree with the history -----------------------------------------------

  /** The field `_state` may lag behind: an open breaker turns half-open only when looked at. */
  ghost predicate Agrees(cfg: Settings, f: Fields, h: History) {
    && f.failures == FailuresSinceSuccess(h)
    && (f.failures < cfg.threshold ==> f.mode.Closed? && f.openedAt.None? && f.probes == 0 && ProbesAsked(cfg, h) == 0)
    && (f.failures >= cfg.threshold ==>
          && LastFailure(h).Some? && f.openedAt == LastFailure(h)
          && (f.mode.Open? || f.mode.HalfOpen?)
          && (f.mode.Open? ==> f.probes == 0 && ProbesAsked(cfg, h) == 0)
          && (f.mode.HalfOpen? ==>
                && f.probes == Min(ProbesAsked(cfg, h), Max(0, cfg.maxProbes))
                && exists i :: 0 <= i < |h| && h[i].at - LastFailure(h).value >= cfg.timeout))
  }

  lemma {:induction false} FoldAgrees(cfg: Settings, h: History)
    requires cfg.threshold >= 1 && Ordered(h)
    ensures Agrees(cfg, Fold(cfg, h), h)
  {
    if h != [] {
      var front, e := h[..|h| - 1], h[|h| - 1];
      FoldAgrees(cfg, front);
      StepAgrees(cfg, Fold(cfg, front), front, e);
      assert front + [e] == h;
    }
  }

  lemma StepAgrees(cfg: Settings, f: Fields, front: History, e: Event)
    requires cfg.threshold >= 1 && Ordered(front + [e]) && Agrees(cfg, f, front)
    ensures Agrees(cfg, Advance(cfg, f, e), front + [e])
  {
    var h := front + [e];
    assert h[..|h| - 1] == front && h[|h| - 1] == e;
    assert forall i :: 0 <= i < |front| ==> h[i] == front[i] && front[i].at <= e.at;
    assert h[|front|].at == e.at;
  }

  /** In every history with a monotone clock, the breaker is closed while fewer failures than the
      threshold have been recorded since the last success; otherwise it is open until the timeout
      has passed since the last failure, and half-open after that.  It admits accordingly, and a
      rejection by an open breaker says exactly how long is left. */
  lemma BreakerFollowsHistory(cfg: Settings, h: History, now: int)
    requires cfg.threshold >= 1 && Ordered(h) && NotAfter(h, now)
    ensures Observe(cfg, Fold(cfg, h), now).mode == ModeAt(cfg, h, now)
    ensures Check(cfg, Fold(cfg, h), now).1.Admitted? <==> Admits(cfg, h, now)
    ensures ModeAt(cfg, h, now).Open? ==>
              LastFailure(h).Some? && Check(cfg, Fold(cfg, h), now).1 == Rejected(LastFailure(h).value + cfg.timeout - now)
  {
    FoldAgrees(cfg, h);
  }

  function Successes(h: History): nat {
    if h == [] then 0 else Successes(h[..|h| - 1]) + if h[|h| - 1].Succeeded? then 1 else 0
  }

  /** The success count is that of the whole history. */
  lemma {:induction false} SuccessesAreCounted(cfg: Settings, h: History)
    ensures Fold(cfg, h).successes == Successes(h)
  {
    if h != [] { SuccessesAreCounted(cfg, h[..|h| - 1]); }
  }

  /** A threshold below one breaks the rule at once: the new breaker is closed although it has
      as many failures as it takes. */
  lemma ThresholdMustBePositive(cfg: Settings, now: int)
    requires cfg.threshold < 1
    ensures Observe(cfg, Fold(cfg, []), now).mode != ModeAt(cfg, [], now)
  {
  }

  // ----- Probes between two results ------------------------------------------------------

  predicate Records(e: Event) { e.Succeeded? || e.Failed? }

  /** Admitted requests among events `i + 1 .. n`. */
  function AdmittedBetween(cfg: Settings, h: History, i: nat, n: nat): nat
    requires i < n <= |h|
    decreases n
  {
    if n == i + 1 then 0
    else
      AdmittedBetween(cfg, h, i, n - 1)
      + if h[n - 1].Asked? && Admits(cfg, h[..n - 1], h[n - 1].at) then 1 else 0
  }

  /** After a failure that leaves the breaker tripped, and until the next result is recorded, it
      admits nobody before the timeout and no more than `half_open_max_calls` requests in all. */
  lemma {:induction false} ProbesBounded(cfg: Settings, h: History, i: nat, n: nat)
    requires i < n <= |h| && h[i].Failed? && FailuresSinceSuccess(h[..i + 1]) >= cfg.threshold
    requires forall k :: i < k < n ==> !Records(h[k])
    ensures AdmittedBetween(cfg, h, i, n) == Min(ProbesAsked(cfg, h[..n]), Max(0, cfg.maxProbes))
    ensures AdmittedBetween(cfg, h, i, n) <= Max(0, cfg.maxProbes)
    ensures FailuresSinceSuccess(h[..n]) >= cfg.threshold && LastFailure(h[..n]) == Some(h[i].at)
    ensures forall k :: i < k < n && h[k].Asked? && Admits(cfg, h[..k], h[k].at) ==> h[k].at >= h[i].at + cfg.timeout
    decreases n
  {
    if n == i + 1 {
      assert h[..n][..|h[..n]| - 1] == h[..i];
    } else {
      ProbesBounded(cfg, h, i, n - 1);
      assert h[..n][..n - 1] == h[..n - 1] && h[..n][n - 1] == h[n - 1];
    }
  }
}
