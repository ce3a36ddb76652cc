/** core/service_client_base.py:149-162: concurrent requests through one breaker. */
module ServiceClient {
  import opened CircuitSpec
  import CB = CircuitBreaker
  import H = CircuitHistory

  /** How an admitted request ends.  `OtherError` is every exception that `_request` does not
      catch, cancellation included. */
  datatype Ending = Status(code: int) | ConnectError | Timeout | OtherError

  predicate Recorded(e: Ending) { !e.OtherError? }

  predicate CountsAsFailure(e: Ending) {
    e.ConnectError? || e.Timeout? || (e.Status? && e.code >= 500)
  }

  function Record(cfg: Settings, f: Fields, e: Ending, now: int): Fields {
    if !Recorded(e) then f
    else if CountsAsFailure(e) then RecordFailure(cfg, f, now)
    else RecordSuccess(f)
  }

  datatype Reply = Refused(retryAfter: int) | Response(code: int) | Raised(ending: Ending)

  class Client {
    const breaker: CB.CircuitBreaker

    constructor (breaker: CB.CircuitBreaker)
      ensures this.breaker == breaker
    {
      this.breaker := breaker;
    }

    /** One request with nothing else in between: it starts at `start` and ends at `end`. */
    method Request(ending: Ending, start: int, end: int) returns (r: Reply)
      modifies breaker
      ensures var (asked, v) := Check(breaker.cfg, old(breaker.View()), start);
              && (v.Rejected? ==> breaker.View() == asked && r == Refused(v.retryAfter))
              && (v.Admitted? ==> r == if ending.Status? then Response(ending.code) else Raised(ending))
              && (v.Admitted? && ending.Status? && ending.code < 500 ==> breaker.View() == RecordSuccess(asked))
              && (v.Admitted? && ending.Status? && ending.code >= 500 ==> breaker.View() == RecordFailure(breaker.cfg, asked, end))
              && (v.Admitted? && (ending.ConnectError? || ending.Timeout?) ==>
                    breaker.View() == RecordFailure(breaker.cfg, asked, end))
              && (v.Admitted? && ending.OtherError? ==> breaker.View() == asked)
    {
      var v := breaker.Check(start);
      if v.Rejected? {
        return Refused(v.retryAfter);
      }
      match ending {
        case Status(code) =>
          if code >= 500 {
            breaker.RecordFailure(end);
          } else {
            breaker.RecordSuccess(end);
          }
          return Response(code);
        case ConnectError =>
          breaker.RecordFailure(end);
          return Raised(ending);
        case Timeout =>
          breaker.RecordFailure(end);
          return Raised(ending);
        case OtherError =>
          return Raised(ending);
      }
    }
  }

  // ----- Many requests at once -----------------------------------------------------------

  /** `inFlight` counts admitted requests that have not ended, `leaked` those that have ended
      without a record since the last record. */
  datatype State = State(now: int, breaker: Fields, inFlight: nat, leaked: nat)

  datatype Event = Begin | End(ending: Ending) | Tick(ms: nat)

  const START := State(0, INIT, 0, 0)

  function Step(cfg: Settings, s: State, e: Event): State {
    match e
    case Begin =>
      var (f, v) := Check(cfg, s.breaker, s.now);
      s.(breaker := f, inFlight := if v.Admitted? then s.inFlight + 1 else s.inFlight)
    case End(ending) =>
      if s.inFlight == 0 then s
      else if Recorded(ending) then State(s.now, Record(cfg, s.breaker, ending, s.now), s.inFlight - 1, 0)
      else s.(inFlight := s.inFlight - 1, leaked := s.leaked + 1)
    case Tick(ms) => s.(now := s.now + ms)
  }

  function Exec(cfg: Settings, s: State, es: seq<Event>): State {
    if es == [] then s else Step(cfg, Exec(cfg, s, es[..|es| - 1]), es[|es| - 1])
  }

  // ----- The breaker follows the responses ------------------------------------------------

  /** The call a step makes to the breaker: a request asks; a status below 500 is a success; a status
      of 500 or more, a ConnectError and a timeout are failures; any other ending is nothing. */
  function CallOf(s: State, e: Event): seq<H.Event> {
    match e
    case Begin => [H.Asked(s.now)]
    case End(ending) =>
      if s.inFlight == 0 || ending.OtherError? then []
      else if ending.Status? && ending.code < 500 then [H.Succeeded(s.now)]
      else [H.Failed(s.now)]
    case Tick(_) => []
  }

  function Calls(cfg: Settings, es: seq<Event>): H.History {
    if es == [] then []
    else Calls(cfg, es[..|es| - 1]) + CallOf(Exec(cfg, START, es[..|es| - 1]), es[|es| - 1])
  }

  lemma StepIsCall(cfg: Settings, s: State, e: Event)
    ensures var s', c := Step(cfg, s, e), CallOf(s, e);
            && s'.now >= s.now
            && (if c == [] then s'.breaker == s.breaker
                else |c| == 1 && c[0].at == s.now && s'.breaker == H.Advance(cfg, s.breaker, c[0]))
  {
  }

  lemma FoldSnoc(cfg: Settings, h: H.History, e: H.Event)
    ensures H.Fold(cfg, h + [e]) == H.Advance(cfg, H.Fold(cfg, h), e)
    ensures H.FailuresSinceSuccess(h + [e]) ==
            if e.Succeeded? then 0 else H.FailuresSinceSuccess(h) + if e.Failed? then 1 else 0
  {
    assert (h + [e])[..|h + [e]| - 1] == h;
  }

  lemma OrderedSnoc(h: H.History, now: int, c: seq<H.Event>, later: int)
    requires H.Ordered(h) && H.NotAfter(h, now) && now <= later
    requires |c| <= 1 && forall e :: e in c ==> e.at == now
    ensures H.Ordered(h + c) && H.NotAfter(h + c, later)
  {
    assert forall i :: 0 <= i < |c| ==> c[i] in c;
  }

  /** The breaker of a client is the breaker of these calls. */
  lemma {:induction false} BreakerIsFoldOfCalls(cfg: Settings, es: seq<Event>)
    ensures var s, h := Exec(cfg, START, es), Calls(cfg, es);
            s.breaker == H.Fold(cfg, h) && H.Ordered(h) && H.NotAfter(h, s.now)
  {
    if es != [] {
      var front := es[..|es| - 1];
      var s, e, h := Exec(cfg, START, front), es[|es| - 1], Calls(cfg, front);
      BreakerIsFoldOfCalls(cfg, front);
      StepIsCall(cfg, s, e);
      OrderedSnoc(h, s.now, CallOf(s, e), Exec(cfg, START, es).now);
      hide Step, CallOf, H.Fold, H.Advance, H.Ordered, H.NotAfter;
      if CallOf(s, e) == [] {
        assert h + CallOf(s, e) == h;
      } else {
        FoldSnoc(cfg, h, CallOf(s, e)[0]);
        assert h + CallOf(s, e) == h + [CallOf(s, e)[0]];
      }
    }
  }

  /** Failing endings since the last status below 500, by the endings of admitted requests alone. */
  function FailingEndings(cfg: Settings, es: seq<Event>): nat {
    if es == [] then 0
    else
      var front, e := es[..|es| - 1], es[|es| - 1];
      if !e.End? || e.ending.OtherError? || Exec(cfg, START, front).inFlight == 0 then FailingEndings(cfg, front)
      else if e.ending.Status? && e.ending.code < 500 then 0
      else FailingEndings(cfg, front) + 1
  }

  lemma {:induction false} FailingEndingsAreFailures(cfg: Settings, es: seq<Event>)
    ensures H.FailuresSinceSuccess(Calls(cfg, es)) == FailingEndings(cfg, es)
  {
    if es != [] {
      var front := es[..|es| - 1];
      var s, e, h := Exec(cfg, START, front), es[|es| - 1], Calls(cfg, front);
      FailingEndingsAreFailures(cfg, front);
      EndingIsCall(cfg, es);
      hide CallOf, FailingEndings, H.FailuresSinceSuccess;
      if CallOf(s, e) == [] {
        assert h + CallOf(s, e) == h;
      } else {
        FoldSnoc(cfg, h, CallOf(s, e)[0]);
        assert h + CallOf(s, e) == h + [CallOf(s, e)[0]];
      }
    }
  }

  lemma EndingIsCall(cfg: Settings, es: seq<Event>)
    requires es != []
    ensures var front := es[..|es| - 1];
            var c := CallOf(Exec(cfg, START, front), es[|es| - 1]);
            && |c| <= 1
            && FailingEndings(cfg, es) ==
               if c != [] && c[0].Succeeded? then 0
               else FailingEndings(cfg, front) + if c != [] && c[0].Failed? then 1 else 0
  {
  }

  /** In every run of concurrent requests the breaker is closed exactly while fewer failing endings
      than the threshold have followed the last status below 500; then it admits every request. */
  lemma ClosedIffFewFailures(cfg: Settings, es: seq<Event>)
    requires cfg.threshold >= 1
    ensures var s := Exec(cfg, START, es);
            && (Observe(cfg, s.breaker, s.now).mode.Closed? <==> FailingEndings(cfg, es) < cfg.threshold)
            && (FailingEndings(cfg, es) < cfg.threshold ==> Check(cfg, s.breaker, s.now).1.Admitted?)
  {
    BreakerIsFoldOfCalls(cfg, es);
    FailingEndingsAreFailures(cfg, es);
    H.BreakerFollowsHistory(cfg, Calls(cfg, es), Exec(cfg, START, es).now);
  }

  // ----- Probe slots ---------------------------------------------------------------------

  /** All probe slots of a half-open breaker are taken. */
  predicate Full(cfg: Settings, s: State) {
    s.breaker.mode.HalfOpen? && s.breaker.probes >= cfg.maxProbes
  }

  lemma {:induction false} SlotsAreAccountedFor(cfg: Settings, es: seq<Event>)
    ensures var s := Exec(cfg, START, es); s.breaker.mode.HalfOpen? ==> s.breaker.probes <= s.inFlight + s.leaked
  {
    if es != [] { SlotsAreAccountedFor(cfg, es[..|es| - 1]); }
  }

  lemma {:induction false} NothingLeaks(cfg: Settings, es: seq<Event>)
    requires forall i :: 0 <= i < |es| && es[i].End? ==> Recorded(es[i].ending)
    ensures Exec(cfg, START, es).leaked == 0
  {
    if es != [] { NothingLeaks(cfg, es[..|es| - 1]); }
  }

  /** If every admitted request ends with a response, a ConnectError or a timeout, a full
      half-open breaker always has a request in flight, and its end moves the breaker. */
  lemma NoWedge(cfg: Settings, es: seq<Event>, ending: Ending)
    requires cfg.maxProbes >= 1 && Recorded(ending)
    requires forall i :: 0 <= i < |es| && es[i].End? ==> Recorded(es[i].ending)
    requires Full(cfg, Exec(cfg, START, es))
    ensures Exec(cfg, START, es).inFlight >= cfg.maxProbes
    ensures !Step(cfg, Exec(cfg, START, es), End(ending)).breaker.mode.HalfOpen?
  {
    SlotsAreAccountedFor(cfg, es);
    NothingLeaks(cfg, es);
  }

  /** Once stuck, no request, result or passage of time changes the breaker. */
  ghost predicate StuckForever(cfg: Settings, s: State) {
    forall es :: Full(cfg, Exec(cfg, s, es))
  }

  lemma {:induction false} IdleFullStaysFull(cfg: Settings, s: State, es: seq<Event>)
    requires Full(cfg, s) && s.inFlight == 0
    ensures Full(cfg, Exec(cfg, s, es)) && Exec(cfg, s, es).inFlight == 0
  {
    if es != [] { IdleFullStaysFull(cfg, s, es[..|es| - 1]); }
  }

  /** A full half-open breaker is wedged for good exactly when nothing is in flight; in a run this
      takes as many leaked probes as there are slots. */
  lemma WedgedIffAllSlotsLeaked(cfg: Settings, es: seq<Event>)
    requires Full(cfg, Exec(cfg, START, es))
    ensures StuckForever(cfg, Exec(cfg, START, es)) <==> Exec(cfg, START, es).inFlight == 0
    ensures StuckForever(cfg, Exec(cfg, START, es)) ==> Exec(cfg, START, es).leaked >= cfg.maxProbes
  {
    var s := Exec(cfg, START, es);
    SlotsAreAccountedFor(cfg, es);
    if s.inFlight == 0 {
      forall more ensures Full(cfg, Exec(cfg, s, more)) { IdleFullStaysFull(cfg, s, more); }
    } else {
      var done := [End(Status(200))];
      assert done[..0] == [] && Exec(cfg, s, []) == s;
      assert !Full(cfg, Exec(cfg, s, done));
    }
  }

  /** And a single uncaught exception can do it: a failure trips the breaker, the one probe after
      the timeout is cancelled, and the breaker is stuck. */
  lemma {:induction false} WedgeReachable(timeout: nat)
    ensures exists es :: Full(Settings(1, timeout, 1), Exec(Settings(1, timeout, 1), START, es))
              && StuckForever(Settings(1, timeout, 1), Exec(Settings(1, timeout, 1), START, es))
  {
    var cfg := Settings(1, timeout, 1);
    var es := [Begin, End(Timeout), Tick(timeout), Begin, End(OtherError)];
    var s1 := Step(cfg, START, es[0]);
    var s2 := Step(cfg, s1, es[1]);
    var s3 := Step(cfg, s2, es[2]);
    var s4 := Step(cfg, s3, es[3]);
    var s5 := Step(cfg, s4, es[4]);
    assert es[..1] == [Begin] && es[..1][..0] == [];
    assert es[..2][..1] == es[..1] && es[..3][..2] == es[..2] && es[..4][..3] == es[..3] && es[..5][..4] == es[..4] && es[..5] == es;
    assert Exec(cfg, START, es[..1]) == s1;
    assert Exec(cfg, START, es[..2]) == s2;
    assert Exec(cfg, START, es[..3]) == s3;
    assert Exec(cfg, START, es[..4]) == s4;
    assert Exec(cfg, START, es) == s5;
    assert Full(cfg, s5) && s5.inFlight == 0;
    WedgedIffAllSlotsLeaked(cfg, es);
  }
}
