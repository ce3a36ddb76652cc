/** core/graceful_shutdown.py: counting requests, draining them, and cleaning up afterwards.  Times
    are milliseconds. */
module GracefulShutdown {
  const INTERVAL := 100

  datatype CleanupEnd = Completed | Raised | TimedOut

  class Manager {
    const gracePeriod: int
    var shuttingDown: bool
    var inFlight: int
    var cleanups: seq<string>

    constructor (gracePeriod: int)
      ensures this.gracePeriod == gracePeriod && !shuttingDown && inFlight == 0 && cleanups == []
    {
      this.gracePeriod, shuttingDown, inFlight, cleanups := gracePeriod, false, 0, [];
    }

    method InitiateShutdown()
      modifies this`shuttingDown
      ensures shuttingDown
    {
      shuttingDown := true;
    }

    /** The middleware lets a request in, or answers 503. */
    method Admit(health: bool) returns (tracked: bool, refused: bool)
      modifies this`inFlight
      ensures tracked == (!health && !shuttingDown) && refused == (!health && shuttingDown)
      ensures inFlight == old(inFlight) + if tracked then 1 else 0
    {
      if health {
        return false, false;
      }
      if shuttingDown {
        return false, true;
      }
      inFlight := inFlight + 1;
      return true, false;
    }

    method TrackRequestEnd()
      modifies this`inFlight
      ensures inFlight == if old(inFlight) > 0 then old(inFlight) - 1 else old(inFlight)
    {
      if inFlight > 0 {
        inFlight := inFlight - 1;
      }
    }

    method InstallSignalHandlers()
      modifies this
      ensures !shuttingDown && inFlight == 0 && cleanups == []
    {
      shuttingDown, inFlight, cleanups := false, 0, [];
    }

    /** The drain loop; `script(k)` is what the counter holds when the loop looks for the k-th time.
        It ends at the first look that finds no request, or the grace period spent, and it always
        ends. */
    method WaitForDrain(script: nat -> int) returns (drained: bool, looks: nat)
      ensures script(looks) <= 0 || looks * INTERVAL >= gracePeriod
      ensures forall k: nat :: k < looks ==> script(k) > 0 && k * INTERVAL < gracePeriod
      ensures drained == (script(looks) <= 0)
      ensures looks > 0 ==> (looks - 1) * INTERVAL < gracePeriod
    {
      var elapsed := 0;
      looks := 0;
      while script(looks) > 0 && elapsed < gracePeriod
        invariant elapsed == looks * INTERVAL
        invariant forall k: nat :: k < looks ==> script(k) > 0 && k * INTERVAL < gracePeriod
        invariant looks > 0 ==> (looks - 1) * INTERVAL < gracePeriod
        decreases gracePeriod - elapsed
      {
        elapsed := elapsed + INTERVAL;
        looks := looks + 1;
      }
      return script(looks) <= 0, looks;
    }

    /** Every cleanup is called once, in order of registration, however the ones before it ended. */
    method RunCleanups(ends: string -> CleanupEnd) returns (called: seq<string>, completed: seq<string>)
      ensures called == cleanups
      ensures forall name :: name in completed <==> name in cleanups && ends(name).Completed?
    {
      called, completed := [], [];
      for i := 0 to |cleanups|
        invariant called == cleanups[..i]
        invariant forall name :: name in completed <==> name in cleanups[..i] && ends(name).Completed?
      {
        called := called + [cleanups[i]];
        if ends(cleanups[i]).Completed? {
          completed := completed + [cleanups[i]];
        }
      }
    }
  }

  // ----- Requests, drain and cleanups under interleaving ----------------------------------

  datatype Stage =
    | Serving
    | Draining(elapsed: int)
    | Cleaning(drained: bool, started: nat)

  /** `active` is the number of tracked requests that are really being served. */
  datatype State = State(shuttingDown: bool, inFlight: nat, active: nat, stage: Stage)

  datatype Event =
    | Arrive              // a request to anything but a health path
    | Leave               // a tracked request ends, by whatever exit
    | Signal              // initiate_shutdown from the signal handler
    | Drain               // the lifespan ends: initiate_shutdown, then wait_for_drain
    | Look                // one test of the drain loop
    | Cleanup             // one cleanup starts
    | Install             // install_signal_handlers: a lifespan starts again

  const FRESH := State(false, 0, 0, Serving)

  function Step(s: State, e: Event, grace: int): State {
    match e
    case Arrive => if s.shuttingDown then s else s.(inFlight := s.inFlight + 1, active := s.active + 1)
    case Leave =>
      if s.active == 0 then s
      else s.(inFlight := if s.inFlight > 0 then s.inFlight - 1 else 0, active := s.active - 1)
    case Signal => s.(shuttingDown := true)
    case Drain => if s.stage.Serving? then s.(shuttingDown := true, stage := Draining(0)) else s
    case Look =>
      if !s.stage.Draining? then s
      else if s.inFlight > 0 && s.stage.elapsed < grace then s.(stage := Draining(s.stage.elapsed + INTERVAL))
      else s.(stage := Cleaning(s.inFlight == 0, 0))
    case Cleanup => if s.stage.Cleaning? then s.(stage := s.stage.(started := s.stage.started + 1)) else s
    case Install => State(false, 0, s.active, Serving)
  }

  /** What each step does: requests other than health checks are counted in and served until the
      shutdown starts and refused from then on; a look goes on to the cleanups exactly when it counts
      no request or the grace period is spent, and otherwise waits for another interval. */
  lemma StepsAre(s: State, grace: int)
    ensures Step(s, Arrive, grace) ==
            if s.shuttingDown then s else State(false, s.inFlight + 1, s.active + 1, s.stage)
    ensures s.active > 0 ==> Step(s, Leave, grace).active == s.active - 1
    ensures s.active > 0 && s.inFlight > 0 ==> Step(s, Leave, grace).inFlight == s.inFlight - 1
    ensures Step(s, Signal, grace).shuttingDown
    ensures s.stage.Serving? ==> Step(s, Drain, grace) == State(true, s.inFlight, s.active, Draining(0))
    ensures s.stage.Draining? ==>
              var s' := Step(s, Look, grace);
              && (s'.stage == Cleaning(true, 0) <==> s.inFlight == 0)
              && (s'.stage == Cleaning(false, 0) <==> s.inFlight > 0 && s.stage.elapsed >= grace)
              && (s'.stage == Draining(s.stage.elapsed + 100) <==> s.inFlight > 0 && s.stage.elapsed < grace)
    ensures s.stage.Cleaning? ==>
              Step(s, Cleanup, grace) == s.(stage := Cleaning(s.stage.drained, s.stage.started + 1))
    ensures Step(s, Install, grace) == State(false, 0, s.active, Serving)
  {
  }

  function Exec(es: seq<Event>, grace: int): State {
    if es == [] then FRESH else Step(Exec(es[..|es| - 1], grace), es[|es| - 1], grace)
  }

  /** No lifespan starts again while requests of the one before are still being served. */
  ghost predicate InstallsIdle(es: seq<Event>, grace: int) {
    forall k :: 0 <= k < |es| && es[k].Install? ==> Exec(es[..k], grace).active == 0
  }

  /** What holds of the counter and the stage in every such run. */
  predicate Counted(s: State) {
    && s.inFlight == s.active
    && (!s.stage.Serving? ==> s.shuttingDown)
    && (s.stage.Cleaning? && s.stage.drained ==> s.active == 0)
  }

  lemma {:induction false} AlwaysCounted(es: seq<Event>, grace: int)
    requires InstallsIdle(es, grace)
    ensures Counted(Exec(es, grace))
  {
    if es != [] {
      var front := es[..|es| - 1];
      assert forall k :: 0 <= k < |front| ==> front[..k] == es[..k];
      AlwaysCounted(front, grace);
    }
  }

  /** Once the drain has seen the counter at zero, no tracked request is served from then on: none
      overlaps a cleanup, whatever arrives. */
  lemma {:induction false} CleanupsRunAlone(es: seq<Event>, grace: int, more: seq<Event>)
    requires InstallsIdle(es + more, grace) && forall k :: 0 <= k < |more| ==> !more[k].Install?
    requires Exec(es, grace).stage.Cleaning? && Exec(es, grace).stage.drained
    ensures Exec(es + more, grace).active == 0 && Exec(es + more, grace).stage.Cleaning?
  {
    StaysDrained(es, grace, more);
    AlwaysCounted(es + more, grace);
  }

  lemma {:induction false} StaysDrained(es: seq<Event>, grace: int, more: seq<Event>)
    requires forall k :: 0 <= k < |more| ==> !more[k].Install?
    requires Exec(es, grace).stage.Cleaning? && Exec(es, grace).stage.drained
    ensures Exec(es + more, grace).stage.Cleaning? && Exec(es + more, grace).stage.drained
  {
    if more == [] {
      assert es + more == es;
    } else {
      StaysDrained(es, grace, more[..|more| - 1]);
      assert (es + more)[..|es + more| - 1] == es + more[..|more| - 1];
    }
  }

  /** The condition cannot be dropped: installing the handlers forgets the requests being served, so
      that a drain ends at once; it is right to do so exactly if there were none. */
  lemma ReinstallForgets(es: seq<Event>, grace: int)
    ensures var s := Exec(es + [Install, Drain, Look], grace);
            && s.stage == Cleaning(true, 0)
            && (Counted(s) <==> Exec(es, grace).active == 0)
  {
    var s1, s2 := es + [Install], es + [Install] + [Drain];
    ExecSnoc(es, Install, grace);
    ExecSnoc(s1, Drain, grace);
    ExecSnoc(s2, Look, grace);
    assert es + [Install, Drain, Look] == s2 + [Look];
  }

  lemma ExecSnoc(es: seq<Event>, e: Event, grace: int)
    ensures Exec(es + [e], grace) == Step(Exec(es, grace), e, grace)
  {
    assert (es + [e])[..|es + [e]| - 1] == es;
  }
}
