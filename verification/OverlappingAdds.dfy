/** Any number of `add_version` calls on one artifact at once
    (microservices/artifact_service/artifact_service.py:550-581): each checks the artifact, reads the
    highest number, inserts its row and names it current, in statements between which anything else
    may run. */
module OverlappingAdds {
  import opened Common
  import opened Artifacts

  /** `Ended` is a call that has returned or raised. */
  datatype Phase = Reading | Inserting(number: int) | Pinning | Ended

  datatype Call = Call(id: string, number: Option<int>, content: string, phase: Phase)

  datatype State = State(store: Store, calls: seq<Call>)

  datatype Event =
    | Begin(user: string, id: string, number: Option<int>, content: string)
    | Read(i: nat)
    | Insert(i: nat, reply: Reply)
    | Pin(i: nat, reply: Reply)
    | Elsewhere(st: Statement)

  /** Statements of everything else: they add no version to the artifact, name none current, and do
      not delete it. */
  predicate Spares(st: Statement, artifact: string) {
    match st
    case InsertVersion(v) => v.artifact != artifact
    case SetCurrent(id, _) => id != artifact
    case SoftDelete(id, _) => id != artifact
    case _ => true
  }

  predicate Enabled(artifact: string, s: State, e: Event) {
    match e
    case Begin(_, _, _, _) => true
    case Read(i) => i < |s.calls| && s.calls[i].phase.Reading?
    case Insert(i, _) => i < |s.calls| && s.calls[i].phase.Inserting?
    case Pin(i, _) => i < |s.calls| && s.calls[i].phase.Pinning?
    case Elsewhere(st) => Spares(st, artifact)
  }

  function Move(s: State, i: nat, p: Phase): State
    requires i < |s.calls|
  {
    s.(calls := s.calls[i := s.calls[i].(phase := p)])
  }

  /** The row call `i` is about to insert. */
  function RowOf(artifact: string, s: State, i: nat): Version
    requires i < |s.calls| && s.calls[i].phase.Inserting?
  {
    Version(s.calls[i].id, artifact, s.calls[i].phase.number, s.calls[i].content)
  }

  function Apply(artifact: string, s: State, e: Event): State
    requires Enabled(artifact, s, e)
  {
    match e
    case Begin(user, id, number, content) =>
      var fine := Visible(s.store, artifact) && s.store.artifacts[artifact].owner == user && content != "";
      s.(calls := s.calls + [Call(id, number, content, if fine then Reading else Ended)])
    case Read(i) =>
      var asked := s.calls[i].number;
      Move(s, i, Inserting(if asked.Some? && asked.value != 0 then asked.value else MaxNumber(s.store.versions, artifact) + 1))
    case Insert(i, r) =>
      var v := RowOf(artifact, s, i);
      var s1 := if r.TookEffect() then s.(store := Run(s.store, InsertVersion(v))) else s;
      Move(s1, i, if r.Done? && VersionAllowed(s.store, v) then Pinning else Ended)
    case Pin(i, r) =>
      var s1 := if r.TookEffect() then s.(store := Run(s.store, SetCurrent(artifact, s.calls[i].id))) else s;
      Move(s1, i, Ended)
    case Elsewhere(st) => s.(store := Run(s.store, st))
  }

  /** One call with nothing in between is `add_version` as `AddVersionSpec` has it. */
  lemma AddVersionIsItsSteps(artifact: string, s: Store, user: string, id: string, number: Option<int>, content: string)
    ensures var s1 := Apply(artifact, State(s, []), Begin(user, id, number, content));
            var (s', added) := AddVersionSpec(s, artifact, user, id, number, content);
            if s1.calls[0].phase.Ended? then s' == s && added.Failed?
            else
              var s3 := Apply(artifact, Apply(artifact, s1, Read(0)), Insert(0, Done));
              (added.Version'? <==> s3.calls[0].phase.Pinning?)
              && s' == if added.Version'? then Apply(artifact, s3, Pin(0, Done)).store else s3.store
  {
  }

  datatype History = History(artifact: string, events: seq<Event>, states: seq<State>)

  ghost predicate IsRun(r: History) {
    && |r.states| == |r.events| + 1
    && r.states[0].calls == [] && Visible(r.states[0].store, r.artifact)
    && forall k :: 0 <= k < |r.events| ==>
         Enabled(r.artifact, r.states[k], r.events[k])
         && r.states[k + 1] == Apply(r.artifact, r.states[k], r.events[k])
  }

  ghost function Final(r: History): Store
    requires IsRun(r)
  {
    r.states[|r.events|].store
  }

  /** Event `k` names version `id` current. */
  ghost predicate Pins(r: History, k: nat, id: string)
    requires IsRun(r)
  {
    k < |r.events| && r.events[k].Pin? && r.events[k].reply.TookEffect() && r.states[k].calls[r.events[k].i].id == id
  }

  ghost predicate SomePins(r: History, k: nat)
    requires IsRun(r)
  {
    k < |r.events| && r.events[k].Pin? && r.events[k].reply.TookEffect()
  }

  /** The version the public reader picks. */
  function HighestId(s: Store, artifact: string): Option<string> {
    var h := Highest(s.versions, artifact);
    if h.Some? then Some(h.value.id) else None
  }

  /** It is the one the artifact names current. */
  predicate Agrees(s: Store, artifact: string) {
    artifact in s.artifacts && HighestId(s, artifact) == Some(s.artifacts[artifact].current)
  }

  /** What the artifact names current after `n` events, by the pins alone. */
  ghost function LastPinned(r: History, n: nat): string
    requires IsRun(r) && n <= |r.events|
  {
    if n == 0 then r.states[0].store.artifacts[r.artifact].current
    else if SomePins(r, n - 1) then r.states[n - 1].calls[r.events[n - 1].i].id
    else LastPinned(r, n - 1)
  }

  lemma StepNamesCurrent(artifact: string, s: State, e: Event)
    requires Enabled(artifact, s, e) && Visible(s.store, artifact)
    ensures var s' := Apply(artifact, s, e).store;
            && Visible(s', artifact)
            && s'.artifacts[artifact].current ==
                 if e.Pin? && e.reply.TookEffect() then s.calls[e.i].id else s.store.artifacts[artifact].current
  {
  }

  lemma {:induction false} CurrentIsLastPinned(r: History, n: nat)
    requires IsRun(r) && n <= |r.events|
    ensures Visible(r.states[n].store, r.artifact)
    ensures r.states[n].store.artifacts[r.artifact].current == LastPinned(r, n)
  {
    if n > 0 {
      CurrentIsLastPinned(r, n - 1);
      StepNamesCurrent(r.artifact, r.states[n - 1], r.events[n - 1]);
    }
  }

  /** Either nothing was pinned up to `n`, or `k` is the last event that pins. */
  lemma {:induction false} LastPin(r: History, n: nat) returns (k: nat)
    requires IsRun(r) && n <= |r.events|
    ensures k <= n && forall m :: k <= m < n ==> !SomePins(r, m)
    ensures k == 0 ==> LastPinned(r, n) == r.states[0].store.artifacts[r.artifact].current
    ensures k > 0 ==> Pins(r, k - 1, LastPinned(r, n))
  {
    if n == 0 {
      k := 0;
    } else if SomePins(r, n - 1) {
      k := n;
    } else {
      k := LastPin(r, n - 1);
    }
  }

  /** Every event that names another version current is followed by one that names `id` current. */
  ghost predicate PinnedLast(r: History, id: string)
    requires IsRun(r)
  {
    forall m: nat :: SomePins(r, m) && !Pins(r, m, id) ==> exists k: nat :: k > m && Pins(r, k, id)
  }

  /** Version `id` is current at the end exactly when it was pinned, or current from the start, and
      nothing else was pinned after that. */
  lemma CurrentIffPinnedLast(r: History, id: string)
    requires IsRun(r)
    ensures LastPinned(r, |r.events|) == id
            <==> PinnedLast(r, id)
                 && (id == r.states[0].store.artifacts[r.artifact].current || exists k: nat :: Pins(r, k, id))
  {
    var n := |r.events|;
    var k := LastPin(r, n);
    assert forall m: nat, x :: Pins(r, m, x) ==> SomePins(r, m) && m < k;
    if k > 0 {
      assert SomePins(r, k - 1) && (Pins(r, k - 1, id) <==> LastPinned(r, n) == id);
      forall m: nat | LastPinned(r, n) == id && SomePins(r, m) && !Pins(r, m, id)
        ensures exists l: nat :: l > m && Pins(r, l, id)
      {
        assert m < k - 1 && Pins(r, k - 1, id);
      }
    }
  }

  /** In every run of overlapping calls, with any failures, the version named current is the highest
      exactly when the highest was pinned, or current from the start, and nothing else was pinned
      after that. */
  lemma AddsAgreeIffHighestPinnedLast(r: History)
    requires IsRun(r)
    ensures var h := HighestId(Final(r), r.artifact);
            Agrees(Final(r), r.artifact)
            <==> h.Some? && PinnedLast(r, h.value)
                 && (h.value == r.states[0].store.artifacts[r.artifact].current || exists k: nat :: Pins(r, k, h.value))
  {
    var n := |r.events|;
    if HighestId(Final(r), r.artifact).Some? { CurrentIffPinnedLast(r, HighestId(Final(r), r.artifact).value); }
    CurrentIsLastPinned(r, n);
  }

  // ----- When nothing fails --------------------------------------------------------------

  /** No statement of the calls fails, and every call has ended. */
  ghost predicate Completed(r: History)
    requires IsRun(r)
  {
    && (forall k :: 0 <= k < |r.events| && r.events[k].Insert? ==> r.events[k].reply.Done?)
    && (forall k :: 0 <= k < |r.events| && r.events[k].Pin? ==> r.events[k].reply.Done?)
    && (forall i :: 0 <= i < |r.states[|r.events|].calls| ==> r.states[|r.events|].calls[i].phase.Ended?)
  }

  ghost predicate AboutToPin(s: State, id: string) {
    exists i :: 0 <= i < |s.calls| && s.calls[i].phase.Pinning? && s.calls[i].id == id
  }

  lemma StepMovesHighest(artifact: string, s: State, e: Event)
    requires Enabled(artifact, s, e) && (e.Insert? ==> e.reply.Done?)
    ensures HighestId(Apply(artifact, s, e).store, artifact) == HighestId(s.store, artifact)
            || (e.Insert? && HighestId(Apply(artifact, s, e).store, artifact) == Some(s.calls[e.i].id)
                && Apply(artifact, s, e).calls[e.i].phase.Pinning?)
  {
    if e.Insert? {
      VersionsSnoc(s.store.versions, RowOf(artifact, s, e.i), artifact);
      var vs := s.store.versions + [RowOf(artifact, s, e.i)];
      assert vs[..|vs| - 1] == s.store.versions;
    } else if e.Elsewhere? && e.st.InsertVersion? {
      VersionsSnoc(s.store.versions, e.st.v, artifact);
    }
  }

  lemma StepKeepsPinning(artifact: string, s: State, e: Event, id: string)
    requires Enabled(artifact, s, e) && AboutToPin(s, id)
    ensures AboutToPin(Apply(artifact, s, e), id) || (e.Pin? && s.calls[e.i].id == id)
  {
    var i :| 0 <= i < |s.calls| && s.calls[i].phase.Pinning? && s.calls[i].id == id;
    var s' := Apply(artifact, s, e);
    if !(e.Pin? && e.i == i) {
      assert s'.calls[i].phase.Pinning? && s'.calls[i].id == id;
    }
  }

  /** The highest version is the first one, or is pinned, or about to be. */
  lemma {:induction false} HighestIsOrWillBePinned(r: History, n: nat)
    requires IsRun(r) && n <= |r.events|
    requires forall k :: 0 <= k < n && (r.events[k].Insert? || r.events[k].Pin?) ==> r.events[k].reply.Done?
    ensures var h := HighestId(r.states[n].store, r.artifact);
            h == HighestId(r.states[0].store, r.artifact)
            || (h.Some? && (AboutToPin(r.states[n], h.value) || exists k: nat :: k < n && Pins(r, k, h.value)))
  {
    if n > 0 {
      HighestIsOrWillBePinned(r, n - 1);
      var s, e, h := r.states[n - 1], r.events[n - 1], HighestId(r.states[n].store, r.artifact);
      StepMovesHighest(r.artifact, s, e);
      if h == HighestId(s.store, r.artifact) {
        if h.Some? && AboutToPin(s, h.value) {
          StepKeepsPinning(r.artifact, s, e, h.value);
          assert e.Pin? && s.calls[e.i].id == h.value ==> Pins(r, n - 1, h.value);
        }
      } else {
        assert r.states[n].calls[e.i].phase.Pinning? && r.states[n].calls[e.i].id == h.value;
      }
    }
  }

  /** Calls that overlap without failing, on an artifact whose current version is its highest, leave
      it so exactly when no other call's pin comes after the pin of the highest version inserted. */
  lemma CompletedAddsAgreeIff(r: History)
    requires IsRun(r) && Completed(r) && Agrees(r.states[0].store, r.artifact)
    ensures var h := HighestId(Final(r), r.artifact);
            h.Some? && (Agrees(Final(r), r.artifact) <==> PinnedLast(r, h.value))
  {
    AddsAgreeIffHighestPinnedLast(r);
    HighestIsOrWillBePinned(r, |r.events|);
  }
}
