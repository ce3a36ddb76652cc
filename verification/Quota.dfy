/** The daily quota on runtime calls under concurrency
    (microservices/artifact_service/artifact_service.py:906-955 and artifact_repository.py:514-559).
    The check and the booking of one call are separate statements, so any number of other calls may
    come between them, and midnight may. */
module Quota {
  /** A caller of one artifact; usage is counted per such pair and UTC day. */
  datatype Caller = Caller(artifact: string, user: string)

  datatype Bucket = Bucket(caller: Caller, day: nat)

  type Usage = map<Bucket, nat>

  function Calls(u: Usage, b: Bucket): nat { if b in u then u[b] else 0 }

  /** The upsert of `record_usage`. */
  function Booked(u: Usage, b: Bucket): Usage { u[b := Calls(u, b) + 1] }

  /** The usage table as the service changes it. */
  class UsageTable {
    var rows: Usage

    constructor ()
      ensures rows == map[]
    {
      rows := map[];
    }

    /** A failed read is reported as an unused day. */
    method GetTodayUsage(c: Caller, today: nat, readOk: bool) returns (calls: nat)
      ensures calls == if readOk then Calls(rows, Bucket(c, today)) else 0
    {
      var b := Bucket(c, today);
      if !readOk || b !in rows {
        return 0;
      }
      return rows[b];
    }

    method RecordUsage(c: Caller, today: nat) returns (calls: nat)
      modifies this
      ensures rows == Booked(old(rows), Bucket(c, today))
      ensures calls == Calls(old(rows), Bucket(c, today)) + 1 == Calls(rows, Bucket(c, today))
      ensures forall b :: b != Bucket(c, today) ==> Calls(rows, b) == Calls(old(rows), b)
    {
      var b := Bucket(c, today);
      if b in rows {
        rows := rows[b := rows[b] + 1];
      } else {
        rows := rows[b := 1];
      }
      return rows[b];
    }
  }

  /** `pending` holds the calls between their check and their booking. */
  datatype State = State(today: nat, usage: Usage, pending: multiset<Caller>)

  datatype Event =
    | Check(c: Caller, readOk: bool)
    | Book(c: Caller)
    | Abandon(c: Caller)      // the booking statement fails, or the process dies
    | NextDay(days: nat)

  const START := State(0, map[], multiset{})

  predicate Passes(s: State, e: Event, quota: nat) {
    e.Check? && (if e.readOk then Calls(s.usage, Bucket(e.c, s.today)) else 0) < quota
  }

  /** A check let through only because the usage could not be read. */
  predicate PassesBlind(s: State, e: Event, quota: nat) {
    Passes(s, e, quota) && Calls(s.usage, Bucket(e.c, s.today)) >= quota
  }

  function Step(s: State, e: Event, quota: nat): State {
    match e
    case Check(c, _) => if Passes(s, e, quota) then s.(pending := s.pending + multiset{c}) else s
    case Book(c) =>
      if c in s.pending then s.(pending := s.pending - multiset{c}, usage := Booked(s.usage, Bucket(c, s.today))) else s
    case Abandon(c) => if c in s.pending then s.(pending := s.pending - multiset{c}) else s
    case NextDay(n) => s.(today := s.today + n)
  }

  function Exec(es: seq<Event>, quota: nat): State {
    if es == [] then START else Step(Exec(es[..|es| - 1], quota), es[|es| - 1], quota)
  }

  /** Calls of caller `c` that were booked on a day, out of the run alone: its bookings of checks that
      had been let through. */
  function BookedOn(es: seq<Event>, quota: nat, c: Caller, day: nat): nat {
    if es == [] then 0
    else
      var front, e := es[..|es| - 1], es[|es| - 1];
      var s := Exec(front, quota);
      BookedOn(front, quota, c, day) + if e == Book(c) && s.pending[c] > 0 && s.today == day then 1 else 0
  }

  /** The table holds exactly these numbers, for every caller and every day. */
  lemma {:induction false} TableCountsBookings(es: seq<Event>, quota: nat, c: Caller, day: nat)
    ensures Calls(Exec(es, quota).usage, Bucket(c, day)) == BookedOn(es, quota, c, day)
  {
    if es != [] { TableCountsBookings(es[..|es| - 1], quota, c, day); }
  }

  /** A check is let through exactly when fewer calls than the quota have been booked for its caller
      today, or the read fails, which counts as none. */
  lemma CheckPassesIff(es: seq<Event>, quota: nat, c: Caller, readOk: bool)
    ensures var s := Exec(es, quota);
            var s' := Step(s, Check(c, readOk), quota);
            && s'.usage == s.usage && s'.today == s.today
            && s'.pending == s.pending + (if Lets(es, quota, c, readOk) then multiset{c} else multiset{})
    ensures PassesBlind(Exec(es, quota), Check(c, readOk), quota)
            <==> quota > 0 && !readOk && BookedOn(es, quota, c, Exec(es, quota).today) >= quota
  {
    TableCountsBookings(es, quota, c, Exec(es, quota).today);
  }

  /** A booking or a failure to book ends one call of its caller, and only the former is counted. */
  lemma CallsEnd(s: State, c: Caller, quota: nat)
    requires s.pending[c] > 0
    ensures var booked, dropped := Step(s, Book(c), quota), Step(s, Abandon(c), quota);
            && booked.pending == s.pending - multiset{c} == dropped.pending
            && booked.today == s.today == dropped.today && dropped.usage == s.usage
            && Calls(booked.usage, Bucket(c, s.today)) == Calls(s.usage, Bucket(c, s.today)) + 1
            && forall b :: b != Bucket(c, s.today) ==> Calls(booked.usage, b) == Calls(s.usage, b)
  {
  }

  predicate Lets(es: seq<Event>, quota: nat, c: Caller, readOk: bool) {
    (if readOk then BookedOn(es, quota, c, Exec(es, quota).today) else 0) < quota
  }

  function BlindPasses(es: seq<Event>, quota: nat, c: Caller): nat {
    if es == [] then 0
    else
      BlindPasses(es[..|es| - 1], quota, c)
      + if PassesBlind(Exec(es[..|es| - 1], quota), es[|es| - 1], quota) && es[|es| - 1].c == c then 1 else 0
  }

  /** At no point of the run has caller `c` more than `k` calls between check and booking. */
  ghost predicate AtMostPending(es: seq<Event>, quota: nat, c: Caller, k: nat) {
    Exec(es, quota).pending[c] <= k && (es == [] || AtMostPending(es[..|es| - 1], quota, c, k))
  }

  /** Every booked day, and today together with what is pending, stays below `cap`. */
  ghost predicate Below(s: State, c: Caller, cap: nat) {
    && (forall b :: b in s.usage ==> b.day <= s.today)
    && (forall day: nat :: Calls(s.usage, Bucket(c, day)) > 0 ==> Calls(s.usage, Bucket(c, day)) < cap)
    && (s.pending[c] > 0 ==> Calls(s.usage, Bucket(c, s.today)) + s.pending[c] < cap)
  }

  lemma StepStaysBelow(s: State, e: Event, quota: nat, c: Caller, k: nat, blind: nat)
    requires quota >= 1 && Below(s, c, quota + k + blind) && s.pending[c] <= k
    requires Step(s, e, quota).pending[c] <= k
    ensures Below(Step(s, e, quota), c, quota + k + blind + if PassesBlind(s, e, quota) && e.c == c then 1 else 0)
  {
  }

  lemma {:induction false} QuotaInvariant(es: seq<Event>, quota: nat, c: Caller, k: nat)
    requires quota >= 1 && AtMostPending(es, quota, c, k)
    ensures Below(Exec(es, quota), c, quota + k + BlindPasses(es, quota, c))
  {
    if es != [] {
      var front, e := es[..|es| - 1], es[|es| - 1];
      QuotaInvariant(front, quota, c, k);
      StepStaysBelow(Exec(front, quota), e, quota, c, k, BlindPasses(front, quota, c));
    }
  }

  /** With at most `k` calls of a caller between check and booking, no UTC day ever books more than
      quota + k - 1 of them, plus one for each check that could not read the usage of a spent
      quota.  Calls checked before midnight and booked after it are included. */
  lemma BookingsBounded(es: seq<Event>, quota: nat, c: Caller, k: nat, day: nat)
    requires quota >= 1 && k >= 1 && AtMostPending(es, quota, c, k)
    ensures BookedOn(es, quota, c, day) <= quota + k - 1 + BlindPasses(es, quota, c)
  {
    TableCountsBookings(es, quota, c, day);
    QuotaInvariant(es, quota, c, k);
  }

  /** One call at a time and no failed read: the quota is exact. */
  lemma SequentialQuotaIsExact(es: seq<Event>, quota: nat, c: Caller, day: nat)
    requires quota >= 1 && AtMostPending(es, quota, c, 1) && BlindPasses(es, quota, c) == 0
    ensures BookedOn(es, quota, c, day) <= quota
  {
    BookingsBounded(es, quota, c, 1, day);
  }

  // ----- The bound is reached ------------------------------------------------------------

  lemma ExecSnoc(es: seq<Event>, e: Event, quota: nat)
    ensures Exec(es + [e], quota) == Step(Exec(es, quota), e, quota)
    ensures forall c :: BlindPasses(es + [e], quota, c)
              == BlindPasses(es, quota, c) + if PassesBlind(Exec(es, quota), e, quota) && e.c == c then 1 else 0
  {
    assert (es + [e])[..|es + [e]| - 1] == es;
  }

  lemma PendingSnoc(es: seq<Event>, e: Event, quota: nat, c: Caller, k: nat)
    requires AtMostPending(es, quota, c, k) && Step(Exec(es, quota), e, quota).pending[c] <= k
    ensures AtMostPending(es + [e], quota, c, k)
  {
    ExecSnoc(es, e, quota);
    assert (es + [e])[..|es + [e]| - 1] == es;
  }

  /** `n` calls of one caller, one after the other, below the quota. */
  lemma {:induction false} CallsInTurn(quota: nat, c: Caller, n: nat) returns (es: seq<Event>)
    requires n <= quota
    ensures var s := Exec(es, quota);
            s.today == 0 && Calls(s.usage, Bucket(c, 0)) == n && s.pending == multiset{}
    ensures BlindPasses(es, quota, c) == 0 && AtMostPending(es, quota, c, 1)
  {
    if n == 0 {
      es := [];
    } else {
      es := CallsInTurn(quota, c, n - 1);
      ExecSnoc(es, Check(c, true), quota);
      PendingSnoc(es, Check(c, true), quota, c, 1);
      es := es + [Check(c, true)];
      ExecSnoc(es, Book(c), quota);
      PendingSnoc(es, Book(c), quota, c, 1);
      es := es + [Book(c)];
    }
  }

  lemma {:induction false} PendingLoosened(es: seq<Event>, quota: nat, c: Caller, k: nat, k': nat)
    requires AtMostPending(es, quota, c, k) && k <= k'
    ensures AtMostPending(es, quota, c, k')
  {
    if es != [] { PendingLoosened(es[..|es| - 1], quota, c, k, k'); }
  }

  /** The run has booked `calls` calls today, `pending` are under way, and never more than `k` were. */
  ghost predicate Reached(es: seq<Event>, quota: nat, c: Caller, calls: nat, pending: nat, k: nat) {
    var s := Exec(es, quota);
    && s.today == 0 && Calls(s.usage, Bucket(c, 0)) == calls && s.pending[c] == pending
    && BlindPasses(es, quota, c) == 0 && AtMostPending(es, quota, c, k)
  }

  /** `m` checks in a row that all see quota - 1. */
  lemma {:induction false} ChecksInARow(quota: nat, c: Caller, m: nat, k: nat) returns (es: seq<Event>)
    requires quota >= 1 && k >= 1 && m <= k
    ensures Reached(es, quota, c, quota - 1, m, k)
  {
    if m == 0 {
      es := CallsInTurn(quota, c, quota - 1);
      PendingLoosened(es, quota, c, 1, k);
    } else {
      es := ChecksInARow(quota, c, m - 1, k);
      ExecSnoc(es, Check(c, true), quota);
      PendingSnoc(es, Check(c, true), quota, c, k);
      es := es + [Check(c, true)];
    }
  }

  /** And `j` of `k` such checks booked. */
  lemma {:induction false} BookingsInARow(quota: nat, c: Caller, j: nat, k: nat) returns (es: seq<Event>)
    requires quota >= 1 && k >= 1 && j <= k
    ensures Reached(es, quota, c, quota - 1 + j, k - j, k)
  {
    if j == 0 {
      es := ChecksInARow(quota, c, k, k);
    } else {
      es := BookingsInARow(quota, c, j - 1, k);
      ExecSnoc(es, Book(c), quota);
      PendingSnoc(es, Book(c), quota, c, k);
      es := es + [Book(c)];
    }
  }

  /** The overshoot is real: `k` checks that all read quota - 1 book quota + k - 1 calls. */
  lemma BoundIsReached(quota: nat, c: Caller, k: nat)
    requires quota >= 1 && k >= 1
    ensures exists es :: AtMostPending(es, quota, c, k) && BlindPasses(es, quota, c) == 0
              && BookedOn(es, quota, c, 0) == quota + k - 1
  {
    var es := BookingsInARow(quota, c, k, k);
    TableCountsBookings(es, quota, c, 0);
    assert BookedOn(es, quota, c, 0) == quota + k - 1;
  }

  /** Nor can the term for failed reads be dropped: each of them can book one call more, even when
      the calls follow one another. */
  lemma FailedReadsOverbook(quota: nat, c: Caller, n: nat)
    requires quota >= 1
    ensures exists es :: AtMostPending(es, quota, c, 1) && BlindPasses(es, quota, c) == n
              && BookedOn(es, quota, c, 0) == quota + n
  {
    var es := FailedReadsInTurn(quota, c, n);
    TableCountsBookings(es, quota, c, 0);
    assert BookedOn(es, quota, c, 0) == quota + n;
  }

  lemma {:induction false} FailedReadsInTurn(quota: nat, c: Caller, n: nat) returns (es: seq<Event>)
    requires quota >= 1
    ensures AtMostPending(es, quota, c, 1) && BlindPasses(es, quota, c) == n
    ensures var s := Exec(es, quota);
            s.today == 0 && Calls(s.usage, Bucket(c, 0)) == quota + n && s.pending == multiset{}
  {
    if n == 0 {
      es := CallsInTurn(quota, c, quota);
    } else {
      es := FailedReadsInTurn(quota, c, n - 1);
      ExecSnoc(es, Check(c, false), quota);
      PendingSnoc(es, Check(c, false), quota, c, 1);
      es := es + [Check(c, false)];
      ExecSnoc(es, Book(c), quota);
      PendingSnoc(es, Book(c), quota, c, 1);
      es := es + [Book(c)];
    }
  }
}
