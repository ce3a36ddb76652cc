/** scripts/migrate_sql.py:126-210: runs of the migration runner against one service's history
    table, each of which may be stopped before or after any statement. */
module Migrations {
  import opened Common

  datatype Migration = Migration(name: string, version: int, checksum: string)

  /** The managed files of the service's directory in sorted order. */
  type Directory = seq<Migration>

  ghost predicate ValidDirectory(dir: Directory) {
    && (forall i :: 0 <= i < |dir| ==> dir[i].checksum != "")
    && (forall i, j :: 0 <= i < j < |dir| ==> dir[i].name != dir[j].name)
  }

  /** What happened to the database, in order.  `recorded` is what the history table held when the
      file was executed. */
  datatype Action =
    | Executed(name: string, recorded: set<string>)
    | Recorded(name: string)
    | Baselined(name: string)

  /** The history table, name to checksum, and everything done so far. */
  datatype Db = Db(history: map<string, string>, log: seq<Action>)

  datatype Outcome = Going | Stopped | Drifted

  /** How far a run has got: the statements it sent, and whether it still goes on. */
  datatype Progress = Progress(db: Db, sent: nat, outcome: Outcome)

  function Applied(db: Db, name: string): string {
    if name in db.history then db.history[name] else ""
  }

  /** INSERT ... ON CONFLICT DO NOTHING */
  function Insert(db: Db, m: Migration, a: Action): Db {
    if m.name in db.history then db else Db(db.history[m.name := m.checksum], db.log + [a])
  }

  function Execute(db: Db, m: Migration): Db {
    db.(log := db.log + [Executed(m.name, db.history.Keys)])
  }

  /** A statement that is lost or whose reply is lost stops the run; a kill looks the same. */
  function Send(p: Progress, r: Reply, after: Db): Progress {
    Progress(if r.TookEffect() then after else p.db, p.sent + 1, if r.Raised() then Stopped else Going)
  }

  /** One turn of the upgrade loop; `snapshot` is the history as read at the start of the run. */
  function UpgradeOne(snapshot: Db, p: Progress, m: Migration, fate: nat -> Reply): Progress {
    if !p.outcome.Going? then p
    else if Applied(snapshot, m.name) != "" then
      if Applied(snapshot, m.name) != m.checksum then p.(outcome := Drifted) else p
    else
      var ran := Send(p, fate(p.sent), Execute(p.db, m));
      if ran.outcome.Stopped? then ran
      else Send(ran, fate(ran.sent), Insert(ran.db, m, Recorded(m.name)))
  }

  function BaselineOne(snapshot: Db, p: Progress, m: Migration, through: Option<int>, fate: nat -> Reply): Progress {
    if !p.outcome.Going? || (through.Some? && m.version > through.value) then p
    else if Applied(snapshot, m.name) != "" then
      if Applied(snapshot, m.name) != m.checksum then p.(outcome := Drifted) else p
    else Send(p, fate(p.sent), Insert(p.db, m, Baselined(m.name)))
  }

  datatype Command = Upgrade(dir: Directory, fate: nat -> Reply)
                   | Baseline(dir: Directory, through: Option<int>, fate: nat -> Reply)

  function Turn(snapshot: Db, p: Progress, c: Command, m: Migration): Progress {
    match c
    case Upgrade(_, fate) => UpgradeOne(snapshot, p, m, fate)
    case Baseline(_, through, fate) => BaselineOne(snapshot, p, m, through, fate)
  }

  /** The run's progress after the first `n` files. */
  function After(db: Db, c: Command, n: nat): Progress
    requires n <= |c.dir|
  {
    if n == 0 then Progress(db, 0, Going) else Turn(db, After(db, c, n - 1), c, c.dir[n - 1])
  }

  function Result(db: Db, c: Command): Progress { After(db, c, |c.dir|) }

  /** The database as a mutable object, and the two loops of the runner. */
  class Database {
    var history: map<string, string>
    var log: seq<Action>

    constructor ()
      ensures State() == Db(map[], [])
    {
      history, log := map[], [];
    }

    function State(): Db
      reads this
    {
      Db(history, log)
    }

    method RunFile(m: Migration, r: Reply)
      modifies this
      ensures State() == if r.TookEffect() then Execute(old(State()), m) else old(State())
    {
      if r.TookEffect() {
        log := log + [Executed(m.name, history.Keys)];
      }
    }

    method Record(m: Migration, a: Action, r: Reply)
      modifies this
      ensures State() == if r.TookEffect() then Insert(old(State()), m, a) else old(State())
    {
      if r.TookEffect() && m.name !in history {
        history := history[m.name := m.checksum];
        log := log + [a];
      }
    }

    /** One turn of the upgrade loop: `sent` counts the statements sent so far. */
    method UpgradeFile(ghost before: Db, applied: map<string, string>, m: Migration, sent: nat, fate: nat -> Reply)
      returns (sent': nat, outcome: Outcome)
      requires applied == before.history
      modifies this
      ensures Progress(State(), sent', outcome) == UpgradeOne(before, Progress(old(State()), sent, Going), m, fate)
    {
      if m.name in applied && applied[m.name] != "" {
        return sent, if applied[m.name] != m.checksum then Drifted else Going;
      }
      RunFile(m, fate(sent));
      if fate(sent).Raised() {
        return sent + 1, Stopped;
      }
      Record(m, Recorded(m.name), fate(sent + 1));
      return sent + 2, if fate(sent + 1).Raised() then Stopped else Going;
    }

    method ApplyServiceMigrations(dir: Directory, fate: nat -> Reply) returns (outcome: Outcome)
      modifies this
      ensures Result(old(State()), Upgrade(dir, fate)).db == State()
      ensures Result(old(State()), Upgrade(dir, fate)).outcome == outcome
    {
      var applied := history;
      ghost var before := State();
      var sent, i := 0, 0;
      outcome := Going;
      while i < |dir| && outcome.Going?
        invariant 0 <= i <= |dir|
        invariant After(before, Upgrade(dir, fate), i) == Progress(State(), sent, outcome)
      {
        sent, outcome := UpgradeFile(before, applied, dir[i], sent, fate);
        i := i + 1;
      }
      if !outcome.Going? {
        StoppedStays(before, Upgrade(dir, fate), i, |dir|);
      }
    }

    method BaselineFile(ghost before: Db, applied: map<string, string>, m: Migration, through: Option<int>, sent: nat, fate: nat -> Reply)
      returns (sent': nat, outcome: Outcome)
      requires applied == before.history
      modifies this
      ensures Progress(State(), sent', outcome) == BaselineOne(before, Progress(old(State()), sent, Going), m, through, fate)
    {
      if through.Some? && m.version > through.value {
        return sent, Going;
      }
      if m.name in applied && applied[m.name] != "" {
        return sent, if applied[m.name] != m.checksum then Drifted else Going;
      }
      Record(m, Baselined(m.name), fate(sent));
      return sent + 1, if fate(sent).Raised() then Stopped else Going;
    }

    method BaselineServiceMigrations(dir: Directory, through: Option<int>, fate: nat -> Reply) returns (outcome: Outcome)
      modifies this
      ensures Result(old(State()), Baseline(dir, through, fate)).db == State()
      ensures Result(old(State()), Baseline(dir, through, fate)).outcome == outcome
    {
      var applied := history;
      ghost var before := State();
      var sent, i := 0, 0;
      outcome := Going;
      while i < |dir| && outcome.Going?
        invariant 0 <= i <= |dir|
        invariant After(before, Baseline(dir, through, fate), i) == Progress(State(), sent, outcome)
      {
        sent, outcome := BaselineFile(before, applied, dir[i], through, sent, fate);
        i := i + 1;
      }
      if !outcome.Going? {
        StoppedStays(before, Baseline(dir, through, fate), i, |dir|);
      }
    }
  }

  lemma {:induction false} StoppedStays(db: Db, c: Command, n: nat, m: nat)
    requires n <= m <= |c.dir| && !After(db, c, n).outcome.Going?
    ensures After(db, c, m) == After(db, c, n)
  {
    if n < m { StoppedStays(db, c, n, m - 1); }
  }

  // ----- One run -------------------------------------------------------------------------

  /** `to` only adds to `from`: no record is changed or removed, and the log is extended. */
  ghost predicate Grows(from: Db, to: Db) {
    && from.log <= to.log
    && (forall name :: name in from.history ==> name in to.history && to.history[name] == from.history[name])
  }

  lemma {:induction false} RunGrows(db: Db, c: Command, n: nat)
    requires n <= |c.dir|
    ensures Grows(db, After(db, c, n).db)
  {
    if n > 0 { RunGrows(db, c, n - 1); }
  }

  /** The table holds exactly the names that were recorded or baselined. */
  ghost predicate TableMatchesLog(db: Db) {
    && (forall name :: name in db.history <==> Recorded(name) in db.log || Baselined(name) in db.log)
    && (forall name :: name in db.history ==> db.history[name] != "")
  }

  /** A record comes right after the execution it is for. */
  ghost predicate RecordsFollowRuns(log: seq<Action>) {
    forall k :: 0 <= k < |log| && log[k].Recorded? ==>
      k > 0 && log[k - 1].Executed? && log[k - 1].name == log[k].name
  }

  /** No file runs while it is in the table, and the table keeps what was put into it. */
  ghost predicate RunsUnrecorded(log: seq<Action>) {
    && (forall k :: 0 <= k < |log| && log[k].Executed? ==> log[k].name !in log[k].recorded)
    && (forall j, k :: 0 <= j < k < |log| && log[k].Executed? && !log[j].Executed? ==> log[j].name in log[k].recorded)
  }

  ghost predicate Consistent(db: Db) {
    TableMatchesLog(db) && RecordsFollowRuns(db.log) && RunsUnrecorded(db.log)
  }

  lemma LoggedNamesAreRecorded(db: Db, j: nat)
    requires TableMatchesLog(db) && j < |db.log| && !db.log[j].Executed?
    ensures db.log[j].name in db.history
  {
    assert db.log[j] in db.log;
    assert db.log[j] == Recorded(db.log[j].name) || db.log[j] == Baselined(db.log[j].name);
  }

  lemma LogGrowsByOne(log: seq<Action>, a: Action)
    requires RecordsFollowRuns(log) && RunsUnrecorded(log)
    requires a.Recorded? ==> |log| > 0 && log[|log| - 1].Executed? && log[|log| - 1].name == a.name
    requires a.Executed? ==> a.name !in a.recorded && forall j :: 0 <= j < |log| && !log[j].Executed? ==> log[j].name in a.recorded
    ensures RecordsFollowRuns(log + [a]) && RunsUnrecorded(log + [a])
  {
  }

  lemma ExecuteKeepsConsistent(db: Db, m: Migration)
    requires Consistent(db) && m.name !in db.history
    ensures Consistent(Execute(db, m))
  {
    var db' := Execute(db, m);
    assert TableMatchesLog(db') by {
      assert forall x :: x in db'.log <==> x in db.log || x == Executed(m.name, db.history.Keys);
    }
    forall j | 0 <= j < |db.log| && !db.log[j].Executed?
      ensures db.log[j].name in db.history
    {
      LoggedNamesAreRecorded(db, j);
    }
    LogGrowsByOne(db.log, Executed(m.name, db.history.Keys));
  }

  lemma InsertKeepsConsistent(db: Db, m: Migration, a: Action)
    requires Consistent(db) && m.checksum != "" && !a.Executed? && a.name == m.name
    requires a.Recorded? ==> |db.log| > 0 && db.log[|db.log| - 1].Executed? && db.log[|db.log| - 1].name == m.name
    ensures Consistent(Insert(db, m, a))
  {
    if m.name !in db.history {
      InsertMatchesLog(db, m, a);
      LogGrowsByOne(db.log, a);
    }
  }

  lemma InsertMatchesLog(db: Db, m: Migration, a: Action)
    requires TableMatchesLog(db) && m.checksum != "" && m.name !in db.history
    requires a == Recorded(m.name) || a == Baselined(m.name)
    ensures TableMatchesLog(Insert(db, m, a))
  {
    var db' := Insert(db, m, a);
    forall name
      ensures name in db'.history <==> Recorded(name) in db'.log || Baselined(name) in db'.log
    {
      assert Recorded(name) in db'.log <==> Recorded(name) in db.log || Recorded(name) == a;
      assert Baselined(name) in db'.log <==> Baselined(name) in db.log || Baselined(name) == a;
    }
  }

  /** Every file up to the `n`-th is in the table under its own checksum. */
  ghost predicate AppliedUpTo(db: Db, dir: Directory, n: nat)
    requires n <= |dir|
  {
    forall k :: 0 <= k < n ==> dir[k].name in db.history && db.history[dir[k].name] == dir[k].checksum
  }

  /** The snapshot a run took at its start is still right about the files yet to come. */
  ghost predicate SnapshotHolds(snapshot: Db, db: Db, dir: Directory, n: nat)
    requires n <= |dir|
  {
    forall k :: n <= k < |dir| && dir[k].name !in snapshot.history ==> dir[k].name !in db.history
  }

  /** What every turn of a run keeps, from the history it read at its start to its progress `p`
      after `n` files. */
  ghost predicate OnTrack(snapshot: Db, p: Progress, c: Command, n: nat)
    requires n <= |c.dir|
  {
    && Consistent(p.db)
    && Grows(snapshot, p.db)
    && SnapshotHolds(snapshot, p.db, c.dir, n)
    && (c.Upgrade? && p.outcome.Going? ==> AppliedUpTo(p.db, c.dir, n))
  }

  /** A turn of the upgrade loop: what it adds to the log and to the table. */
  lemma UpgradeOneEffect(snapshot: Db, p: Progress, m: Migration, fate: nat -> Reply)
    ensures var p' := UpgradeOne(snapshot, p, m, fate);
            && (p'.db.log == p.db.log
                || p'.db.log == p.db.log + [Executed(m.name, p.db.history.Keys)]
                || p'.db.log == p.db.log + [Executed(m.name, p.db.history.Keys)] + [Recorded(m.name)])
            && (p'.db.log != p.db.log ==> p.outcome.Going?)
            && (p'.db.history == p.db.history || p'.db.history == p.db.history[m.name := m.checksum])
            && (p'.outcome.Going? && Applied(snapshot, m.name) == "" ==> m.name in p'.db.history)
            && (p'.outcome.Going? ==> p.outcome.Going?)
            && (p'.outcome.Going? && Applied(snapshot, m.name) != "" ==> p' == p && Applied(snapshot, m.name) == m.checksum)
  {
  }

  /** What a turn that has a file to run makes of the fate of its two statements: what ran before the
      run was stopped has run, and nothing is sent after. */
  lemma UpgradeTurnStops(snapshot: Db, p: Progress, m: Migration, fate: nat -> Reply)
    requires p.outcome.Going? && m.name !in snapshot.history && m.name !in p.db.history
    ensures var run, record, p' := fate(p.sent), fate(p.sent + 1), UpgradeOne(snapshot, p, m, fate);
            var executed := p.db.(log := p.db.log + [Executed(m.name, p.db.history.Keys)]);
            var recorded := Db(p.db.history[m.name := m.checksum], executed.log + [Recorded(m.name)]);
            && p'.db == (if run.Lost? then p.db else if run.Applied? || record.Lost? then executed else recorded)
            && p'.outcome == (if run.Done? && record.Done? then Going else Stopped)
            && p'.sent == p.sent + if run.Done? then 2 else 1
  {
  }

  lemma BaselineTurnStops(snapshot: Db, p: Progress, m: Migration, through: Option<int>, fate: nat -> Reply)
    requires p.outcome.Going? && m.name !in snapshot.history && m.name !in p.db.history
    requires through.None? || m.version <= through.value
    ensures var record, p' := fate(p.sent), BaselineOne(snapshot, p, m, through, fate);
            && p'.db == (if record.Lost? then p.db else Db(p.db.history[m.name := m.checksum], p.db.log + [Baselined(m.name)]))
            && p'.outcome == (if record.Done? then Going else Stopped) && p'.sent == p.sent + 1
  {
  }

  lemma UpgradeOneConsistent(snapshot: Db, p: Progress, m: Migration, fate: nat -> Reply)
    requires Consistent(p.db) && TableMatchesLog(snapshot) && m.checksum != ""
    requires m.name !in snapshot.history ==> m.name !in p.db.history
    ensures Consistent(UpgradeOne(snapshot, p, m, fate).db)
  {
    if p.outcome.Going? && Applied(snapshot, m.name) == "" {
      ExecuteKeepsConsistent(p.db, m);
      InsertKeepsConsistent(Execute(p.db, m), m, Recorded(m.name));
    }
  }

  lemma SnapshotMovesOn(snapshot: Db, from: Db, to: Db, dir: Directory, n: nat)
    requires 0 < n <= |dir| && ValidDirectory(dir) && SnapshotHolds(snapshot, from, dir, n - 1)
    requires forall name :: name in to.history ==> name in from.history || name == dir[n - 1].name
    ensures SnapshotHolds(snapshot, to, dir, n)
  {
  }

  lemma AppliedMovesOn(from: Db, to: Db, dir: Directory, n: nat)
    requires 0 < n <= |dir| && AppliedUpTo(from, dir, n - 1) && Grows(from, to)
    requires dir[n - 1].name in to.history && to.history[dir[n - 1].name] == dir[n - 1].checksum
    ensures AppliedUpTo(to, dir, n)
  {
  }

  lemma UpgradeOneOnTrack(snapshot: Db, p: Progress, c: Command, n: nat)
    requires c.Upgrade? && 0 < n <= |c.dir| && ValidDirectory(c.dir)
    requires TableMatchesLog(snapshot) && OnTrack(snapshot, p, c, n - 1)
    ensures OnTrack(snapshot, UpgradeOne(snapshot, p, c.dir[n - 1], c.fate), c, n)
  {
    var m := c.dir[n - 1];
    var p' := UpgradeOne(snapshot, p, m, c.fate);
    UpgradeOneEffect(snapshot, p, m, c.fate);
    UpgradeOneConsistent(snapshot, p, m, c.fate);
    OneGrows(snapshot, p, m, c.fate);
    hide UpgradeOne, Consistent, TableMatchesLog, AppliedUpTo;
    SnapshotMovesOn(snapshot, p.db, p'.db, c.dir, n);
    if p'.outcome.Going? {
      AppliedMovesOn(p.db, p'.db, c.dir, n);
    }
  }

  lemma OneGrows(snapshot: Db, p: Progress, m: Migration, fate: nat -> Reply)
    ensures Grows(p.db, UpgradeOne(snapshot, p, m, fate).db)
  {
  }

  lemma BaselineOneOnTrack(snapshot: Db, p: Progress, c: Command, n: nat)
    requires c.Baseline? && 0 < n <= |c.dir| && ValidDirectory(c.dir) && OnTrack(snapshot, p, c, n - 1)
    ensures OnTrack(snapshot, BaselineOne(snapshot, p, c.dir[n - 1], c.through, c.fate), c, n)
  {
    var m := c.dir[n - 1];
    InsertKeepsConsistent(p.db, m, Baselined(m.name));
    SnapshotMovesOn(snapshot, p.db, BaselineOne(snapshot, p, m, c.through, c.fate).db, c.dir, n);
  }

  lemma {:induction false} RunStaysOnTrack(db: Db, c: Command, n: nat)
    requires n <= |c.dir| && ValidDirectory(c.dir) && Consistent(db)
    ensures OnTrack(db, After(db, c, n), c, n)
  {
    if n > 0 {
      RunStaysOnTrack(db, c, n - 1);
      var p := After(db, c, n - 1);
      if c.Upgrade? { UpgradeOneOnTrack(db, p, c, n); } else { BaselineOneOnTrack(db, p, c, n); }
    }
  }

  /** Position `k` of the directory was executed with everything before it recorded. */
  predicate InOrder(dir: Directory, a: Action) {
    a.Executed? ==>
      exists k :: 0 <= k < |dir| && dir[k].name == a.name && forall j :: 0 <= j < k ==> dir[j].name in a.recorded
  }

  /** Whatever a run executes, it executes with every earlier-sorted file of its directory already
      in the history table. */
  lemma {:induction false} ExecutesInOrder(db: Db, c: Command, n: nat, i: nat)
    requires n <= |c.dir| && ValidDirectory(c.dir) && Consistent(db)
    requires |db.log| <= i < |After(db, c, n).db.log|
    ensures InOrder(c.dir, After(db, c, n).db.log[i])
  {
    if n > 0 {
      var p := After(db, c, n - 1);
      assert After(db, c, n) == Turn(db, p, c, c.dir[n - 1]);
      hide After, Turn, Consistent, OnTrack, InOrder, ValidDirectory;
      RunStaysOnTrack(db, c, n - 1);
      NewExecutionInOrder(db, p, c, n);
      if i < |p.db.log| {
        ExecutesInOrder(db, c, n - 1, i);
      }
    }
  }

  lemma NewExecutionInOrder(snapshot: Db, p: Progress, c: Command, n: nat)
    requires 0 < n <= |c.dir| && OnTrack(snapshot, p, c, n - 1)
    ensures var log := Turn(snapshot, p, c, c.dir[n - 1]).db.log;
            p.db.log <= log && forall i :: |p.db.log| <= i < |log| ==> InOrder(c.dir, log[i])
  {
    if c.Upgrade? {
      UpgradeOneEffect(snapshot, p, c.dir[n - 1], c.fate);
      var ran := Executed(c.dir[n - 1].name, p.db.history.Keys);
      assert p.outcome.Going? ==> InOrder(c.dir, ran) by {
        assert p.outcome.Going? ==> forall j :: 0 <= j < n - 1 ==> c.dir[j].name in ran.recorded;
      }
    }
  }

  // ----- Completion ----------------------------------------------------------------------

  ghost predicate NoDrift(db: Db, dir: Directory, n: nat)
    requires n <= |dir|
  {
    forall k :: 0 <= k < n && dir[k].name in db.history ==> db.history[dir[k].name] == dir[k].checksum
  }

  /** An upgrade whose statements all go through completes, and applies the whole directory,
      exactly when no recorded checksum differs from the file's. */
  lemma {:induction false} CleanUpgradeCompletes(db: Db, dir: Directory, fate: nat -> Reply, n: nat)
    requires n <= |dir| && ValidDirectory(dir) && Consistent(db) && forall i :: fate(i).Done?
    ensures After(db, Upgrade(dir, fate), n).outcome.Going? <==> NoDrift(db, dir, n)
    ensures NoDrift(db, dir, n) ==> AppliedUpTo(After(db, Upgrade(dir, fate), n).db, dir, n)
  {
    RunStaysOnTrack(db, Upgrade(dir, fate), n);
    if n > 0 {
      CleanUpgradeCompletes(db, dir, fate, n - 1);
      var p, m := After(db, Upgrade(dir, fate), n - 1), dir[n - 1];
      hide Consistent, AppliedUpTo;
      assert After(db, Upgrade(dir, fate), n).outcome.Going? <==>
             p.outcome.Going? && (m.name in db.history ==> db.history[m.name] == m.checksum);
    }
  }

  lemma CleanUpgradeTurn(db: Db, p: Progress, m: Migration, fate: nat -> Reply)
    requires p.outcome.Going? && m.name !in db.history && m.name !in p.db.history && forall j :: fate(j).Done?
    ensures UpgradeOne(db, p, m, fate).db.log == p.db.log + [Executed(m.name, p.db.history.Keys), Recorded(m.name)]
  {
  }

  /** And it executes every file that was not recorded, and records it right after. */
  lemma {:induction false} CleanUpgradeExecutes(db: Db, dir: Directory, fate: nat -> Reply, n: nat, k: nat) returns (i: nat)
    requires k < n <= |dir| && ValidDirectory(dir) && Consistent(db) && forall j :: fate(j).Done?
    requires NoDrift(db, dir, n) && dir[k].name !in db.history
    ensures var log := After(db, Upgrade(dir, fate), n).db.log;
            |db.log| <= i < |log| - 1 && log[i].Executed? && log[i].name == dir[k].name && log[i + 1] == Recorded(dir[k].name)
  {
    hide *;
    var p, m := After(db, Upgrade(dir, fate), n - 1), dir[n - 1];
    CleanUpgradeGoesOn(db, dir, fate, n);
    if k == n - 1 {
      i := |p.db.log|;
      CleanUpgradeTurn(db, p, m, fate);
    } else {
      i := CleanUpgradeExecutes(db, dir, fate, n - 1, k);
    }
  }

  lemma CleanUpgradeGoesOn(db: Db, dir: Directory, fate: nat -> Reply, n: nat)
    requires 0 < n <= |dir| && ValidDirectory(dir) && Consistent(db) && forall j :: fate(j).Done?
    requires NoDrift(db, dir, n)
    ensures var p, p' := After(db, Upgrade(dir, fate), n - 1), After(db, Upgrade(dir, fate), n);
            && p.outcome.Going? && p' == UpgradeOne(db, p, dir[n - 1], fate) && NoDrift(db, dir, n - 1)
            && db.log <= p.db.log <= p'.db.log
            && (dir[n - 1].name !in db.history ==> dir[n - 1].name !in p.db.history)
  {
    hide UpgradeOne, Consistent, AppliedUpTo, ValidDirectory;
    var p := After(db, Upgrade(dir, fate), n - 1);
    CleanUpgradeCompletes(db, dir, fate, n - 1);
    RunStaysOnTrack(db, Upgrade(dir, fate), n - 1);
    OneGrows(db, p, dir[n - 1], fate);
  }

  /** One of the first `n` files, of a version the baseline goes up to, has this name. */
  ghost predicate Upto(dir: Directory, through: Option<int>, n: nat, name: string)
    requires n <= |dir|
  {
    exists k :: 0 <= k < n && dir[k].name == name && (through.None? || dir[k].version <= through.value)
  }

  /** None of these files is recorded under another checksum. */
  ghost predicate NoDriftUpto(db: Db, dir: Directory, through: Option<int>, n: nat)
    requires n <= |dir|
  {
    forall k :: 0 <= k < n && (through.None? || dir[k].version <= through.value) && dir[k].name in db.history ==>
      db.history[dir[k].name] == dir[k].checksum
  }

  /** Besides what was there, `history` has exactly these files, under their checksums. */
  ghost predicate AddsUpto(db: Db, history: map<string, string>, dir: Directory, through: Option<int>, n: nat)
    requires n <= |dir|
  {
    && (forall name :: name in history <==> name in db.history || Upto(dir, through, n, name))
    && (forall name :: name in db.history && name in history ==> history[name] == db.history[name])
    && (forall k | 0 <= k < n && (through.None? || dir[k].version <= through.value) ::
          dir[k].name !in db.history && dir[k].name in history ==> history[dir[k].name] == dir[k].checksum)
  }

  lemma AddsOneMore(db: Db, history: map<string, string>, dir: Directory, through: Option<int>, n: nat)
    requires 0 < n <= |dir| && ValidDirectory(dir) && AddsUpto(db, history, dir, through, n - 1)
    ensures var m := dir[n - 1];
            && (through.Some? && m.version > through.value ==> AddsUpto(db, history, dir, through, n))
            && (m.name in db.history ==> AddsUpto(db, history, dir, through, n))
            && (m.name !in db.history && (through.None? || m.version <= through.value) ==>
                  m.name !in history && AddsUpto(db, history[m.name := m.checksum], dir, through, n))
  {
    var m := dir[n - 1];
    forall name
      ensures Upto(dir, through, n, name) <==>
              Upto(dir, through, n - 1, name) || ((through.None? || m.version <= through.value) && name == m.name)
    {
      UptoOneMore(dir, through, n, name);
    }
    assert !Upto(dir, through, n - 1, m.name);
    hide Upto;
  }

  lemma UptoOneMore(dir: Directory, through: Option<int>, n: nat, name: string)
    requires 0 < n <= |dir|
    ensures Upto(dir, through, n, name) <==>
            || Upto(dir, through, n - 1, name)
            || ((through.None? || dir[n - 1].version <= through.value) && name == dir[n - 1].name)
  {
  }

  lemma NoDriftOneMore(db: Db, dir: Directory, through: Option<int>, n: nat)
    requires 0 < n <= |dir|
    ensures var m := dir[n - 1];
            NoDriftUpto(db, dir, through, n) <==>
            && NoDriftUpto(db, dir, through, n - 1)
            && ((through.None? || m.version <= through.value) && m.name in db.history ==> db.history[m.name] == m.checksum)
  {
  }

  lemma CleanBaselineTurn(db: Db, p: Progress, m: Migration, through: Option<int>, fate: nat -> Reply)
    requires TableMatchesLog(db) && forall j :: fate(j).Done?
    ensures var p' := BaselineOne(db, p, m, through, fate);
            var included := through.None? || m.version <= through.value;
            && (!p.outcome.Going? || !included ==> p' == p)
            && (p.outcome.Going? && included && m.name in db.history ==>
                  p'.db == p.db && p'.outcome == if db.history[m.name] == m.checksum then Going else Drifted)
            && (p.outcome.Going? && included && m.name !in db.history && m.name !in p.db.history ==>
                  p'.outcome.Going? && p'.db == Db(p.db.history[m.name := m.checksum], p.db.log + [Baselined(m.name)]))
  {
  }

  /** The log has grown by baselined names only. */
  ghost predicate OnlyBaselined(from: seq<Action>, to: seq<Action>) {
    from <= to && forall i :: |from| <= i < |to| ==> to[i].Baselined?
  }

  /** A baseline whose statements all go through completes exactly when no recorded checksum differs
      from that of a file up to its version, and otherwise stops for the drift.  When it completes it
      has recorded exactly these files besides what was there, under their checksums, and it has
      executed nothing. */
  lemma {:induction false} CleanBaselineRecords(db: Db, dir: Directory, through: Option<int>, fate: nat -> Reply, n: nat)
    requires n <= |dir| && ValidDirectory(dir) && Consistent(db) && forall j :: fate(j).Done?
    ensures var p := After(db, Baseline(dir, through, fate), n);
            && p.outcome == (if NoDriftUpto(db, dir, through, n) then Going else Drifted)
            && (p.outcome.Going? ==> AddsUpto(db, p.db.history, dir, through, n))
            && OnlyBaselined(db.log, p.db.log)
  {
    if n > 0 {
      var p, m := After(db, Baseline(dir, through, fate), n - 1), dir[n - 1];
      assert After(db, Baseline(dir, through, fate), n) == BaselineOne(db, p, m, through, fate) && TableMatchesLog(db);
      hide AddsUpto, NoDriftUpto, BaselineOne, Consistent, TableMatchesLog, After, Upto, ValidDirectory;
      CleanBaselineRecords(db, dir, through, fate, n - 1);
      CleanBaselineTurn(db, p, m, through, fate);
      NoDriftOneMore(db, dir, through, n);
      if p.outcome.Going? { AddsOneMore(db, p.db.history, dir, through, n); }
    }
  }

  // ----- Any number of runs --------------------------------------------------------------

  /** The database after a sequence of runs on an empty one. */
  function Exec(cs: seq<Command>): Db {
    if cs == [] then Db(map[], []) else Result(Exec(cs[..|cs| - 1]), cs[|cs| - 1]).db
  }

  ghost predicate AllValid(cs: seq<Command>) {
    forall i :: 0 <= i < |cs| ==> ValidDirectory(cs[i].dir)
  }

  /** After any sequence of upgrades and baselines, each on its own directory and each stopped
      anywhere: what is recorded was executed or baselined, and nothing runs once it is recorded. */
  lemma {:induction false} RunsStayConsistent(cs: seq<Command>)
    requires AllValid(cs)
    ensures Consistent(Exec(cs))
  {
    if cs != [] {
      RunsStayConsistent(cs[..|cs| - 1]);
      var c := cs[|cs| - 1];
      RunStaysOnTrack(Exec(cs[..|cs| - 1]), c, |c.dir|);
    }
  }

  /** A file runs again only if its last execution went unrecorded: after a record of it, or a
      baseline, no later execution of it is in the log. */
  lemma RecordedNeverRunsAgain(cs: seq<Command>, j: nat, k: nat)
    requires AllValid(cs) && j < k < |Exec(cs).log|
    requires !Exec(cs).log[j].Executed? && Exec(cs).log[k].Executed?
    ensures Exec(cs).log[j].name != Exec(cs).log[k].name
  {
    RunsStayConsistent(cs);
  }

  /** Every name in the history table was executed, or baselined, at some point. */
  lemma HistoryIsExplained(cs: seq<Command>, name: string)
    requires AllValid(cs) && name in Exec(cs).history
    ensures Baselined(name) in Exec(cs).log || exists k :: 0 <= k < |Exec(cs).log| && Exec(cs).log[k].Executed? && Exec(cs).log[k].name == name
  {
    RunsStayConsistent(cs);
    var log := Exec(cs).log;
    if Recorded(name) in log {
      var k :| 0 <= k < |log| && log[k] == Recorded(name);
      assert log[k - 1].Executed? && log[k - 1].name == name;
    }
  }

  lemma {:induction false} NothingLeftToDo(db: Db, dir: Directory, fate: nat -> Reply, n: nat)
    requires n <= |dir| && ValidDirectory(dir) && AppliedUpTo(db, dir, |dir|)
    ensures After(db, Upgrade(dir, fate), n) == Progress(db, 0, Going)
  {
    if n > 0 { NothingLeftToDo(db, dir, fate, n - 1); }
  }

  lemma {:induction false} LaterRunsGrow(cs: seq<Command>, more: seq<Command>)
    ensures Grows(Exec(cs), Exec(cs + more))
  {
    if more == [] {
      assert cs + more == cs;
    } else {
      var front, c := more[..|more| - 1], more[|more| - 1];
      LaterRunsGrow(cs, front);
      assert (cs + more)[..|cs + more| - 1] == cs + front;
      RunGrows(Exec(cs + front), c, |c.dir|);
    }
  }

  /** Once an upgrade of a directory has completed, every later upgrade of the same directory
      completes without sending a single statement, whatever ran in between. */
  lemma UpgradeAfterCompletionDoesNothing(cs: seq<Command>, dir: Directory, f: nat -> Reply, more: seq<Command>, g: nat -> Reply)
    requires AllValid(cs) && ValidDirectory(dir)
    requires Result(Exec(cs), Upgrade(dir, f)).outcome.Going?
    ensures var db := Exec(cs + [Upgrade(dir, f)] + more);
            Result(db, Upgrade(dir, g)) == Progress(db, 0, Going)
  {
    RunsStayConsistent(cs);
    RunStaysOnTrack(Exec(cs), Upgrade(dir, f), |dir|);
    var done := cs + [Upgrade(dir, f)];
    assert done[..|done| - 1] == cs;
    assert AppliedUpTo(Exec(done), dir, |dir|);
    LaterRunsGrow(done, more);
    NothingLeftToDo(Exec(done + more), dir, g, |dir|);
  }
}
