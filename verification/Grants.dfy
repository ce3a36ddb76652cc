/** MCP grants (microservices/artifact_service/artifact_repository.py:602-693 and
    artifact_service.py:1005-1111): which approvals let a tool call through without a prompt. */
module Grants {
  import opened Common

  datatype Target = Target(artifact: string, user: string, tool: string, server: string)

  datatype Decision = Allow | Deny

  datatype Scope = Once | Session | Always

  datatype Grant = Grant(id: string, target: Target, decision: Decision, scope: Scope, approvedAt: int, expiresAt: Option<int>)

  type Table = seq<Grant>

  /** The condition of the partial unique index. */
  predicate Standing(g: Grant) { g.decision.Allow? && g.scope.Always? }

  predicate StandingFor(g: Grant, t: Target) { Standing(g) && g.target == t }

  predicate Unexpired(g: Grant, now: int) { g.expiresAt.None? || now < g.expiresAt.value }

  /** The row a conflict on the partial index would be with. */
  function Conflict(table: Table, t: Target): Option<nat> {
    if table == [] then None
    else if StandingFor(table[|table| - 1], t) then Some(|table| - 1)
    else Conflict(table[..|table| - 1], t)
  }

  lemma {:induction false} ConflictIsARow(table: Table, t: Target)
    ensures Conflict(table, t).Some? ==> Conflict(table, t).value < |table| && StandingFor(table[Conflict(table, t).value], t)
    ensures Conflict(table, t).None? ==> forall i :: 0 <= i < |table| ==> !StandingFor(table[i], t)
  {
    if table != [] { ConflictIsARow(table[..|table| - 1], t); }
  }

  /** `upsert_mcp_grant`: an allow+always approval folds onto its row, any other is appended. */
  function Upsert(table: Table, g: Grant): Table {
    var c := Conflict(table, g.target);
    if Standing(g) && c.Some? && c.value < |table| then
      table[c.value := table[c.value].(approvedAt := g.approvedAt, expiresAt := g.expiresAt)]
    else table + [g]
  }

  /** `find_always_grant`: newest approval first among the standing, unexpired rows. */
  function Best(table: Table, t: Target, now: int): Option<Grant> {
    if table == [] then None
    else
      var g, rest := table[|table| - 1], Best(table[..|table| - 1], t, now);
      if StandingFor(g, t) && Unexpired(g, now) && (rest.None? || rest.value.approvedAt < g.approvedAt) then Some(g) else rest
  }

  /** `mcp_call` asks for approval exactly when no such row is found. */
  predicate SkipsPrompt(table: Table, t: Target, now: int) { Best(table, t, now).Some? }

  class GrantTable {
    var rows: Table

    constructor ()
      ensures rows == []
    {
      rows := [];
    }

    /** An allow+always approval renews the terms of a row of its kind for its target, if there is
        one; every other approval is a row of its own. */
    method Approve(g: Grant)
      modifies this
      ensures rows == Upsert(old(rows), g)
      ensures var always := g.decision == Allow && g.scope == Always;
              var c := if always then Conflict(old(rows), g.target) else None;
              && (c.None? ==> rows == old(rows) + [g])
              && (c.Some? ==>
                    && c.value < |rows| == |old(rows)|
                    && rows[c.value] == old(rows)[c.value].(approvedAt := g.approvedAt, expiresAt := g.expiresAt)
                    && forall i :: 0 <= i < |rows| && i != c.value ==> rows[i] == old(rows)[i])
    {
      var c := Conflict(rows, g.target);
      if Standing(g) && c.Some? {
        ConflictIsARow(rows, g.target);
        rows := rows[c.value := rows[c.value].(approvedAt := g.approvedAt, expiresAt := g.expiresAt)];
      } else {
        rows := rows + [g];
      }
    }
  }

  // ----- Runs of approvals ---------------------------------------------------------------

  function Exec(approvals: seq<Grant>): Table {
    if approvals == [] then [] else Upsert(Exec(approvals[..|approvals| - 1]), approvals[|approvals| - 1])
  }

  ghost predicate OneStandingRow(table: Table) {
    forall i, j | 0 <= i < j < |table| && table[i].target == table[j].target ::
      !(table[i].decision == Allow && table[i].scope == Always && table[j].decision == Allow && table[j].scope == Always)
  }

  /** At most one allow+always row per artifact, user, tool and server, after any approvals. */
  lemma {:induction false} StandingRowsAreUnique(approvals: seq<Grant>)
    ensures OneStandingRow(Exec(approvals))
  {
    if approvals != [] {
      var table, g := Exec(approvals[..|approvals| - 1]), approvals[|approvals| - 1];
      StandingRowsAreUnique(approvals[..|approvals| - 1]);
      ConflictIsARow(table, g.target);
    }
  }

  /** The latest allow+always approval for a target, by the history of approvals alone. */
  function LatestStanding(approvals: seq<Grant>, t: Target): Option<Grant> {
    if approvals == [] then None
    else
      var g := approvals[|approvals| - 1];
      if g.decision == Allow && g.scope == Always && g.target == t then Some(g)
      else LatestStanding(approvals[..|approvals| - 1], t)
  }

  /** The standing row of a target carries the terms of its latest allow+always approval. */
  ghost predicate RowFor(table: Table, t: Target, latest: Option<Grant>) {
    if latest.None? then forall i :: 0 <= i < |table| ==> !StandingFor(table[i], t)
    else exists i :: 0 <= i < |table| && StandingFor(table[i], t) && table[i].expiresAt == latest.value.expiresAt
  }

  lemma {:induction false} RowCarriesLatest(approvals: seq<Grant>, t: Target)
    ensures RowFor(Exec(approvals), t, LatestStanding(approvals, t))
  {
    if approvals != [] {
      var front, g := approvals[..|approvals| - 1], approvals[|approvals| - 1];
      var table := Exec(front);
      RowCarriesLatest(front, t);
      StandingRowsAreUnique(front);
      ConflictIsARow(table, g.target);
      UpsertKeepsRow(table, g, t, LatestStanding(front, t));
    }
  }

  lemma UpsertKeepsRow(table: Table, g: Grant, t: Target, latest: Option<Grant>)
    requires RowFor(table, t, latest) && OneStandingRow(table)
    ensures RowFor(Upsert(table, g), t, if StandingFor(g, t) then Some(g) else latest)
  {
    ConflictIsARow(table, g.target);
    var table' := Upsert(table, g);
    var c := Conflict(table, g.target);
    if StandingFor(g, t) {
      var i := if c.Some? then c.value else |table|;
      assert StandingFor(table'[i], t) && table'[i].expiresAt == g.expiresAt;
    } else if latest.Some? {
      var i :| 0 <= i < |table| && StandingFor(table[i], t) && table[i].expiresAt == latest.value.expiresAt;
      assert table'[i] == table[i];
    }
  }

  lemma {:induction false} BestIsAnyUnexpired(table: Table, t: Target, now: int)
    ensures SkipsPrompt(table, t, now) <==>
              exists i :: 0 <= i < |table| && StandingFor(table[i], t) && Unexpired(table[i], now)
  {
    if table != [] {
      var front := table[..|table| - 1];
      BestIsAnyUnexpired(front, t, now);
      if SkipsPrompt(front, t, now) {
        var i :| 0 <= i < |front| && StandingFor(front[i], t) && Unexpired(front[i], now);
        assert table[i] == front[i];
      }
      if i :| 0 <= i < |table| && StandingFor(table[i], t) && Unexpired(table[i], now) {
        assert i < |front| ==> front[i] == table[i];
      }
    }
  }

  /** After any approvals and at any time, a call goes through without a prompt exactly when the
      latest allow+always approval for its target has no expiry or a future one.  Once, session
      and deny approvals, and approvals for other targets, do not enter into it. */
  lemma PromptSkippedExactlyByStandingGrant(approvals: seq<Grant>, t: Target, now: int)
    ensures SkipsPrompt(Exec(approvals), t, now) <==>
              var latest := LatestStanding(approvals, t);
              latest.Some? && (latest.value.expiresAt.None? || now < latest.value.expiresAt.value)
  {
    var table, latest := Exec(approvals), LatestStanding(approvals, t);
    RowCarriesLatest(approvals, t);
    StandingRowsAreUnique(approvals);
    BestIsAnyUnexpired(table, t, now);
    if latest.Some? {
      var i :| 0 <= i < |table| && StandingFor(table[i], t) && table[i].expiresAt == latest.value.expiresAt;
      assert Unexpired(table[i], now) <==> Unexpired(latest.value, now);
      assert forall j :: 0 <= j < |table| && StandingFor(table[j], t) ==> j == i;
    }
  }

  /** The row that lets the call through is one of the target's own, allowed always and unexpired. */
  lemma {:induction false} BestIsForTarget(table: Table, t: Target, now: int)
    ensures var best := Best(table, t, now);
            best.Some? ==>
              && best.value in table && best.value.target == t
              && best.value.decision == Allow && best.value.scope == Always
              && (best.value.expiresAt.None? || now < best.value.expiresAt.value)
    ensures forall g :: g in table && g.target == t && g.decision == Allow && g.scope == Always
                        && (g.expiresAt.None? || now < g.expiresAt.value) ==>
              Best(table, t, now).Some? && g.approvedAt <= Best(table, t, now).value.approvedAt
  {
    if table != [] {
      BestIsForTarget(table[..|table| - 1], t, now);
      assert forall g :: g in table <==> g in table[..|table| - 1] || g == table[|table| - 1];
    }
  }

  /** Once, session and deny approvals are kept, as they were given, for the record. */
  lemma {:induction false} OtherApprovalsAreKept(approvals: seq<Grant>, i: nat)
    requires i < |approvals| && !(approvals[i].decision == Allow && approvals[i].scope == Always)
    ensures approvals[i] in Exec(approvals)
  {
    var front, g := approvals[..|approvals| - 1], approvals[|approvals| - 1];
    var table := Exec(front);
    ConflictIsARow(table, g.target);
    if i < |front| {
      OtherApprovalsAreKept(front, i);
      var k :| 0 <= k < |table| && table[k] == approvals[i];
      assert Upsert(table, g)[k] == table[k];
    }
  }
}
