/** Per-artifact key/value storage: the table with its `_shared` sentinel and scalar envelope
    (microservices/artifact_service/artifact_repository.py:734-847) behind the scope rules of the
    service (artifact_service.py:1185-1310). */
module KeyValue {
  import opened Common

  datatype Json =
    | Null
    | Bool(b: bool)
    | Number(n: int)
    | Text(s: string)
    | Array(items: seq<Json>)
    | Object(fields: map<string, Json>)

  function Wrap(v: Json): Json {
    if v.Object? || v.Array? then v else Object(map["_v" := v])
  }

  predicate IsEnvelope(v: Json) { v.Object? && v.fields.Keys == {"_v"} }

  function Unwrap(v: Json): Json {
    if IsEnvelope(v) then v.fields["_v"] else v
  }

  datatype Scope = Personal | Shared

  const SHARED_SENTINEL := "_shared"

  /** The primary key of the table. */
  datatype Row = Row(artifact: string, scope: Scope, user: string, key: string)

  type Table = map<Row, Json>

  /** What a caller can address: one user's cell, or the artifact's shared one. */
  datatype Slot = Own(artifact: string, user: string, key: string) | Common(artifact: string, key: string)

  datatype Request = Request(artifact: string, scope: Scope, user: Option<string>, key: string)

  datatype Refusal = NoUser | NotShared | NotFound | CheckViolated

  /** `_validate_kv_scope`: a personal request needs a user, a shared write an opted-in artifact. */
  function Validate(r: Request, sharedStorage: bool, isWrite: bool): Option<Refusal> {
    match r.scope
    case Personal => if r.user.None? || r.user.value == "" then Some(NoUser) else None
    case Shared => if isWrite && !sharedStorage then Some(NotShared) else None
  }

  function RowOf(r: Request): Row {
    Row(r.artifact, r.scope,
        if r.scope.Personal? then (if r.user.Some? then r.user.value else "") else SHARED_SENTINEL, r.key)
  }

  function SlotOf(r: Request): Slot {
    if r.scope.Personal? then Own(r.artifact, if r.user.Some? then r.user.value else "", r.key)
    else Common(r.artifact, r.key)
  }

  datatype Reply = Value(v: Json) | Removed(found: bool) | Refused(why: Refusal)

  /** The table's CHECK: shared rows carry the sentinel, and personal rows never do. */
  predicate RowAllowed(row: Row) { row.scope.Shared? <==> row.user == SHARED_SENTINEL }

  function Get(t: Table, r: Request): Reply {
    if Validate(r, false, false).Some? then Refused(Validate(r, false, false).value)
    else if RowOf(r) in t then Value(Unwrap(t[RowOf(r)]))
    else Refused(NotFound)
  }

  function Put(t: Table, r: Request, sharedStorage: bool, v: Json): (Table, Reply) {
    var refusal := Validate(r, sharedStorage, true);
    if refusal.Some? then (t, Refused(refusal.value))
    else if !RowAllowed(RowOf(r)) then (t, Refused(CheckViolated))
    else (t[RowOf(r) := Wrap(v)], Value(Unwrap(Wrap(v))))
  }

  function Delete(t: Table, r: Request, sharedStorage: bool): (Table, Reply) {
    var refusal := Validate(r, sharedStorage, true);
    if refusal.Some? then (t, Refused(refusal.value))
    else (t - {RowOf(r)}, Removed(RowOf(r) in t))
  }

  /** The table as the service changes it. */
  class KvTable {
    var rows: Table

    constructor ()
      ensures rows == map[]
    {
      rows := map[];
    }

    method KvPut(r: Request, sharedStorage: bool, v: Json) returns (reply: Reply)
      modifies this
      ensures (rows, reply) == Put(old(rows), r, sharedStorage, v)
    {
      var refusal := Validate(r, sharedStorage, true);
      if refusal.Some? {
        return Refused(refusal.value);
      }
      var row := RowOf(r);
      if !RowAllowed(row) {
        return Refused(CheckViolated);
      }
      rows := rows[row := Wrap(v)];
      return Value(Unwrap(rows[row]));
    }

    method KvDelete(r: Request, sharedStorage: bool) returns (reply: Reply)
      modifies this
      ensures (rows, reply) == Delete(old(rows), r, sharedStorage)
    {
      var refusal := Validate(r, sharedStorage, true);
      if refusal.Some? {
        return Refused(refusal.value);
      }
      var row := RowOf(r);
      reply := Removed(row in rows);
      rows := rows - {row};
    }
  }

  // ----- Values --------------------------------------------------------------------------

  /** A value comes back as it was stored, except an object whose only key is `_v`: that one comes
      back unwrapped. */
  lemma {:induction false} EnvelopeRoundTrip(v: Json)
    ensures Unwrap(Wrap(v)) == v <==> !(v.Object? && v.fields.Keys == {"_v"})
    ensures v.Object? && v.fields.Keys == {"_v"} ==> Unwrap(Wrap(v)) == v.fields["_v"]
    ensures Wrap(v).Object? || Wrap(v).Array?
  {
    if !v.Object? && !v.Array? {
      assert Wrap(v).fields.Keys == {"_v"};
    }
    if IsEnvelope(v) {
      assert "_v" in v.fields;
      assert v.fields["_v"] < v;
    }
  }

  // ----- Answers -------------------------------------------------------------------------

  predicate HasUser(r: Request) { r.user.Some? && r.user.value != "" }

  /** What comes back for a value: itself, or what is inside an object whose only key is `_v`. */
  function Returned(v: Json): Json {
    if v.Object? && v.fields.Keys == {"_v"} then v.fields["_v"] else v
  }

  /** Who may read, write and delete, and what they are told.  A personal request takes a user, a
      shared write an artifact that has opted in; a shared read takes neither. */
  lemma {:induction false} KvAnswers(t: Table, r: Request, sharedStorage: bool, v: Json)
    ensures var (put, answer) := Put(t, r, sharedStorage, v);
            && (answer == Refused(NoUser) <==> r.scope.Personal? && !HasUser(r))
            && (answer == Refused(NotShared) <==> r.scope.Shared? && !sharedStorage)
            && (answer == Refused(CheckViolated) <==> r.scope.Personal? && r.user == Some("_shared"))
            && (answer.Value? <==> Accepted(PutOp(r, sharedStorage, v)))
            && (answer.Value? ==> answer.v == Returned(v))
            && (!answer.Value? ==> put == t)
    ensures var (left, answer) := Delete(t, r, sharedStorage);
            && (answer == Refused(NoUser) <==> r.scope.Personal? && !HasUser(r))
            && (answer == Refused(NotShared) <==> r.scope.Shared? && !sharedStorage)
            && (answer.Removed? <==> Accepted(DeleteOp(r, sharedStorage)))
            && (answer.Removed? ==> (answer.found <==> RowOf(r) in t) && RowOf(r) !in left)
            && (!answer.Removed? ==> left == t)
    ensures (Get(t, r) == Refused(NoUser) <==> r.scope.Personal? && !HasUser(r))
    ensures (Get(t, r) == Refused(NotFound) <==> (r.scope.Shared? || HasUser(r)) && RowOf(r) !in t)
    ensures (Get(t, r).Value? <==> (r.scope.Shared? || HasUser(r)) && RowOf(r) in t)
  {
    EnvelopeRoundTrip(v);
  }

  // ----- Cells ---------------------------------------------------------------------------

  datatype Op =
    | PutOp(r: Request, sharedStorage: bool, v: Json)
    | DeleteOp(r: Request, sharedStorage: bool)

  function Exec(ops: seq<Op>): Table {
    if ops == [] then map[]
    else
      var t := Exec(ops[..|ops| - 1]);
      match ops[|ops| - 1]
      case PutOp(r, shared, v) => Put(t, r, shared, v).0
      case DeleteOp(r, shared) => Delete(t, r, shared).0
  }

  /** A write to a shared cell takes an artifact that has opted in, one to a personal cell takes a
      user, and nobody can put under the sentinel's name. */
  predicate Accepted(op: Op) {
    match op.r.scope
    case Shared => op.sharedStorage
    case Personal => HasUser(op.r) && (op.PutOp? ==> op.r.user.value != "_shared")
  }

  /** The value last put into a slot, by the history of accepted operations alone. */
  function LastPut(ops: seq<Op>, slot: Slot): Option<Json> {
    if ops == [] then None
    else
      var op := ops[|ops| - 1];
      if Accepted(op) && SlotOf(op.r) == slot then (if op.PutOp? then Some(op.v) else None)
      else LastPut(ops[..|ops| - 1], slot)
  }

  /** Different slots are different rows: no user id reaches the shared cell, or another user's. */
  lemma SlotsAreRows(r1: Request, r2: Request)
    ensures SlotOf(r1) == SlotOf(r2) <==> RowOf(r1) == RowOf(r2)
  {
  }

  lemma {:induction false} TableHoldsLastPut(ops: seq<Op>, r: Request)
    ensures var last := LastPut(ops, SlotOf(r));
            if last.Some? then RowOf(r) in Exec(ops) && Exec(ops)[RowOf(r)] == Wrap(last.value) else RowOf(r) !in Exec(ops)
  {
    if ops != [] {
      TableHoldsLastPut(ops[..|ops| - 1], r);
      SlotsAreRows(ops[|ops| - 1].r, r);
    }
  }

  /** After any sequence of writes and deletes by anybody, a permitted read returns the value last
      put into exactly that slot, save for the envelope rule, and nothing if there is none. */
  lemma {:induction false} ReadsReturnLastPut(ops: seq<Op>, r: Request)
    requires r.scope.Shared? || HasUser(r)
    ensures var last := LastPut(ops, SlotOf(r));
            && (last.None? ==> Get(Exec(ops), r) == Refused(NotFound))
            && (last.Some? ==> Get(Exec(ops), r) == Value(Returned(last.value)))
  {
    TableHoldsLastPut(ops, r);
    var last := LastPut(ops, SlotOf(r));
    if last.Some? {
      EnvelopeRoundTrip(last.value);
    }
  }
}
