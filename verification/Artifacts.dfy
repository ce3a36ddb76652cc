/** Versions and share links (microservices/artifact_service/artifact_service.py:403-438 and
    552-754) over the tables of artifact_repository.py.  Each SQL statement is one atomic step. */
module Artifacts {
  import opened Common

  datatype Version = Version(id: string, artifact: string, number: int, content: string)

  datatype Artifact = Artifact(owner: string, org: string, current: string, deleted: bool)

  datatype Share = Share(artifact: string, pin: Option<int>, orgScoped: bool, org: string, expiresAt: Option<int>, revokedAt: Option<int>)

  datatype Store = Store(
    now: int,
    artifacts: map<string, Artifact>,
    versions: seq<Version>,
    shares: map<string, Share>)

  const EMPTY := Store(0, map[], [], map[])

  // ----- Statements ----------------------------------------------------------------------

  datatype Statement =
    | InsertArtifact(id: string, a: Artifact)
    | InsertVersion(v: Version)
    | SetCurrent(artifact: string, version: string)
    | SoftDelete(artifact: string, user: string)
    | InsertShare(token: string, s: Share)
    | RevokeShare(artifact: string, token: string)
    | RevokeAll(artifact: string)
    | Advance(dt: nat)

  /** UNIQUE (artifact_id, number), CHECK (number >= 1), the primary key and the foreign key. */
  predicate VersionAllowed(s: Store, v: Version) {
    && v.number >= 1 && v.artifact in s.artifacts
    && forall i :: 0 <= i < |s.versions| ==>
         s.versions[i].id != v.id && !(s.versions[i].artifact == v.artifact && s.versions[i].number == v.number)
  }

  function Revoked(sh: Share, now: int): Share {
    if sh.revokedAt.None? then sh.(revokedAt := Some(now)) else sh
  }

  /** A statement that violates a constraint changes nothing. */
  function Run(s: Store, st: Statement): Store {
    match st
    case InsertArtifact(id, a) => if id in s.artifacts then s else s.(artifacts := s.artifacts[id := a.(deleted := false)])
    case InsertVersion(v) => if VersionAllowed(s, v) then s.(versions := s.versions + [v]) else s
    case SetCurrent(id, version) =>
      if Visible(s, id) then s.(artifacts := s.artifacts[id := s.artifacts[id].(current := version)]) else s
    case SoftDelete(id, user) =>
      if Visible(s, id) && s.artifacts[id].owner == user then s.(artifacts := s.artifacts[id := s.artifacts[id].(deleted := true)]) else s
    case InsertShare(token, sh) =>
      if token in s.shares || sh.artifact !in s.artifacts then s else s.(shares := s.shares[token := sh.(revokedAt := None)])
    case RevokeShare(artifact, token) =>
      if token in s.shares && s.shares[token].artifact == artifact
      then s.(shares := s.shares[token := Revoked(s.shares[token], s.now)]) else s
    case RevokeAll(artifact) =>
      s.(shares := map t | t in s.shares ::
                     if s.shares[t].artifact == artifact then Revoked(s.shares[t], s.now) else s.shares[t])
    case Advance(dt) => s.(now := s.now + dt)
  }

  predicate Visible(s: Store, id: string) { id in s.artifacts && !s.artifacts[id].deleted }

  function Exec(s: Store, sts: seq<Statement>): Store {
    if sts == [] then s else Run(Exec(s, sts[..|sts| - 1]), sts[|sts| - 1])
  }

  // ----- Reading a share -----------------------------------------------------------------

  function VersionsOf(versions: seq<Version>, artifact: string): seq<Version> {
    if versions == [] then []
    else
      var v := versions[|versions| - 1];
      VersionsOf(versions[..|versions| - 1], artifact) + if v.artifact == artifact then [v] else []
  }

  function Numbered(versions: seq<Version>, artifact: string, number: int): Option<Version> {
    if versions == [] then None
    else
      var v := versions[|versions| - 1];
      if v.artifact == artifact && v.number == number then Some(v)
      else Numbered(versions[..|versions| - 1], artifact, number)
  }

  /** `max(artifact.versions, key=number)` */
  function Highest(versions: seq<Version>, artifact: string): Option<Version> {
    if versions == [] then None
    else
      var v, rest := versions[|versions| - 1], Highest(versions[..|versions| - 1], artifact);
      if v.artifact == artifact && (rest.None? || rest.value.number < v.number) then Some(v) else rest
  }

  predicate ShareActive(sh: Share, now: int) {
    sh.revokedAt.None? && (sh.expiresAt.Some? ==> now <= sh.expiresAt.value)
  }

  datatype Refusal = NotFound | Gone | Forbidden | NoSuchVersion

  datatype ReadResult = Shown(v: Version) | Refused(why: Refusal)

  /** `read_public_share`: the share is read first, the artifact and its versions later, so they
      may come from different states.  A `version` of 0 counts as not given. */
  function ReadShare(atShare: Store, atVersions: Store, token: string, version: Option<int>, org: Option<string>): ReadResult {
    if token !in atShare.shares then Refused(NotFound)
    else
      var sh := atShare.shares[token];
      if !ShareActive(sh, atShare.now) then Refused(Gone)
      else if sh.orgScoped && sh.org != "" && org != Some(sh.org) then Refused(Forbidden)
      else if !Visible(atVersions, sh.artifact) then Refused(NotFound)
      else
        var target := if version.Some? && version.value != 0 then version else sh.pin;
        var chosen := if target.Some? then Numbered(atVersions.versions, sh.artifact, target.value)
                      else Highest(atVersions.versions, sh.artifact);
        if chosen.Some? then Shown(chosen.value) else Refused(NoSuchVersion)
  }

  // ----- Every run of statements ---------------------------------------------------------

  ghost predicate NumbersUnique(versions: seq<Version>) {
    forall i, j :: 0 <= i < j < |versions| && versions[i].artifact == versions[j].artifact ==>
      versions[i].number != versions[j].number
  }

  /** A share keeps its terms, and once revoked stays so from that time. */
  predicate Keeps(sh: Share, later: Share) {
    && later.(revokedAt := None) == sh.(revokedAt := None)
    && (sh.revokedAt.Some? ==> later.revokedAt == sh.revokedAt)
  }

  /** `later` has every version and every share of `s`. */
  ghost predicate Continues(s: Store, later: Store) {
    && s.now <= later.now
    && s.versions <= later.versions
    && forall t :: t in s.shares ==> t in later.shares && Keeps(s.shares[t], later.shares[t])
  }

  lemma StatementContinues(s: Store, st: Statement)
    ensures Continues(s, Run(s, st))
  {
    forall t | t in s.shares
      ensures t in Run(s, st).shares && Keeps(s.shares[t], Run(s, st).shares[t])
    {
      ShareContinues(s, st, t);
    }
  }

  lemma ShareContinues(s: Store, st: Statement, t: string)
    requires t in s.shares
    ensures t in Run(s, st).shares && Keeps(s.shares[t], Run(s, st).shares[t])
  {
  }

  lemma NumbersStayUnique(s: Store, st: Statement)
    requires NumbersUnique(s.versions)
    ensures NumbersUnique(Run(s, st).versions)
  {
    if !st.InsertVersion? { assert Run(s, st).versions == s.versions; }
  }

  lemma {:induction false} RunsContinue(s: Store, sts: seq<Statement>)
    requires NumbersUnique(s.versions)
    ensures Continues(s, Exec(s, sts)) && NumbersUnique(Exec(s, sts).versions)
  {
    if sts != [] {
      var before := Exec(s, sts[..|sts| - 1]);
      RunsContinue(s, sts[..|sts| - 1]);
      StatementContinues(before, sts[|sts| - 1]);
      NumbersStayUnique(before, sts[|sts| - 1]);
      ContinuesTransitive(s, before, Exec(s, sts));
    }
  }

  lemma ContinuesTransitive(a: Store, b: Store, c: Store)
    requires Continues(a, b) && Continues(b, c)
    ensures Continues(a, c)
  {
    forall t | t in a.shares
      ensures t in c.shares && Keeps(a.shares[t], c.shares[t])
    {
      assert t in b.shares;
    }
  }

  lemma {:induction false} NumberedIsTheOne(versions: seq<Version>, artifact: string, number: int, i: nat)
    requires NumbersUnique(versions) && i < |versions|
    requires versions[i].artifact == artifact && versions[i].number == number
    ensures Numbered(versions, artifact, number) == Some(versions[i])
  {
    if i < |versions| - 1 { NumberedIsTheOne(versions[..|versions| - 1], artifact, number, i); }
  }

  lemma {:induction false} NumberedIsARow(versions: seq<Version>, artifact: string, number: int)
    ensures var v := Numbered(versions, artifact, number);
            v.Some? ==> v.value in versions && v.value.artifact == artifact && v.value.number == number
  {
    if versions != [] { NumberedIsARow(versions[..|versions| - 1], artifact, number); }
  }

  /** The tables after the first `n` statements of a run. */
  function At(sts: seq<Statement>, n: nat): Store
    requires n <= |sts|
  {
    Exec(EMPTY, sts[..n])
  }

  lemma {:induction false} LaterContinues(sts: seq<Statement>, i: nat, j: nat)
    requires i <= j <= |sts|
    ensures Continues(At(sts, i), At(sts, j)) && NumbersUnique(At(sts, j).versions)
  {
    if i == j {
      RunsContinue(EMPTY, sts[..i]);
    } else {
      LaterContinues(sts, i, j - 1);
      assert sts[..j][..|sts[..j]| - 1] == sts[..j - 1];
      StatementContinues(At(sts, j - 1), sts[j - 1]);
      NumbersStayUnique(At(sts, j - 1), sts[j - 1]);
      ContinuesTransitive(At(sts, i), At(sts, j - 1), At(sts, j));
    }
  }

  /** What a pinned share shows is the row of its pinned number, in this state and every later one. */
  lemma PinnedRowIsKept(sts: seq<Statement>, i: nat, j: nat, artifact: string, number: int)
    requires i <= j <= |sts| && Numbered(At(sts, i).versions, artifact, number).Some?
    ensures Numbered(At(sts, j).versions, artifact, number) == Numbered(At(sts, i).versions, artifact, number)
    ensures Numbered(At(sts, i).versions, artifact, number).value.number == number
  {
    LaterContinues(sts, i, j);
    var early, late := At(sts, i).versions, At(sts, j).versions;
    NumberedIsARow(early, artifact, number);
    var k :| 0 <= k < |early| && early[k] == Numbered(early, artifact, number).value;
    assert late[k] == early[k];
    NumberedIsTheOne(late, artifact, number, k);
  }

  /** Two reads of one pinned share anywhere in a run, one after the other or overlapping, show the
      identical version if they succeed, whatever is published, added, concurrently or with
      explicit numbers, revoked or deleted in between.  Read `k` fetches the share after `i_k`
      statements and its versions after `j_k`. */
  lemma PinnedShareIsStable(sts: seq<Statement>, token: string, i1: nat, j1: nat, org1: Option<string>,
                            i2: nat, j2: nat, org2: Option<string>)
    requires i1 <= j1 <= |sts| && i2 <= j2 <= |sts|
    requires token in At(sts, i1).shares && At(sts, i1).shares[token].pin.Some?
    ensures var first := ReadShare(At(sts, i1), At(sts, j1), token, None, org1);
            var second := ReadShare(At(sts, i2), At(sts, j2), token, None, org2);
            first.Shown? && second.Shown? ==>
              first == second && first.v.number == At(sts, i1).shares[token].pin.value
  {
    var sh := At(sts, i1).shares[token];
    if ReadShare(At(sts, i1), At(sts, j1), token, None, org1).Shown?
       && ReadShare(At(sts, i2), At(sts, j2), token, None, org2).Shown? {
      LaterContinues(sts, if i1 <= i2 then i1 else i2, if i1 <= i2 then i2 else i1);
      assert At(sts, i2).shares[token].(revokedAt := None) == sh.(revokedAt := None);
      hide At, Numbered;
      if j1 <= j2 {
        PinnedRowIsKept(sts, j1, j2, sh.artifact, sh.pin.value);
      } else {
        PinnedRowIsKept(sts, j2, j1, sh.artifact, sh.pin.value);
      }
    }
  }

  /** Once revoked or expired, a share answers Gone for ever. */
  lemma DeadShareStaysDead(sts: seq<Statement>, token: string, more: seq<Statement>, after: seq<Statement>,
                           version: Option<int>, org: Option<string>)
    requires var s := Exec(EMPTY, sts);
             && token in s.shares
             && (s.shares[token].revokedAt.Some?
                 || (s.shares[token].expiresAt.Some? && s.shares[token].expiresAt.value < s.now))
    ensures var later := Exec(Exec(EMPTY, sts), more);
            ReadShare(later, Exec(later, after), token, version, org) == Refused(Gone)
  {
    RunsContinue(EMPTY, sts);
    var s := Exec(EMPTY, sts);
    RunsContinue(s, more);
    var later := Exec(s, more);
    assert later.shares[token].(revokedAt := None) == s.shares[token].(revokedAt := None);
  }

  // ----- Versions in sequence ------------------------------------------------------------

  function MaxNumber(versions: seq<Version>, artifact: string): int {
    if Highest(versions, artifact).Some? then Highest(versions, artifact).value.number else 0
  }

  datatype AddError = Missing | NotOwner | NoContent | Conflict

  datatype Added = Version'(v: Version) | Failed(why: AddError)

  /** `add_version` without interference: an omitted number is the highest plus one. */
  function AddVersionSpec(s: Store, artifact: string, user: string, id: string, number: Option<int>, content: string): (Store, Added) {
    if !Visible(s, artifact) then (s, Failed(Missing))
    else if s.artifacts[artifact].owner != user then (s, Failed(NotOwner))
    else if content == "" then (s, Failed(NoContent))
    else
      var n := if number.Some? && number.value != 0 then number.value else MaxNumber(s.versions, artifact) + 1;
      var v := Version(id, artifact, n, content);
      if !VersionAllowed(s, v) then (s, Failed(Conflict))
      else (Run(Run(s, InsertVersion(v)), SetCurrent(artifact, id)), Version'(v))
  }

  lemma {:induction false} HighestIsMaximum(versions: seq<Version>, artifact: string)
    ensures var h := Highest(versions, artifact);
            && (h.Some? ==> h.value in versions && h.value.artifact == artifact
                            && forall w :: w in versions && w.artifact == artifact ==> w.number <= h.value.number)
            && (h.None? ==> forall w :: w in versions ==> w.artifact != artifact)
  {
    if versions != [] {
      var front, v := versions[..|versions| - 1], versions[|versions| - 1];
      HighestIsMaximum(front, artifact);
      assert forall w :: w in versions <==> w in front || w == v;
    }
  }

  /** Whether the table can take version `n` of the artifact under this id. */
  ghost predicate Fits(s: Store, artifact: string, id: string, n: int) {
    n >= 1 && forall i :: 0 <= i < |s.versions| ==>
                s.versions[i].id != id && (s.versions[i].artifact == artifact ==> s.versions[i].number != n)
  }

  /** What `add_version` answers and does: an artifact that is missing or deleted, another's artifact,
      empty content, and a number or id already used are refused and change nothing; otherwise the
      version is appended under the number asked for, or one above the highest, and named current. */
  lemma AddVersionAnswers(s: Store, artifact: string, user: string, id: string, number: Option<int>, content: string)
    ensures var (s', r) := AddVersionSpec(s, artifact, user, id, number, content);
            var visible := artifact in s.artifacts && !s.artifacts[artifact].deleted;
            var mine := visible && s.artifacts[artifact].owner == user;
            var n := if number.Some? && number.value != 0 then number.value else MaxNumber(s.versions, artifact) + 1;
            var v := Version(id, artifact, n, content);
            && (r == Failed(Missing) <==> !visible)
            && (r == Failed(NotOwner) <==> visible && !mine)
            && (r == Failed(NoContent) <==> mine && content == "")
            && (r == Failed(Conflict) <==> mine && content != "" && !Fits(s, artifact, id, n))
            && (r.Version'? <==> mine && content != "" && Fits(s, artifact, id, n))
            && (r.Failed? ==> s' == s)
            && (r.Version'? ==>
                  && r.v == v && s'.versions == s.versions + [v]
                  && s'.artifacts == s.artifacts[artifact := s.artifacts[artifact].(current := id)]
                  && s'.shares == s.shares && s'.now == s.now)
    ensures forall w :: w in s.versions && w.artifact == artifact ==> w.number <= MaxNumber(s.versions, artifact)
    ensures MaxNumber(s.versions, artifact) == 0
            || exists w :: w in s.versions && w.artifact == artifact && w.number == MaxNumber(s.versions, artifact)
  {
    HighestIsMaximum(s.versions, artifact);
  }

  /** `create_artifact`: the row, its first version, and the pin on it. */
  function CreateArtifact(s: Store, artifact: string, user: string, id: string, content: string): Store {
    var v := Version(id, artifact, 1, content);
    if artifact in s.artifacts || content == "" || !VersionAllowed(Run(s, InsertArtifact(artifact, Artifact(user, "", id, false))), v) then s
    else
      Run(Run(Run(s, InsertArtifact(artifact, Artifact(user, "", id, false))), InsertVersion(v)), SetCurrent(artifact, id))
  }

  /** The tables as the service changes them, one statement after another. */
  class Tables {
    var store: Store

    constructor ()
      ensures store == EMPTY
    {
      store := EMPTY;
    }

    method Execute(st: Statement)
      modifies this
      ensures store == Run(old(store), st)
    {
      store := Run(store, st);
    }

    method AddVersion(artifact: string, user: string, id: string, number: Option<int>, content: string) returns (r: Added)
      modifies this
      ensures (store, r) == AddVersionSpec(old(store), artifact, user, id, number, content)
    {
      if !Visible(store, artifact) {
        return Failed(Missing);
      }
      if store.artifacts[artifact].owner != user {
        return Failed(NotOwner);
      }
      if content == "" {
        return Failed(NoContent);
      }
      var n: int;
      if number.Some? && number.value != 0 {
        n := number.value;
      } else {
        n := MaxNumber(store.versions, artifact) + 1;
      }
      var v := Version(id, artifact, n, content);
      if !VersionAllowed(store, v) {
        return Failed(Conflict);
      }
      Execute(InsertVersion(v));
      Execute(SetCurrent(artifact, id));
      return Version'(v);
    }
  }

  datatype Call =
    | Create(artifact: string, user: string, id: string, content: string)
    | Add(artifact: string, user: string, id: string, content: string)
    | Delete(artifact: string, user: string)

  function Do(s: Store, c: Call): Store {
    match c
    case Create(a, user, id, content) => CreateArtifact(s, a, user, id, content)
    case Add(a, user, id, content) => AddVersionSpec(s, a, user, id, None, content).0
    case Delete(a, user) => Run(s, SoftDelete(a, user))
  }

  function DoAll(cs: seq<Call>): Store {
    if cs == [] then EMPTY else Do(DoAll(cs[..|cs| - 1]), cs[|cs| - 1])
  }

  function CurrentOf(s: Store, artifact: string): Option<string> {
    if artifact in s.artifacts then Some(s.artifacts[artifact].current) else None
  }

  /** The versions of an artifact are numbered 1, 2, ... in the order they were added, and the
      artifact names the last of them. */
  ghost predicate NumberedInOrder(s: Store, artifact: string) {
    Chain(artifact, VersionsOf(s.versions, artifact), Highest(s.versions, artifact), CurrentOf(s, artifact))
  }

  ghost predicate Chain(artifact: string, vs: seq<Version>, highest: Option<Version>, current: Option<string>) {
    && (forall i :: 0 <= i < |vs| ==> vs[i].number == i + 1 && vs[i].artifact == artifact)
    && if vs == [] then highest.None? && current.None?
       else highest == Some(vs[|vs| - 1]) && current == Some(vs[|vs| - 1].id)
  }

  lemma ChainSnoc(artifact: string, vs: seq<Version>, highest: Option<Version>, current: Option<string>, v: Version)
    requires Chain(artifact, vs, highest, current) && v.artifact == artifact && v.number == |vs| + 1
    ensures Chain(artifact, vs + [v], Some(v), Some(v.id))
  {
  }

  lemma VersionsSnoc(versions: seq<Version>, v: Version, artifact: string)
    ensures v.artifact != artifact ==>
              VersionsOf(versions + [v], artifact) == VersionsOf(versions, artifact)
              && Highest(versions + [v], artifact) == Highest(versions, artifact)
    ensures v.artifact == artifact ==>
              VersionsOf(versions + [v], artifact) == VersionsOf(versions, artifact) + [v]
              && (v.number > Max(0, MaxNumber(versions, artifact)) ==> Highest(versions + [v], artifact) == Some(v))
  {
    assert (versions + [v])[..|versions + [v]| - 1] == versions;
  }

  /** A new highest version of an artifact, named current, keeps every artifact in order. */
  lemma NextVersionKeepsOrder(s: Store, s': Store, v: Version, artifact: string)
    requires NumberedInOrder(s, artifact) && s'.versions == s.versions + [v]
    requires CurrentOf(s', artifact) == if artifact == v.artifact then Some(v.id) else CurrentOf(s, artifact)
    requires v.artifact == artifact ==> v.number == MaxNumber(s.versions, artifact) + 1
    ensures NumberedInOrder(s', artifact)
  {
    VersionsSnoc(s.versions, v, artifact);
    if artifact == v.artifact {
      ChainSnoc(artifact, VersionsOf(s.versions, artifact), Highest(s.versions, artifact), CurrentOf(s, artifact), v);
    }
  }

  lemma CreateKeepsOrder(s: Store, c: Call, artifact: string)
    requires c.Create? && NumberedInOrder(s, artifact)
    ensures NumberedInOrder(Do(s, c), artifact)
  {
    var s' := Do(s, c);
    if s' != s {
      CreateEffect(s, c);
      hide Do;
      NextVersionKeepsOrder(s, s', Version(c.id, c.artifact, 1, c.content), artifact);
    }
  }

  lemma CreateEffect(s: Store, c: Call)
    requires c.Create? && Do(s, c) != s
    ensures c.artifact !in s.artifacts && c.content != "" && Fits(s, c.artifact, c.id, 1)
    ensures Do(s, c).versions == s.versions + [Version(c.id, c.artifact, 1, c.content)]
    ensures Do(s, c).artifacts == s.artifacts[c.artifact := Artifact(c.user, "", c.id, false)]
  {
    var a := Artifact(c.user, "", c.id, false);
    assert s.artifacts[c.artifact := a][c.artifact := a] == s.artifacts[c.artifact := a];
  }

  lemma AddKeepsOrder(s: Store, c: Call, artifact: string)
    requires c.Add? && NumberedInOrder(s, artifact)
    ensures NumberedInOrder(Do(s, c), artifact)
  {
    var v := Version(c.id, c.artifact, MaxNumber(s.versions, c.artifact) + 1, c.content);
    if Do(s, c) != s {
      AddEffect(s, c);
      hide Do;
      NextVersionKeepsOrder(s, Do(s, c), v, artifact);
    }
  }

  lemma AddEffect(s: Store, c: Call)
    requires c.Add? && Do(s, c) != s
    ensures Do(s, c).versions == s.versions + [Version(c.id, c.artifact, MaxNumber(s.versions, c.artifact) + 1, c.content)]
    ensures c.artifact in s.artifacts
    ensures Do(s, c).artifacts == s.artifacts[c.artifact := s.artifacts[c.artifact].(current := c.id)]
  {
  }

  lemma DeleteKeepsOrder(s: Store, c: Call, artifact: string)
    requires c.Delete? && NumberedInOrder(s, artifact)
    ensures NumberedInOrder(Do(s, c), artifact)
  {
    assert Do(s, c).versions == s.versions && CurrentOf(Do(s, c), artifact) == CurrentOf(s, artifact);
  }

  lemma StepKeepsOrder(s: Store, c: Call, artifact: string)
    requires NumberedInOrder(s, artifact)
    ensures NumberedInOrder(Do(s, c), artifact)
  {
    hide Do, NumberedInOrder;
    match c
    case Create(_, _, _, _) => CreateKeepsOrder(s, c, artifact);
    case Add(_, _, _, _) => AddKeepsOrder(s, c, artifact);
    case Delete(_, _) => DeleteKeepsOrder(s, c, artifact);
  }

  /** In every sequential run without explicit numbers each artifact's numbers are exactly 1 to n,
      and the version the public reader picks, the highest, is the one the artifact names current. */
  lemma {:induction false} SequentialVersionsInOrder(cs: seq<Call>, artifact: string)
    ensures NumberedInOrder(DoAll(cs), artifact)
    ensures artifact in DoAll(cs).artifacts ==>
              Highest(DoAll(cs).versions, artifact).Some?
              && Highest(DoAll(cs).versions, artifact).value.id == DoAll(cs).artifacts[artifact].current
  {
    if cs != [] {
      SequentialVersionsInOrder(cs[..|cs| - 1], artifact);
      StepKeepsOrder(DoAll(cs[..|cs| - 1]), cs[|cs| - 1], artifact);
    }
  }

  /** With an explicit number the two disagree exactly when it is below an existing one. */
  lemma ExplicitNumberAgreesIffHighest(s: Store, artifact: string, user: string, id: string, number: int, content: string)
    requires number >= 1 && AddVersionSpec(s, artifact, user, id, Some(number), content).1.Version'?
    requires MaxNumber(s.versions, artifact) >= 0
    ensures var s' := AddVersionSpec(s, artifact, user, id, Some(number), content).0;
            Highest(s'.versions, artifact).value.id == s'.artifacts[artifact].current
            <==> number > MaxNumber(s.versions, artifact)
  {
    var v := Version(id, artifact, number, content);
    assert (s.versions + [v])[..|s.versions + [v]| - 1] == s.versions;
    HighestIsARow(s.versions, artifact);
  }

  lemma {:induction false} HighestIsARow(versions: seq<Version>, artifact: string)
    ensures Highest(versions, artifact).Some? ==> Highest(versions, artifact).value in versions
  {
    if versions != [] { HighestIsARow(versions[..|versions| - 1], artifact); }
  }

  /** Two overlapping `add_version` calls can leave the lower version current: both numbers are
      inserted in turn and the later call pins its own first, then the earlier call pins its own. */
  lemma OverlappingAddsDisagree(s: Store, v: Version, w: Version)
    requires Visible(s, v.artifact) && MaxNumber(s.versions, v.artifact) >= 0
    requires VersionAllowed(s, v) && v.number == MaxNumber(s.versions, v.artifact) + 1
    requires VersionAllowed(Run(s, InsertVersion(v)), w) && w.artifact == v.artifact && w.number == v.number + 1
    ensures var both := Run(Run(s, InsertVersion(v)), InsertVersion(w));
            var s' := Run(Run(both, SetCurrent(w.artifact, w.id)), SetCurrent(v.artifact, v.id));
            Highest(s'.versions, v.artifact) == Some(w) && s'.artifacts[v.artifact].current == v.id && v.id != w.id
  {
    VersionsSnoc(s.versions, v, v.artifact);
    VersionsSnoc(s.versions + [v], w, v.artifact);
    var s1 := Run(s, InsertVersion(v));
    assert s1.versions[|s.versions|] == v;
  }
}
