/** Who may read a share, and what it shows (microservices/artifact_service/artifact_service.py:611-754),
    said of the rows of the tables. */
module ShareReads {
  import opened Common
  import opened Artifacts

  predicate Dead(sh: Share, now: int) {
    sh.revokedAt.Some? || (sh.expiresAt.Some? && sh.expiresAt.value < now)
  }

  predicate WrongOrg(sh: Share, org: Option<string>) {
    sh.orgScoped && sh.org != "" && (org.None? || org.value != sh.org)
  }

  /** The version a read is after: the one asked for by number, else the pinned one, else the highest. */
  ghost predicate Wanted(s: Store, sh: Share, version: Option<int>, v: Version) {
    && v in s.versions && v.artifact == sh.artifact
    && if version.Some? && version.value != 0 then v.number == version.value
       else if sh.pin.Some? then v.number == sh.pin.value
       else forall w :: w in s.versions && w.artifact == sh.artifact ==> w.number <= v.number
  }

  lemma {:induction false} NumberedFinds(versions: seq<Version>, artifact: string, number: int)
    ensures Numbered(versions, artifact, number).None? ==>
              forall w :: w in versions ==> !(w.artifact == artifact && w.number == number)
  {
    if versions != [] {
      NumberedFinds(versions[..|versions| - 1], artifact, number);
      assert forall w :: w in versions <==> w in versions[..|versions| - 1] || w == versions[|versions| - 1];
    }
  }

  lemma WantedIsUnique(s: Store, sh: Share, version: Option<int>, v: Version, w: Version)
    requires NumbersUnique(s.versions) && Wanted(s, sh, version, v) && Wanted(s, sh, version, w)
    ensures v == w
  {
    var i :| 0 <= i < |s.versions| && s.versions[i] == v;
    var j :| 0 <= j < |s.versions| && s.versions[j] == w;
    assert v.number == w.number;
  }

  function Chosen(s: Store, sh: Share, version: Option<int>): Option<Version> {
    var target := if version.Some? && version.value != 0 then version else sh.pin;
    if target.Some? then Numbered(s.versions, sh.artifact, target.value) else Highest(s.versions, sh.artifact)
  }

  lemma ChosenIsWanted(s: Store, sh: Share, version: Option<int>)
    ensures var c := Chosen(s, sh, version);
            if c.Some? then Wanted(s, sh, version, c.value) else forall v :: !Wanted(s, sh, version, v)
  {
    var target := if version.Some? && version.value != 0 then version else sh.pin;
    if target.Some? {
      NumberedIsARow(s.versions, sh.artifact, target.value);
      NumberedFinds(s.versions, sh.artifact, target.value);
    } else {
      HighestIsMaximum(s.versions, sh.artifact);
    }
  }

  /** The answer of `read_public_share`, with the share as fetched in `a` and the artifact and its
      versions as fetched in `b`: an unknown token is not found, a revoked or expired share is gone, a
      caller of another organisation is forbidden, a deleted artifact is not found, and otherwise the
      wanted version is shown, if there is one. */
  lemma ReadShareAnswers(a: Store, b: Store, token: string, version: Option<int>, org: Option<string>)
    requires NumbersUnique(b.versions)
    ensures token !in a.shares ==> ReadShare(a, b, token, version, org) == Refused(NotFound)
    ensures token in a.shares ==>
              var sh, r := a.shares[token], ReadShare(a, b, token, version, org);
              var barred := Dead(sh, a.now) || WrongOrg(sh, org);
              var there := sh.artifact in b.artifacts && !b.artifacts[sh.artifact].deleted;
              && (r == Refused(Gone) <==> Dead(sh, a.now))
              && (r == Refused(Forbidden) <==> !Dead(sh, a.now) && WrongOrg(sh, org))
              && (r == Refused(NotFound) <==> !barred && !there)
              && (forall v :: r == Shown(v) <==> !barred && there && Wanted(b, sh, version, v))
              && (r == Refused(NoSuchVersion) <==> !barred && there && forall v :: !Wanted(b, sh, version, v))
  {
    if token in a.shares {
      var sh := a.shares[token];
      var c := Chosen(b, sh, version);
      ChosenIsWanted(b, sh, version);
      forall v | Wanted(b, sh, version, v) ensures c == Some(v) {
        WantedIsUnique(b, sh, version, c.value, v);
      }
      hide Wanted, Numbered, Highest, NumbersUnique;
    }
  }

  // ----- Publishing ----------------------------------------------------------------------

  /** Publishing puts the share under its token, unrevoked, if the token is new and the artifact is
      there, and otherwise changes nothing; it never touches another share. */
  lemma PublishEffect(s: Store, token: string, sh: Share)
    ensures var s' := Run(s, InsertShare(token, sh));
            && (token !in s.shares && sh.artifact in s.artifacts ==>
                  s'.shares == s.shares[token := Share(sh.artifact, sh.pin, sh.orgScoped, sh.org, sh.expiresAt, None)])
            && (token in s.shares || sh.artifact !in s.artifacts ==> s'.shares == s.shares)
            && s'.artifacts == s.artifacts && s'.versions == s.versions && s'.now == s.now
  {
  }

  // ----- Revoking and deleting -----------------------------------------------------------

  /** Revoking reaches the shares of the artifact it is for, one or all, and no other; a share that
      was revoked before keeps its time. */
  lemma RevokeEffect(s: Store, artifact: string, token: string, t: string)
    ensures var one, all := Run(s, RevokeShare(artifact, token)), Run(s, RevokeAll(artifact));
            && one.shares.Keys == s.shares.Keys == all.shares.Keys
            && one.versions == all.versions == s.versions && one.artifacts == all.artifacts == s.artifacts
            && (t in s.shares ==>
                  var sh := s.shares[t];
                  var revoked := if sh.revokedAt.None? then sh.(revokedAt := Some(s.now)) else sh;
                  && one.shares[t] == (if t == token && sh.artifact == artifact then revoked else sh)
                  && all.shares[t] == (if sh.artifact == artifact then revoked else sh))
  {
  }

  /** Once the statement that revokes a share has run, every read of it from then on answers Gone. */
  lemma RevokedShareIsGone(sts: seq<Statement>, k: nat, token: string, i: nat, j: nat, version: Option<int>, org: Option<string>)
    requires k < i <= j <= |sts| && token in At(sts, k).shares
    requires sts[k] == RevokeShare(At(sts, k).shares[token].artifact, token) || sts[k] == RevokeAll(At(sts, k).shares[token].artifact)
    ensures ReadShare(At(sts, i), At(sts, j), token, version, org) == Refused(Gone)
  {
    assert sts[..k + 1][..k] == sts[..k];
    RevokeEffect(At(sts, k), At(sts, k).shares[token].artifact, token, token);
    assert At(sts, k + 1).shares[token].revokedAt.Some?;
    LaterContinues(sts, k + 1, i);
  }

  predicate Deleted(s: Store, id: string) { id in s.artifacts && s.artifacts[id].deleted }

  /** Only its owner deletes an artifact, and only that one. */
  lemma DeleteEffect(s: Store, id: string, user: string, other: string)
    ensures var s' := Run(s, SoftDelete(id, user));
            && s'.artifacts.Keys == s.artifacts.Keys && s'.versions == s.versions && s'.shares == s.shares
            && (Deleted(s', other) <==> Deleted(s, other) || (other == id && id in s.artifacts && s.artifacts[id].owner == user))
  {
  }

  lemma StaysDeleted(s: Store, st: Statement, id: string)
    requires Deleted(s, id)
    ensures Deleted(Run(s, st), id)
  {
  }

  /** A deleted artifact is shown through none of its shares, ever again. */
  lemma {:induction false} DeletedForGood(sts: seq<Statement>, k: nat, j: nat, id: string)
    requires k <= j <= |sts| && Deleted(At(sts, k), id)
    ensures Deleted(At(sts, j), id)
    ensures forall a: Store, token, version, org ::
              token in a.shares && a.shares[token].artifact == id ==> ReadShare(a, At(sts, j), token, version, org).Refused?
  {
    if k < j {
      DeletedForGood(sts, k, j - 1, id);
      assert sts[..j][..j - 1] == sts[..j - 1];
      StaysDeleted(At(sts, j - 1), sts[j - 1], id);
    }
  }
}
