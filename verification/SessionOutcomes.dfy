/**
 * What each call on the session tables answers and writes, row by row: every branch
 * stated over the token, its family and its owner as they are stored.
 */
module SessionOutcomes {
  import opened Prelude
  import opened Ids
  import opened SessionTables
  import opened SessionRuns

  /** The presented token, its family and its owner's password instant, as stored. */
  predicate Found(t: Tables, req: RotateRequest, token: Token, family: Family, changed: Time) {
    && req.presented in t.tokens && t.tokens[req.presented] == token
    && token.family in t.families && t.families[token.family] == family
    && family.userId in t.users && t.users[family.userId].passwordChangedAt == changed
  }

  /** One family ended, and nothing else. */
  function Ended(t: Tables, name: string, at: Time, reason: Reason): Tables
    requires name in t.families
  {
    Tables(t.families[name := Family(t.families[name].userId, t.families[name].startedAt, Some((at, reason)))],
           t.tokens, t.users)
  }

  lemma NothingFound(t: Tables, req: RotateRequest)
    requires !exists token, family, changed :: Found(t, req, token, family, changed)
    ensures Rotated(t, req) == (t, NotFound)
  {
    if Joined(t, req.presented) {
      var token := t.tokens[req.presented];
      var family := t.families[token.family];
      assert Found(t, req, token, family, t.users[family.userId].passwordChangedAt);
    }
  }

  /**
   * Every refusal of a rotation, in the order of its numbered contract: a revoked
   * family and an expired token change nothing, a family older than its owner's
   * password and a replayed token end that family and no other. When ending it would
   * date the revocation before the login the call fails and changes nothing.
   */
  lemma RefusalTable(t: Tables, req: RotateRequest, token: Token, family: Family, changed: Time)
    requires Found(t, req, token, family, changed)
    ensures family.revoked.Some? ==> Rotated(t, req) == (t, FamilyRevoked)
    ensures family.revoked.None? && family.startedAt < changed ==>
              Rotated(t, req) == if family.startedAt <= req.now
                                 then (Ended(t, token.family, req.now, CredentialChange), PredatesPassword)
                                 else (t, Failed)
    ensures family.revoked.None? && changed <= family.startedAt && token.expiresAt <= req.now ==>
              Rotated(t, req) == (t, Expired)
    ensures family.revoked.None? && changed <= family.startedAt && req.now < token.expiresAt && token.usedAt.Some? ==>
              Rotated(t, req) == if family.startedAt <= req.now
                                 then (Ended(t, token.family, req.now, ReuseDetected), Reuse)
                                 else (t, Failed)
  {
    hide Commit;
  }

  /** The successor row: minted now, behind the presented token, under the session's absolute lifetime. */
  predicate Succeeds(next: Token, req: RotateRequest, token: Token, family: Family) {
    && next.id == req.successorId && next.family == token.family && next.parent == Some(token.id)
    && next.issuedAt == req.now && next.usedAt == None
    && (if req.sessionLifetime > 0 && family.startedAt + req.sessionLifetime < req.successorExpiresAt
        then next.expiresAt == family.startedAt + req.sessionLifetime
        else next.expiresAt == req.successorExpiresAt)
  }

  /** What the column checks of the two redeeming writes ask. */
  predicate Writable(req: RotateRequest, token: Token, family: Family) {
    && token.issuedAt <= req.now && ValidId(req.successorId) && req.successorId != token.id
    && req.now < req.successorExpiresAt
    && (req.sessionLifetime > 0 ==> req.now < family.startedAt + req.sessionLifetime)
  }

  /** The successor's hash or identifier is in use, or the token already has a successor. */
  predicate Clashes(t: Tables, req: RotateRequest, token: Token) {
    || req.successorHash in t.tokens
    || exists h | h in t.tokens :: t.tokens[h].id == req.successorId || t.tokens[h].parent == Some(token.id)
  }

  /**
   * And the rest: an unused, unexpired token of a live, current family. A row that
   * breaks a check fails, a row that clashes is taken for a replay, and otherwise the
   * token is marked used, its successor is added, and no other row is touched.
   */
  lemma RedemptionTable(t: Tables, req: RotateRequest, token: Token, family: Family, changed: Time)
    requires Found(t, req, token, family, changed)
    requires family.revoked.None? && changed <= family.startedAt && req.now < token.expiresAt && token.usedAt.None?
    ensures !Writable(req, token, family) ==> Rotated(t, req) == (t, Failed)
    ensures Writable(req, token, family) && Clashes(t, req, token) ==>
              Rotated(t, req) == if family.startedAt <= req.now
                                 then (Ended(t, token.family, req.now, ReuseDetected), Reuse)
                                 else (t, Failed)
    ensures Writable(req, token, family) && !Clashes(t, req, token) ==>
              var (u, outcome) := Rotated(t, req);
              && outcome == RotateOK && u.families == t.families && u.users == t.users
              && u.tokens.Keys == t.tokens.Keys + {req.successorHash}
              && u.tokens[req.presented] == token.(usedAt := Some(req.now))
              && Succeeds(u.tokens[req.successorHash], req, token, family)
              && forall h | h in t.tokens && h != req.presented :: u.tokens[h] == t.tokens[h]
  {
    assert Writable(req, token, family) <==> ChecksPass(token, req, family.startedAt);
    assert Clashes(t, req, token) <==> !IndexesAdmit(t, req, token.id);
    hide Writable, ChecksPass, Clashes, IndexesAdmit;
  }

  /** Where a login's own token ends: at its lifetime's end, or at the session's if that comes first. */
  function LoginExpiry(now: Time, ttl: int, lifetime: int): Time {
    if 0 < lifetime < ttl then now + lifetime else now + ttl
  }

  /** Creating a session writes one live family and one unused root token, or nothing; which, and when. */
  lemma CreationRecords(t: Tables, n: NewSession)
    ensures Created(t, n).Some? <==>
            && n.family !in t.families && n.userId in t.users && ValidId(n.family) && ValidId(n.tokenId)
            && n.issuedAt < n.expiresAt && n.hash !in t.tokens
            && forall h | h in t.tokens ::
                 t.tokens[h].id != n.tokenId && (t.tokens[h].family != n.family || t.tokens[h].parent.Some?)
    ensures Created(t, n).Some? ==>
              Created(t, n).value == Tables(t.families[n.family := Family(n.userId, n.startedAt, None)],
                                            t.tokens[n.hash := Token(n.tokenId, n.family, None, n.issuedAt, n.expiresAt, None)],
                                            t.users)
  {}

  /** A login's session starts now, and so does its token, which ends with its lifetime or the session's. */
  lemma LoginRecords(t: Tables, now: Time, ttl: int, lifetime: int, family: string, userId: string, tokenId: string, hash: Hash)
    ensures var r := Created(t, OpenSession(now, ttl, lifetime, family, userId, tokenId, hash));
            var expires := LoginExpiry(now, ttl, lifetime);
            r.Some? ==>
              && now < expires
              && r.value.families == t.families[family := Family(userId, now, None)]
              && r.value.tokens == t.tokens[hash := Token(tokenId, family, None, now, expires, None)]
  {
    CreationRecords(t, OpenSession(now, ttl, lifetime, family, userId, tokenId, hash));
    hide Created;
  }

  /** What a service's refresh writes when it succeeds: a successor as long-lived as a login's token, under the same cap. */
  lemma RefreshRecords(t: Tables, now: Time, ttl: int, lifetime: int, presented: Hash, successorId: string, successorHash: Hash)
    ensures var req := RefreshRequest(now, ttl, lifetime, presented, successorId, successorHash);
            var (u, outcome) := Rotated(t, req);
            outcome == RotateOK ==>
              && presented in t.tokens && t.tokens[presented].family in t.families
              && var token := t.tokens[presented];
                 var end := t.families[token.family].startedAt + lifetime;
                 var expires := if lifetime > 0 && end < now + ttl then end else now + ttl;
                 && u.tokens.Keys == t.tokens.Keys + {successorHash} && successorHash !in t.tokens
                 && u.tokens[successorHash] == Token(successorId, token.family, Some(token.id), now, expires, None)
                 && u.tokens[presented] == token.(usedAt := Some(now))
  {
    var req := RefreshRequest(now, ttl, lifetime, presented, successorId, successorHash);
    hide Rotated;
    RedeemedRows(t, req);
  }

  lemma RedeemedRows(t: Tables, req: RotateRequest)
    ensures Rotated(t, req).1 == RotateOK ==>
              && req.presented in t.tokens && t.tokens[req.presented].family in t.families
              && var token := t.tokens[req.presented];
                 && Succeeds(Rotated(t, req).0.tokens[req.successorHash], req, token, t.families[token.family])
                 && Rotated(t, req).0.tokens.Keys == t.tokens.Keys + {req.successorHash} && req.successorHash !in t.tokens
                 && Rotated(t, req).0.tokens[req.presented] == token.(usedAt := Some(req.now))
  {
    hide IdTaken, HasSuccessor, ChecksPass;
  }

  /** Logging out everywhere ends the user's live families and spares every other row, or would predate one and does nothing. */
  lemma UserEnded(t: Tables, userId: string, at: Time, reason: Reason)
    ensures var r := UserRevoked(t, userId, at, reason);
            && (r.None? <==> exists f :: f in t.families && t.families[f].userId == userId
                                         && t.families[f].revoked.None? && at < t.families[f].startedAt)
            && (r.Some? ==>
                && r.value.tokens == t.tokens && r.value.users == t.users && r.value.families.Keys == t.families.Keys
                && forall f | f in t.families ::
                     var mine := t.families[f].userId == userId && t.families[f].revoked.None?;
                     r.value.families[f] == if mine then t.families[f].(revoked := Some((at, reason))) else t.families[f])
  {}

  /** Ending one family: a live one begun by then is ended, for that reason; a revoked or unknown one is left as it is. */
  lemma FamilyEnded(t: Tables, name: string, at: Time, reason: Reason)
    ensures name !in t.families || t.families[name].revoked.Some? ==> Revoked(t, name, at, reason) == Some(t)
    ensures name in t.families && t.families[name].revoked.None? ==>
              Revoked(t, name, at, reason)
              == if t.families[name].startedAt <= at then Some(Ended(t, name, at, reason)) else None
  {}

  /** The calls that are one statement each do to the tables what that statement does, and leave every request where it was. */
  lemma SingleStatements(s: Sys, userId: string, name: string, at: Time, reason: Reason, n: NewSession)
    ensures Step(s, EndFamily(name, at, reason)) == Sys(OrElse(s.tables, Revoked(s.tables, name, at, reason)), s.requests)
    ensures Step(s, EndUser(userId, at, reason)) == Sys(OrElse(s.tables, UserRevoked(s.tables, userId, at, reason)), s.requests)
    ensures Step(s, Login(n)) == Sys(OrElse(s.tables, Created(s.tables, n)), s.requests)
    ensures Step(s, Register(userId, at)).requests == Step(s, ChangePassword(userId, at)).requests == s.requests
    ensures Step(s, Register(userId, at)).tables
         == if userId in s.tables.users then s.tables else s.tables.(users := s.tables.users[userId := User(at)])
    ensures Step(s, ChangePassword(userId, at)).tables
         == if userId in s.tables.users then s.tables.(users := s.tables.users[userId := User(at)]) else s.tables
  {}
}
