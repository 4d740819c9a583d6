/** The store over the session tables: each method updates rows in place, a transaction at a time. */
module SessionStore {
  import opened Prelude
  import opened Ids
  import opened SessionTables

  datatype InsertResult = Inserted | DuplicateKey | CheckFailed

  /** Marking a row used moves no key, identifier or parent. */
  lemma MarkKeepsIndexes(t: Tables, hash: Hash, now: Time, id: string)
    requires hash in t.tokens
    ensures var after := t.(tokens := t.tokens[hash := t.tokens[hash].(usedAt := Some(now))]);
            (IdTaken(after, id) <==> IdTaken(t, id)) && (HasSuccessor(after, id) <==> HasSuccessor(t, id))
  {
    var after := t.(tokens := t.tokens[hash := t.tokens[hash].(usedAt := Some(now))]);
    assert forall h | h in t.tokens :: after.tokens[h].id == t.tokens[h].id && after.tokens[h].parent == t.tokens[h].parent;
  }

  class Store {
    var families: map<string, Family>
    var tokens: map<Hash, Token>
    var users: map<string, User>

    ghost function State(): Tables
      reads this
    {
      Tables(families, tokens, users)
    }

    constructor ()
      ensures State() == Tables(map[], map[], map[])
    {
      families, tokens, users := map[], map[], map[];
    }

    /** One token row against its column checks, then against its unique indexes. */
    method InsertToken(hash: Hash, token: Token) returns (r: InsertResult)
      modifies `tokens
      ensures r.CheckFailed? <==> !(ValidId(token.id) && token.parent != Some(token.id) && token.issuedAt < token.expiresAt)
      ensures !r.CheckFailed? ==>
                (r.Inserted? <==>
                  && hash !in old(tokens) && !IdTaken(old(State()), token.id)
                  && (token.parent.Some? ==> !HasSuccessor(old(State()), token.parent.value))
                  && (token.parent.None? ==> !HasRoot(old(State()), token.family)))
      ensures tokens == if r.Inserted? then old(tokens)[hash := token] else old(tokens)
    {
      if !ValidId(token.id) || token.parent == Some(token.id) || token.issuedAt >= token.expiresAt {
        return CheckFailed;
      }
      if hash in tokens || exists h | h in tokens :: tokens[h].id == token.id {
        return DuplicateKey;
      }
      if token.parent.Some? && exists h | h in tokens :: tokens[h].parent == token.parent {
        return DuplicateKey;
      }
      if token.parent.None? && exists h | h in tokens :: tokens[h].family == token.family && tokens[h].parent == None {
        return DuplicateKey;
      }
      tokens := tokens[hash := token];
      return Inserted;
    }

    /** A family and its root token in one transaction. */
    method CreateSession(n: NewSession) returns (ok: bool)
      modifies `families, `tokens
      ensures ok <==> Created(old(State()), n).Some?
      ensures State() == if ok then Created(old(State()), n).value else old(State())
    {
      if n.family in families || n.userId !in users || !ValidId(n.family) {
        return false;
      }
      var before := families;
      families := families[n.family := Family(n.userId, n.startedAt, None)];
      var inserted := InsertToken(n.hash, Token(n.tokenId, n.family, None, n.issuedAt, n.expiresAt, None));
      if !inserted.Inserted? {
        families := before;
        return false;
      }
      return true;
    }

    /** The redeeming update: it insists on an unused row, and on a use no earlier than the issue. */
    method MarkUsed(hash: Hash, now: Time) returns (rows: nat, ok: bool)
      requires hash in tokens
      modifies `tokens
      ensures ok <==> old(tokens)[hash].usedAt.Some? || old(tokens)[hash].issuedAt <= now
      ensures rows == if ok && old(tokens)[hash].usedAt.None? then 1 else 0
      ensures tokens == if rows == 1 then old(tokens)[hash := old(tokens)[hash].(usedAt := Some(now))] else old(tokens)
    {
      if tokens[hash].usedAt.Some? {
        return 0, true;
      }
      if now < tokens[hash].issuedAt {
        return 0, false;
      }
      tokens := tokens[hash := tokens[hash].(usedAt := Some(now))];
      return 1, true;
    }

    /** The redeeming writes; anything but a win rolls both back. */
    method Redeem(req: RotateRequest, startedAt: Time) returns (r: InsertResult)
      requires req.presented in tokens
      modifies `tokens
      ensures var c := Commit(old(State()), req, startedAt, true);
              && (r.Inserted? <==> c.Won?) && (r.DuplicateKey? <==> c.Lost?)
              && State() == if c.Won? then c.tables else old(State())
    {
      var before := tokens;
      var token := tokens[req.presented];
      var rows, ok := MarkUsed(req.presented, req.now);
      if !ok {
        return CheckFailed;
      }
      if rows == 0 {
        return DuplicateKey;
      }
      MarkKeepsIndexes(old(State()), req.presented, req.now, req.successorId);
      MarkKeepsIndexes(old(State()), req.presented, req.now, token.id);
      var expires := CappedExpiry(req.successorExpiresAt, startedAt, req.sessionLifetime);
      r := InsertToken(req.successorHash, Token(req.successorId, token.family, Some(token.id), req.now, expires, None));
      if !r.Inserted? {
        tokens := before;
      }
    }

    /** The transactional half of a rotation: what to report, and which revocation is still owed. */
    method RotateAttempt(req: RotateRequest) returns (outcome: Outcome, owed: Option<(string, Reason)>)
      modifies `tokens
      ensures match Read(old(State()), req)
              case Refuse(o) => outcome == o && owed == None && State() == old(State())
              case RefuseAndRevoke(family, reason) =>
                && outcome == (if reason.ReuseDetected? then Reuse else PredatesPassword)
                && owed == Some((family, reason)) && State() == old(State())
              case Redeem(family, startedAt) =>
                match Commit(old(State()), req, startedAt, true)
                case Won(after) => outcome == RotateOK && owed == None && State() == after
                case Refused => outcome == Failed && owed == None && State() == old(State())
                case Lost => outcome == Reuse && owed == Some((family, ReuseDetected)) && State() == old(State())
    {
      if !Joined(Tables(families, tokens, users), req.presented) {
        return NotFound, None;
      }
      var token := tokens[req.presented];
      var family := families[token.family];
      if family.revoked.Some? {
        return FamilyRevoked, None;
      }
      if family.startedAt < users[family.userId].passwordChangedAt {
        return PredatesPassword, Some((token.family, CredentialChange));
      }
      if token.expiresAt <= req.now {
        return Expired, None;
      }
      if token.usedAt.Some? {
        return Reuse, Some((token.family, ReuseDetected));
      }
      var written := Redeem(req, family.startedAt);
      match written
      case Inserted => return RotateOK, None;
      case DuplicateKey => return Reuse, Some((token.family, ReuseDetected));
      case CheckFailed => return Failed, None;
    }

    /** Ends one lineage; the first revocation stands. */
    method RevokeFamily(family: string, at: Time, reason: Reason) returns (ok: bool)
      modifies `families
      ensures ok <==> Revoked(old(State()), family, at, reason).Some?
      ensures State() == if ok then Revoked(old(State()), family, at, reason).value else old(State())
    {
      if family !in families || families[family].revoked.Some? {
        return true;
      }
      if at < families[family].startedAt {
        return false;
      }
      families := families[family := families[family].(revoked := Some((at, reason)))];
      return true;
    }

    /** A rotation meets its numbered contract: the attempt, then any revocation it owes, before reporting. */
    method Rotate(req: RotateRequest) returns (outcome: Outcome)
      modifies `tokens, `families
      ensures (State(), outcome) == Rotated(old(State()), req)
    {
      var owed;
      outcome, owed := RotateAttempt(req);
      if owed.Some? {
        var ok := RevokeFamily(owed.value.0, req.now, owed.value.1);
        if !ok {
          outcome := Failed;
        }
      }
    }

    /** Logout: the family of a token, whatever state the token is in. */
    method RevokeByToken(hash: Hash, at: Time, reason: Reason) returns (found: bool, ok: bool)
      modifies `families
      ensures found <==> hash in old(tokens) && old(tokens)[hash].family in old(families)
      ensures ok <==> !found || Revoked(old(State()), old(tokens)[hash].family, at, reason).Some?
      ensures State() == if found && ok then Revoked(old(State()), old(tokens)[hash].family, at, reason).value
                         else old(State())
    {
      if hash !in tokens || tokens[hash].family !in families {
        return false, true;
      }
      ok := RevokeFamily(tokens[hash].family, at, reason);
      return true, ok;
    }

    /** Log out everywhere, in one statement over the user's live families. */
    method RevokeUserSessions(userId: string, at: Time, reason: Reason) returns (ok: bool)
      modifies `families
      ensures ok <==> UserRevoked(old(State()), userId, at, reason).Some?
      ensures State() == if ok then UserRevoked(old(State()), userId, at, reason).value else old(State())
    {
      if exists f | f in families ::
           families[f].userId == userId && families[f].revoked.None? && at < families[f].startedAt
      {
        return false;
      }
      families := map f | f in families ::
        if families[f].userId == userId && families[f].revoked.None?
        then families[f].(revoked := Some((at, reason))) else families[f];
      return true;
    }

    method SetPassword(userId: string, at: Time) returns (ok: bool)
      modifies `users
      ensures ok <==> PasswordSet(old(State()), userId, at).Some?
      ensures State() == if ok then PasswordSet(old(State()), userId, at).value else old(State())
    {
      if userId !in users {
        return false;
      }
      users := users[userId := User(at)];
      return true;
    }
  }
}
