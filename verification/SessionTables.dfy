/**
 * The session tables: login lineages (families), the chain of refresh tokens in
 * each, and the owner's password instant. The checks and unique indexes that can
 * refuse a write are written out; the foreign keys hold of every row written here,
 * since a successor takes its family from its parent's own row.
 */
module SessionTables {
  import opened Prelude
  import opened Ids

  type Hash = string

  datatype Reason = Logout | ReuseDetected | CredentialChange | Operator

  /** One login lineage; live while it has no revocation. */
  datatype Family = Family(userId: string, startedAt: Time, revoked: Option<(Time, Reason)>)

  /** One link of a lineage, keyed in the table by the hash of its secret. */
  datatype Token = Token(id: string, family: string, parent: Option<string>,
                         issuedAt: Time, expiresAt: Time, usedAt: Option<Time>)

  datatype User = User(passwordChangedAt: Time)

  datatype Tables = Tables(families: map<string, Family>, tokens: map<Hash, Token>, users: map<string, User>)

  predicate IdTaken(t: Tables, id: string) { exists h | h in t.tokens :: t.tokens[h].id == id }

  /** The partial unique index on the parent: a token has at most one successor. */
  predicate HasSuccessor(t: Tables, id: string) { exists h | h in t.tokens :: t.tokens[h].parent == Some(id) }

  /** The partial unique index on the family: it has at most one root. */
  predicate HasRoot(t: Tables, family: string) {
    exists h | h in t.tokens :: t.tokens[h].family == family && t.tokens[h].parent == None
  }

  datatype RotateRequest = RotateRequest(presented: Hash, now: Time, successorId: string, successorHash: Hash,
                                         successorExpiresAt: Time, sessionLifetime: int)

  /** The successor's expiry, lowered to the end of the session's absolute lifetime. */
  function CappedExpiry(expiresAt: Time, startedAt: Time, lifetime: int): (r: Time)
    ensures r <= expiresAt
    ensures lifetime > 0 ==> r <= startedAt + lifetime
    ensures r == expiresAt || (lifetime > 0 && r == startedAt + lifetime)
  {
    if lifetime <= 0 then expiresAt
    else
      var limit := startedAt + lifetime;
      if limit < expiresAt then limit else expiresAt
  }

  datatype NewSession = NewSession(family: string, userId: string, tokenId: string, hash: Hash,
                                   startedAt: Time, issuedAt: Time, expiresAt: Time)

  /** A family and its root token, both or neither. */
  function Created(t: Tables, n: NewSession): Option<Tables> {
    if n.family in t.families || n.userId !in t.users then None
    else if !ValidId(n.family) || !ValidId(n.tokenId) then None
    else if n.issuedAt >= n.expiresAt then None
    else if n.hash in t.tokens || IdTaken(t, n.tokenId) || HasRoot(t, n.family) then None
    else
      Some(t.(families := t.families[n.family := Family(n.userId, n.startedAt, None)],
              tokens := t.tokens[n.hash := Token(n.tokenId, n.family, None, n.issuedAt, n.expiresAt, None)]))
  }

  /** A revocation is recorded once, keeps its first reason, and cannot predate the family. */
  function Revoked(t: Tables, family: string, at: Time, reason: Reason): Option<Tables> {
    if family !in t.families || t.families[family].revoked.Some? then Some(t)
    else if at < t.families[family].startedAt then None
    else Some(t.(families := t.families[family := t.families[family].(revoked := Some((at, reason)))]))
  }

  /** Every live family of the user, or none when one of them would predate its start. */
  function UserRevoked(t: Tables, userId: string, at: Time, reason: Reason): Option<Tables> {
    if exists f | f in t.families ::
         t.families[f].userId == userId && t.families[f].revoked.None? && at < t.families[f].startedAt
    then None
    else
      Some(t.(families := map f | f in t.families ::
                            if t.families[f].userId == userId && t.families[f].revoked.None?
                            then t.families[f].(revoked := Some((at, reason))) else t.families[f]))
  }

  function PasswordSet(t: Tables, userId: string, at: Time): Option<Tables> {
    if userId !in t.users then None else Some(t.(users := t.users[userId := User(at)]))
  }

  datatype Outcome = RotateOK | NotFound | Expired | FamilyRevoked | Reuse | PredatesPassword | Failed

  /** What the row read at the start of a rotation decides. */
  datatype Verdict =
    | Refuse(outcome: Outcome)
    | RefuseAndRevoke(family: string, reason: Reason)
    | Redeem(family: string, startedAt: Time)

  /** The row is joined to its family and owner; a missing join partner reads as no row. */
  predicate Joined(t: Tables, presented: Hash) {
    presented in t.tokens && t.tokens[presented].family in t.families
    && t.families[t.tokens[presented].family].userId in t.users
  }

  function Read(t: Tables, req: RotateRequest): Verdict {
    if !Joined(t, req.presented) then Refuse(NotFound)
    else
      var token := t.tokens[req.presented];
      var family := t.families[token.family];
      if family.revoked.Some? then Refuse(FamilyRevoked)
      else if family.startedAt < t.users[family.userId].passwordChangedAt then RefuseAndRevoke(token.family, CredentialChange)
      else if token.expiresAt <= req.now then Refuse(Expired)
      else if token.usedAt.Some? then RefuseAndRevoke(token.family, ReuseDetected)
      else Redeem(token.family, family.startedAt)
  }

  /** The column checks the two writes of a redemption must meet. */
  predicate ChecksPass(token: Token, req: RotateRequest, startedAt: Time) {
    && token.issuedAt <= req.now
    && ValidId(req.successorId) && req.successorId != token.id
    && req.now < CappedExpiry(req.successorExpiresAt, startedAt, req.sessionLifetime)
  }

  /** No unique index refuses the successor: neither its own key nor hash, nor a second child of the token. */
  predicate IndexesAdmit(t: Tables, req: RotateRequest, tokenId: string) {
    req.successorHash !in t.tokens && !IdTaken(t, req.successorId) && !HasSuccessor(t, tokenId)
  }

  function Redeemed(t: Tables, req: RotateRequest, token: Token, startedAt: Time): Tables {
    var successor := Token(req.successorId, token.family, Some(token.id), req.now,
                           CappedExpiry(req.successorExpiresAt, startedAt, req.sessionLifetime), None);
    t.(tokens := t.tokens[req.presented := token.(usedAt := Some(req.now))][req.successorHash := successor])
  }

  datatype CommitResult = Won(tables: Tables) | Lost | Refused

  /**
   * The write half of a rotation, on whatever the tables hold when it runs. With
   * `guarded` the update also insists on an unused row; without it only the unique
   * indexes stand between two redemptions of one token.
   */
  function Commit(t: Tables, req: RotateRequest, startedAt: Time, guarded: bool): CommitResult {
    if req.presented !in t.tokens then Lost
    else
      var token := t.tokens[req.presented];
      if guarded && token.usedAt.Some? then Lost
      else if !ChecksPass(token, req, startedAt) then Refused
      else if !IndexesAdmit(t, req, token.id) then Lost
      else Won(Redeemed(t, req, token, startedAt))
  }

  /**
   * The contract of a rotation, as its numbered steps: look up, revoked, older than
   * the password, expired, already used, and otherwise redeem. A refusal that
   * revokes reports failure when the revocation itself is refused.
   */
  function Rotated(t: Tables, req: RotateRequest): (Tables, Outcome) {
    match Read(t, req)
    case Refuse(outcome) => (t, outcome)
    case RefuseAndRevoke(family, reason) =>
      (match Revoked(t, family, req.now, reason)
       case None => (t, Failed)
       case Some(after) => (after, if reason.ReuseDetected? then Reuse else PredatesPassword))
    case Redeem(family, startedAt) =>
      match Commit(t, req, startedAt, true)
      case Won(after) => (after, RotateOK)
      case Refused => (t, Failed)
      case Lost =>
        match Revoked(t, family, req.now, ReuseDetected)
        case None => (t, Failed)
        case Some(after) => (after, Reuse)
  }
}
