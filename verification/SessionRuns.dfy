/**
 * Rotations split where they can be interleaved: a read, a write and a revocation,
 * each atomic, in any order with those of other requests, with logins, logouts and
 * password changes. A request may also stop at any point. A write may run with or
 * without the unused-row guard; the unique indexes are always there.
 */
module SessionRuns {
  import opened Prelude
  import opened Ids
  import opened SessionTables
  import opened SessionChains

  datatype Stage =
    | ToWrite(family: string, startedAt: Time)
    | ToRevoke(family: string, reason: Reason)
    | Done(outcome: Outcome)

  datatype Request = Request(req: RotateRequest, stage: Stage)

  datatype Sys = Sys(tables: Tables, requests: map<nat, Request>)

  const START := Sys(Tables(map[], map[], map[]), map[])

  datatype Event =
    | Register(userId: string, at: Time)
    | Login(n: NewSession)
    | Begin(r: nat, req: RotateRequest)
    | Write(r: nat, guarded: bool)
    | Revoke(r: nat)
    | EndFamily(family: string, at: Time, reason: Reason)
    | EndUser(userId: string, at: Time, reason: Reason)
    | ChangePassword(userId: string, at: Time)

  /** The service mints every expiry under one absolute lifetime. */
  predicate EventOk(lifetime: int, e: Event) {
    && (e.Login? && lifetime > 0 ==> e.n.expiresAt <= e.n.startedAt + lifetime)
    && (e.Begin? ==> e.req.sessionLifetime == lifetime)
  }

  const HOUR: int := 3600 * 1_000_000_000
  const DEFAULT_REFRESH_TTL: int := 7 * 24 * HOUR
  const DEFAULT_SESSION_LIFETIME: int := 30 * 24 * HOUR

  /** The two lifetimes a service starts with, if it starts: a session is never shorter than its first token. */
  function ServiceLifetimes(refreshTTL: int, sessionLifetime: int): (r: Option<(int, int)>)
    ensures r.Some? ==> 0 < r.value.0 <= r.value.1
    ensures r.Some? ==>
              && (r.value.0 == refreshTTL || (refreshTTL == 0 && r.value.0 == DEFAULT_REFRESH_TTL))
              && (r.value.1 == sessionLifetime || (sessionLifetime == 0 && r.value.1 == DEFAULT_SESSION_LIFETIME))
    ensures r.None? <==>
            || refreshTTL < 0 || sessionLifetime < 0
            || (refreshTTL > 0 && sessionLifetime > 0 && sessionLifetime < refreshTTL)
            || (refreshTTL == 0 && 0 < sessionLifetime < DEFAULT_REFRESH_TTL)
            || (sessionLifetime == 0 && refreshTTL > DEFAULT_SESSION_LIFETIME)
  {
    var ttl := if refreshTTL == 0 then DEFAULT_REFRESH_TTL else refreshTTL;
    if ttl <= 0 then None
    else
      var lifetime := if sessionLifetime == 0 then DEFAULT_SESSION_LIFETIME else sessionLifetime;
      if lifetime < 0 then None
      else if lifetime > 0 && lifetime < ttl then None
      else Some((ttl, lifetime))
  }

  /** An expiry the service mints is never refused as already past: the cap is no earlier than the token redeemed. */
  lemma MintedExpiryAccepted(lifetime: int, t: Tables, req: RotateRequest, ttl: int)
    requires WithinLifetime(lifetime, t) && Read(t, req).Redeem? && ttl > 0
    requires req == RefreshRequest(req.now, ttl, lifetime, req.presented, req.successorId, req.successorHash)
    ensures req.now < CappedExpiry(req.successorExpiresAt, Read(t, req).startedAt, lifetime)
  {
    var token := t.tokens[req.presented];
    assert lifetime > 0 ==> token.expiresAt <= t.families[token.family].startedAt + lifetime;
  }

  /**
   * The rows a login writes: the session starts, and its first token is issued, now,
   * and that token expires after its own lifetime or the session's, whichever ends first.
   */
  function OpenSession(now: Time, ttl: int, lifetime: int, family: string, userId: string, tokenId: string, hash: Hash)
    : (n: NewSession)
    ensures EventOk(lifetime, Login(n))
    ensures 0 < ttl <= lifetime ==> n.issuedAt < n.expiresAt == now + ttl
  {
    NewSession(family, userId, tokenId, hash, now, now, CappedExpiry(now + ttl, now, lifetime))
  }

  /** What a refresh asks of the store: a successor that would live for its own lifetime, under the session's cap. */
  function RefreshRequest(now: Time, ttl: int, lifetime: int, presented: Hash, successorId: string, successorHash: Hash)
    : (req: RotateRequest)
    ensures forall r: nat :: EventOk(lifetime, Begin(r, req))
  {
    RotateRequest(presented, now, successorId, successorHash, now + ttl, lifetime)
  }

  function OrElse(t: Tables, o: Option<Tables>): Tables {
    match o case None => t case Some(after) => after
  }

  function Started(t: Tables, req: RotateRequest): Stage {
    match Read(t, req)
    case Refuse(outcome) => Done(outcome)
    case RefuseAndRevoke(family, reason) => ToRevoke(family, reason)
    case Redeem(family, startedAt) => ToWrite(family, startedAt)
  }

  function Written(t: Tables, q: Request, guarded: bool): (Tables, Stage)
    requires q.stage.ToWrite?
  {
    match Commit(t, q.req, q.stage.startedAt, guarded)
    case Won(after) => (after, Done(RotateOK))
    case Lost => (t, ToRevoke(q.stage.family, ReuseDetected))
    case Refused => (t, Done(Failed))
  }

  function RevokedBy(t: Tables, q: Request): (Tables, Stage)
    requires q.stage.ToRevoke?
  {
    match Revoked(t, q.stage.family, q.req.now, q.stage.reason)
    case None => (t, Done(Failed))
    case Some(after) => (after, Done(if q.stage.reason.ReuseDetected? then Reuse else PredatesPassword))
  }

  function Step(s: Sys, e: Event): Sys {
    match e
    case Register(userId, at) =>
      if userId in s.tables.users then s else s.(tables := s.tables.(users := s.tables.users[userId := User(at)]))
    case Login(n) => s.(tables := OrElse(s.tables, Created(s.tables, n)))
    case Begin(r, req) =>
      if r in s.requests then s else s.(requests := s.requests[r := Request(req, Started(s.tables, req))])
    case Write(r, guarded) =>
      if r !in s.requests || !s.requests[r].stage.ToWrite? then s
      else
        var (tables, stage) := Written(s.tables, s.requests[r], guarded);
        Sys(tables, s.requests[r := s.requests[r].(stage := stage)])
    case Revoke(r) =>
      if r !in s.requests || !s.requests[r].stage.ToRevoke? then s
      else
        var (tables, stage) := RevokedBy(s.tables, s.requests[r]);
        Sys(tables, s.requests[r := s.requests[r].(stage := stage)])
    case EndFamily(family, at, reason) => s.(tables := OrElse(s.tables, Revoked(s.tables, family, at, reason)))
    case EndUser(userId, at, reason) => s.(tables := OrElse(s.tables, UserRevoked(s.tables, userId, at, reason)))
    case ChangePassword(userId, at) => s.(tables := OrElse(s.tables, PasswordSet(s.tables, userId, at)))
  }

  function Run(s: Sys, es: seq<Event>): Sys
    decreases |es|
  {
    if es == [] then s else Run(Step(s, es[0]), es[1..])
  }

  /** Tables only ever gain rows, redemptions and revocations; each of those is written once. */
  ghost predicate Grows(t: Tables, u: Tables) {
    && (forall h | h in t.tokens ::
          && h in u.tokens && u.tokens[h].(usedAt := t.tokens[h].usedAt) == t.tokens[h]
          && (t.tokens[h].usedAt.Some? ==> u.tokens[h].usedAt == t.tokens[h].usedAt))
    && (forall f | f in t.families ::
          && f in u.families && u.families[f].(revoked := t.families[f].revoked) == t.families[f]
          && (t.families[f].revoked.Some? ==> u.families[f].revoked == t.families[f].revoked))
  }

  /** No token outlives the absolute lifetime of its login. */
  ghost predicate WithinLifetime(lifetime: int, t: Tables) {
    lifetime > 0 ==>
      forall h | h in t.tokens && t.tokens[h].family in t.families ::
        t.tokens[h].expiresAt <= t.families[t.tokens[h].family].startedAt + lifetime
  }

  ghost predicate TablesOk(lifetime: int, t: Tables) { Chained(t) && WithinLifetime(lifetime, t) }

  /** What is known of a request from where it has got to. */
  ghost predicate RequestOk(lifetime: int, t: Tables, q: Request) {
    var h := q.req.presented;
    && q.req.sessionLifetime == lifetime
    && (q.stage.ToWrite? || q.stage.ToRevoke? ==>
          h in t.tokens && t.tokens[h].family == q.stage.family && q.stage.family in t.families)
    && (q.stage.ToWrite? ==> q.req.now < t.tokens[h].expiresAt && q.stage.startedAt == t.families[q.stage.family].startedAt)
    && (q.stage == Done(RotateOK) ==>
          && h in t.tokens && t.tokens[h].usedAt.Some? && q.req.now < t.tokens[h].expiresAt)
    && (q.stage == Done(Reuse) || q.stage == Done(PredatesPassword) ==>
          h in t.tokens && t.tokens[h].family in t.families && t.families[t.tokens[h].family].revoked.Some?)
  }

  ghost predicate OneWinner(requests: map<nat, Request>) {
    forall p, q | p in requests && q in requests && p != q ::
      requests[p].stage == Done(RotateOK) && requests[q].stage == Done(RotateOK) ==>
        requests[p].req.presented != requests[q].req.presented
  }

  ghost predicate Inv(lifetime: int, s: Sys) {
    && TablesOk(lifetime, s.tables)
    && (forall r | r in s.requests :: RequestOk(lifetime, s.tables, s.requests[r]))
    && OneWinner(s.requests)
  }

  lemma RequestOkGrows(lifetime: int, t: Tables, u: Tables, q: Request)
    requires Grows(t, u) && RequestOk(lifetime, t, q)
    ensures RequestOk(lifetime, u, q)
  {}

  lemma CommitGrows(t: Tables, req: RotateRequest, startedAt: Time, guarded: bool)
    requires Chained(t) && Commit(t, req, startedAt, guarded).Won?
    ensures Grows(t, Commit(t, req, startedAt, guarded).tables)
  {
    hide HasChain;
    UsedIffSucceeded(t, req.presented);
    hide Chained;
  }

  lemma CommitWithinLifetime(lifetime: int, t: Tables, req: RotateRequest, startedAt: Time, guarded: bool)
    requires WithinLifetime(lifetime, t) && Commit(t, req, startedAt, guarded).Won? && req.sessionLifetime == lifetime
    requires var family := t.tokens[req.presented].family;
             family in t.families && startedAt == t.families[family].startedAt
    ensures WithinLifetime(lifetime, Commit(t, req, startedAt, guarded).tables)
  {}

  lemma RevokedGrows(lifetime: int, t: Tables, family: string, at: Time, reason: Reason)
    requires TablesOk(lifetime, t)
    ensures var u := OrElse(t, Revoked(t, family, at, reason)); Grows(t, u) && TablesOk(lifetime, u)
    ensures var u := Revoked(t, family, at, reason);
            u.Some? && family in t.families ==> family in u.value.families && u.value.families[family].revoked.Some?
  {
    hide HasChain;
    var u := OrElse(t, Revoked(t, family, at, reason));
    assert u.families.Keys == t.families.Keys;
    SameTokensKeepChains(t, u);
  }

  lemma UserRevokedGrows(lifetime: int, t: Tables, userId: string, at: Time, reason: Reason)
    requires TablesOk(lifetime, t)
    ensures var u := OrElse(t, UserRevoked(t, userId, at, reason)); Grows(t, u) && TablesOk(lifetime, u)
  {
    hide HasChain;
    var u := OrElse(t, UserRevoked(t, userId, at, reason));
    assert u.families.Keys == t.families.Keys;
    SameTokensKeepChains(t, u);
  }

  lemma UsersOnly(lifetime: int, t: Tables, u: Tables)
    requires TablesOk(lifetime, t) && u.tokens == t.tokens && u.families == t.families
    ensures Grows(t, u) && TablesOk(lifetime, u)
  {
    hide HasChain;
    SameTokensKeepChains(t, u);
  }

  lemma LoginGrows(lifetime: int, t: Tables, n: NewSession)
    requires TablesOk(lifetime, t) && EventOk(lifetime, Login(n))
    ensures var u := OrElse(t, Created(t, n)); Grows(t, u) && TablesOk(lifetime, u)
  {
    hide HasChain;
    if Created(t, n).Some? {
      CreationKeepsChains(t, n);
    }
  }

  lemma GrowsItself(t: Tables)
    ensures Grows(t, t)
  {}

  /** The tables of every step grow and stay well formed. */
  lemma StepTables(lifetime: int, s: Sys, e: Event)
    requires Inv(lifetime, s) && EventOk(lifetime, e)
    ensures Grows(s.tables, Step(s, e).tables) && TablesOk(lifetime, Step(s, e).tables)
  {
    hide Chained, Read, WithinLifetime, Grows;
    GrowsItself(s.tables);
    match e
    case Register(userId, at) => UsersOnly(lifetime, s.tables, Step(s, e).tables);
    case Login(n) => LoginGrows(lifetime, s.tables, n);
    case Begin(r, req) =>
    case Write(r, guarded) =>
      if r in s.requests && s.requests[r].stage.ToWrite? {
        var q := s.requests[r];
        if Commit(s.tables, q.req, q.stage.startedAt, guarded).Won? {
          CommitGrows(s.tables, q.req, q.stage.startedAt, guarded);
          CommitKeepsChains(s.tables, q.req, q.stage.startedAt, guarded);
          CommitWithinLifetime(lifetime, s.tables, q.req, q.stage.startedAt, guarded);
        }
      }
    case Revoke(r) =>
      if r in s.requests && s.requests[r].stage.ToRevoke? {
        RevokedGrows(lifetime, s.tables, s.requests[r].stage.family, s.requests[r].req.now, s.requests[r].stage.reason);
      }
    case EndFamily(family, at, reason) => RevokedGrows(lifetime, s.tables, family, at, reason);
    case EndUser(userId, at, reason) => UserRevokedGrows(lifetime, s.tables, userId, at, reason);
    case ChangePassword(userId, at) => UsersOnly(lifetime, s.tables, Step(s, e).tables);
  }

  lemma StartedOk(lifetime: int, t: Tables, req: RotateRequest)
    requires req.sessionLifetime == lifetime
    ensures RequestOk(lifetime, t, Request(req, Started(t, req)))
    ensures Started(t, req) != Done(RotateOK)
  {}

  /** A win leaves the token used; and nobody had won it before, since a used token has a successor. */
  lemma WrittenOk(lifetime: int, t: Tables, q: Request, guarded: bool)
    requires Chained(t) && RequestOk(lifetime, t, q) && q.stage.ToWrite?
    ensures var (u, stage) := Written(t, q, guarded);
            && RequestOk(lifetime, u, q.(stage := stage))
            && (stage == Done(RotateOK) ==> t.tokens[q.req.presented].usedAt.None?)
  {
    hide HasChain;
    UsedIffSucceeded(t, q.req.presented);
    hide Chained;
  }

  lemma RevokedOk(lifetime: int, t: Tables, q: Request)
    requires RequestOk(lifetime, t, q) && q.stage.ToRevoke?
    ensures var (u, stage) := RevokedBy(t, q); RequestOk(lifetime, u, q.(stage := stage)) && stage != Done(RotateOK)
  {}

  lemma RequestMoved(lifetime: int, s: Sys, t: Tables, r: nat, q: Request)
    requires Inv(lifetime, s) && Grows(s.tables, t) && TablesOk(lifetime, t) && RequestOk(lifetime, t, q)
    requires q.stage == Done(RotateOK) ==> q.req.presented in s.tables.tokens && s.tables.tokens[q.req.presented].usedAt.None?
    ensures Inv(lifetime, Sys(t, s.requests[r := q]))
  {
    hide TablesOk;
    var after := s.requests[r := q];
    forall p | p in after ensures RequestOk(lifetime, t, after[p]) {
      if p != r {
        RequestOkGrows(lifetime, s.tables, t, s.requests[p]);
      }
    }
    forall p | p in s.requests && p != r && s.requests[p].stage == Done(RotateOK) && q.stage == Done(RotateOK)
      ensures s.requests[p].req.presented != q.req.presented
    {
      assert RequestOk(lifetime, s.tables, s.requests[p]);
    }
  }

  lemma TablesMoved(lifetime: int, s: Sys, t: Tables)
    requires Inv(lifetime, s) && Grows(s.tables, t) && TablesOk(lifetime, t)
    ensures Inv(lifetime, s.(tables := t))
  {
    hide TablesOk;
    forall p | p in s.requests ensures RequestOk(lifetime, t, s.requests[p]) {
      RequestOkGrows(lifetime, s.tables, t, s.requests[p]);
    }
  }

  lemma StepKeeps(lifetime: int, s: Sys, e: Event)
    requires Inv(lifetime, s) && EventOk(lifetime, e)
    ensures Inv(lifetime, Step(s, e))
  {
    StepTables(lifetime, s, e);
    hide Chained, WithinLifetime, Grows, RequestOk, Commit, Revoked, Read, OneWinner;
    match e
    case Begin(r, req) =>
      if r !in s.requests {
        StartedOk(lifetime, s.tables, req);
        RequestMoved(lifetime, s, Step(s, e).tables, r, Request(req, Started(s.tables, req)));
      }
    case Write(r, guarded) =>
      if r in s.requests && s.requests[r].stage.ToWrite? {
        WrittenOk(lifetime, s.tables, s.requests[r], guarded);
        PresentedThere(lifetime, s.tables, s.requests[r]);
        RequestMoved(lifetime, s, Step(s, e).tables, r, Step(s, e).requests[r]);
      }
    case Revoke(r) =>
      if r in s.requests && s.requests[r].stage.ToRevoke? {
        RevokedOk(lifetime, s.tables, s.requests[r]);
        RequestMoved(lifetime, s, Step(s, e).tables, r, Step(s, e).requests[r]);
      }
    case _ => TablesMoved(lifetime, s, Step(s, e).tables);
  }

  lemma PresentedThere(lifetime: int, t: Tables, q: Request)
    requires RequestOk(lifetime, t, q) && q.stage.ToWrite?
    ensures q.req.presented in t.tokens
  {}

  ghost predicate EventsOk(lifetime: int, es: seq<Event>) { forall i | 0 <= i < |es| :: EventOk(lifetime, es[i]) }

  lemma {:induction false} RunKeeps(lifetime: int, s: Sys, es: seq<Event>)
    requires Inv(lifetime, s) && EventsOk(lifetime, es)
    ensures Inv(lifetime, Run(s, es)) && Grows(s.tables, Run(s, es).tables)
    decreases |es|
  {
    hide Step, TablesOk, RequestOk, OneWinner;
    if es != [] {
      StepTables(lifetime, s, es[0]);
      StepKeeps(lifetime, s, es[0]);
      RunKeeps(lifetime, Step(s, es[0]), es[1..]);
    }
  }

  lemma StartKeeps(lifetime: int)
    ensures Inv(lifetime, START)
  {}

  /**
   * Under every interleaving: each family's tokens form one parent chain whose tip
   * alone is unused; no two requests redeem the same token; a request that was told
   * of reuse left its family revoked; and no redemption falls outside the absolute
   * lifetime of its login.
   */
  lemma EveryInterleaving(lifetime: int, es: seq<Event>)
    requires EventsOk(lifetime, es)
    ensures var s := Run(START, es);
            && Chained(s.tables)
            && OneWinner(s.requests)
            && (forall r | r in s.requests && s.requests[r].stage == Done(Reuse) ::
                  var h := s.requests[r].req.presented;
                  h in s.tables.tokens && s.tables.tokens[h].family in s.tables.families
                  && s.tables.families[s.tables.tokens[h].family].revoked.Some?)
            && (lifetime > 0 ==>
                  forall r | r in s.requests && s.requests[r].stage == Done(RotateOK) ::
                    var q := s.requests[r].req;
                    q.presented in s.tables.tokens && s.tables.tokens[q.presented].family in s.tables.families
                    && q.now < s.tables.families[s.tables.tokens[q.presented].family].startedAt + lifetime)
  {
    StartKeeps(lifetime);
    RunKeeps(lifetime, START, es);
    hide Run, HasChain;
  }

  /** Nothing more may be redeemed from the family: it is revoked, or older than its owner's password. */
  predicate Shut(t: Tables, f: string) {
    && f in t.families
    && (|| t.families[f].revoked.Some?
        || (t.families[f].userId in t.users && t.families[f].startedAt < t.users[t.families[f].userId].passwordChangedAt))
  }

  /** No later password change of the family's owner is dated at or before the login. */
  predicate KeepsShut(login: Family, e: Event) {
    e.ChangePassword? && e.userId == login.userId ==> login.startedAt < e.at
  }

  /** A password change shuts exactly the families that began before it, whether or not they are then revoked. */
  lemma PasswordShuts(s: Sys, userId: string, at: Time, f: string)
    requires f in s.tables.families && s.tables.families[f].userId == userId && userId in s.tables.users
    ensures Shut(Step(s, ChangePassword(userId, at)).tables, f)
            <==> s.tables.families[f].revoked.Some? || s.tables.families[f].startedAt < at
  {}

  /** Only a password change moves a password instant. */
  lemma UsersStep(s: Sys, e: Event, userId: string)
    requires userId in s.tables.users
    ensures var users := Step(s, e).tables.users;
            && userId in users
            && (users[userId] == s.tables.users[userId]
                || (e.ChangePassword? && e.userId == userId && users[userId].passwordChangedAt == e.at))
  {
    hide Read, ChecksPass, IndexesAdmit, IdTaken;
  }

  lemma StepKeepsShut(lifetime: int, s: Sys, e: Event, f: string)
    requires Inv(lifetime, s) && EventOk(lifetime, e) && Shut(s.tables, f) && KeepsShut(s.tables.families[f], e)
    ensures Shut(Step(s, e).tables, f)
  {
    StepTables(lifetime, s, e);
    if s.tables.families[f].userId in s.tables.users {
      UsersStep(s, e, s.tables.families[f].userId);
    }
    hide Step, Inv;
  }

  /** The request neither holds a claim on the family's tokens nor has redeemed one. */
  ghost predicate NoClaim(s: Sys, f: string, r: nat)
    requires r in s.requests
  {
    && (s.requests[r].stage.ToWrite? ==> s.requests[r].stage.family != f)
    && (s.requests[r].stage == Done(RotateOK) && s.requests[r].req.presented in s.tables.tokens ==>
          s.tables.tokens[s.requests[r].req.presented].family != f)
  }

  /** No request that began after `older` has a claim on the family. */
  ghost predicate LockedOut(older: set<nat>, s: Sys, f: string) {
    forall r | r in s.requests && r !in older :: NoClaim(s, f, r)
  }

  lemma StepKeepsLockedOut(lifetime: int, older: set<nat>, s: Sys, e: Event, f: string)
    requires Inv(lifetime, s) && EventOk(lifetime, e) && Shut(s.tables, f) && LockedOut(older, s, f)
    ensures LockedOut(older, Step(s, e), f)
  {
    StepTables(lifetime, s, e);
    hide TablesOk, OneWinner, Grows, RequestOk, Shut, NoClaim, Step;
    forall r | r in Step(s, e).requests && r !in older ensures NoClaim(Step(s, e), f, r) {
      NoClaimGained(lifetime, older, s, e, f, r);
    }
  }

  lemma NoClaimGained(lifetime: int, older: set<nat>, s: Sys, e: Event, f: string, r: nat)
    requires (forall p | p in s.requests :: RequestOk(lifetime, s.tables, s.requests[p]))
    requires Shut(s.tables, f) && LockedOut(older, s, f) && Grows(s.tables, Step(s, e).tables)
    requires r in Step(s, e).requests && r !in older
    ensures NoClaim(Step(s, e), f, r)
  {
    if r in s.requests {
      assert NoClaim(s, f, r);
      assert RequestOk(lifetime, s.tables, s.requests[r]);
    }
    hide RequestOk, ChecksPass, IndexesAdmit, Redeemed;
  }

  ghost predicate AllKeepShut(login: Family, es: seq<Event>) {
    forall i | 0 <= i < |es| :: KeepsShut(login, es[i])
  }

  lemma ShutStep(lifetime: int, older: set<nat>, s: Sys, e: Event, f: string, login: Family)
    requires Inv(lifetime, s) && EventOk(lifetime, e) && Shut(s.tables, f) && LockedOut(older, s, f)
    requires s.tables.families[f].(revoked := None) == login && KeepsShut(login, e)
    ensures var u := Step(s, e);
            && Inv(lifetime, u) && Shut(u.tables, f) && LockedOut(older, u, f)
            && u.tables.families[f].(revoked := None) == login
  {
    StepTables(lifetime, s, e);
    StepKeeps(lifetime, s, e);
    StepKeepsShut(lifetime, s, e, f);
    StepKeepsLockedOut(lifetime, older, s, e, f);
    hide TablesOk, RequestOk, OneWinner, Step, LockedOut;
  }

  lemma {:induction false} RunLocksOut(lifetime: int, older: set<nat>, s: Sys, es: seq<Event>, f: string, login: Family)
    requires Inv(lifetime, s) && EventsOk(lifetime, es) && Shut(s.tables, f) && LockedOut(older, s, f)
    requires s.tables.families[f].(revoked := None) == login && AllKeepShut(login, es)
    ensures LockedOut(older, Run(s, es), f)
    decreases |es|
  {
    hide Step, Inv, LockedOut, EventOk, KeepsShut;
    if es != [] {
      ShutStep(lifetime, older, s, es[0], f, login);
      RunLocksOut(lifetime, older, Step(s, es[0]), es[1..], f, login);
    }
  }

  /**
   * Once a family is revoked, or its owner's password is newer than the login, no
   * request that begins afterwards ever redeems one of its tokens, in any
   * continuation that does not date a later password change back to the login.
   */
  lemma ShutForGood(lifetime: int, before: seq<Event>, after: seq<Event>, f: string, r: nat)
    requires EventsOk(lifetime, before) && EventsOk(lifetime, after)
    requires Shut(Run(START, before).tables, f) && AllKeepShut(Run(START, before).tables.families[f], after)
    requires r !in Run(START, before).requests
    ensures var s := Run(Run(START, before), after);
            r in s.requests && s.requests[r].stage == Done(RotateOK) ==>
              && s.requests[r].req.presented in s.tables.tokens
              && s.tables.tokens[s.requests[r].req.presented].family != f
  {
    StartKeeps(lifetime);
    RunKeeps(lifetime, START, before);
    var s := Run(START, before);
    RunKeeps(lifetime, s, after);
    hide Run;
    RunLocksOut(lifetime, s.requests.Keys, s, after, f, s.tables.families[f].(revoked := None));
  }

  /** Why it must begin afterwards: the write half does not look at the family again. */
  lemma WriteIgnoresRevocation(t: Tables, family: string, at: Time, reason: Reason, req: RotateRequest, startedAt: Time, guarded: bool)
    requires Revoked(t, family, at, reason).Some?
    ensures Commit(Revoked(t, family, at, reason).value, req, startedAt, guarded).Won? <==> Commit(t, req, startedAt, guarded).Won?
  {
    var u := Revoked(t, family, at, reason).value;
    assert u.tokens == t.tokens;
  }

  /** A rotation that nothing interrupts is the atomic one. */
  lemma RotationIsItsParts(s: Sys, r: nat, req: RotateRequest)
    requires r !in s.requests
    ensures var u := Run(s, [Begin(r, req), Write(r, true), Revoke(r)]);
            && u.tables == Rotated(s.tables, req).0
            && u.requests == s.requests[r := Request(req, Done(Rotated(s.tables, req).1))]
  {
    var s1 := Step(s, Begin(r, req));
    var s2 := Step(s1, Write(r, true));
    var s3 := Step(s2, Revoke(r));
    hide Commit, Revoked, Read;
    assert s3.tables == Rotated(s.tables, req).0;
    assert s3.requests == s.requests[r := Request(req, Done(Rotated(s.tables, req).1))];
    hide Step;
    RunCons(s, Begin(r, req), [Write(r, true), Revoke(r)]);
    assert [Begin(r, req)] + [Write(r, true), Revoke(r)] == [Begin(r, req), Write(r, true), Revoke(r)];
    assert [Write(r, true)] + [Revoke(r)] == [Write(r, true), Revoke(r)] && [Revoke(r)] + [] == [Revoke(r)];
    RunCons(s3, Revoke(r), []);
    RunCons(s1, Write(r, true), [Revoke(r)]);
    RunCons(s2, Revoke(r), []);
  }

  lemma RunCons(s: Sys, e: Event, rest: seq<Event>)
    ensures Run(s, [e] + rest) == Run(Step(s, e), rest)
    ensures Run(s, []) == s
  {
    hide Step;
    assert ([e] + rest)[1..] == rest;
  }

  /** An atomic rotation succeeds exactly on the unused tip of a live, current, unexpired lineage. */
  lemma RotatesExactly(t: Tables, req: RotateRequest)
    requires Chained(t)
    ensures Rotated(t, req).1 == RotateOK <==>
            && Joined(t, req.presented)
            && var token := t.tokens[req.presented];
               var family := t.families[token.family];
               && family.revoked.None? && t.users[family.userId].passwordChangedAt <= family.startedAt
               && req.now < token.expiresAt && token.usedAt.None?
               && ChecksPass(token, req, family.startedAt)
               && req.successorHash !in t.tokens && !IdTaken(t, req.successorId)
  {
    hide HasChain;
    if req.presented in t.tokens {
      UsedIffSucceeded(t, req.presented);
    }
    hide Chained, ChecksPass, IdTaken, HasSuccessor, Redeemed;
  }

  /** A replay of a redeemed, unexpired token of a live, current lineage revokes it and says so. */
  lemma ReplayRevokes(t: Tables, req: RotateRequest)
    requires Joined(t, req.presented)
    requires var token := t.tokens[req.presented];
             var family := t.families[token.family];
             && family.revoked.None? && t.users[family.userId].passwordChangedAt <= family.startedAt
             && req.now < token.expiresAt && token.usedAt.Some?
    ensures var name := t.tokens[req.presented].family;
            if t.families[name].startedAt <= req.now then
              && Rotated(t, req).1 == Reuse
              && Rotated(t, req).0 == t.(families := t.families[name := t.families[name].(revoked := Some((req.now, ReuseDetected)))])
            else Rotated(t, req) == (t, Failed)
  {}
}
