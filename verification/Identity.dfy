/**
 * Principals, anonymous sessions, users, e-mails, Google accounts and quotas as tables, and the
 * sign-up, sign-in and session operations as transactions that commit or roll back whole.
 * Row ids are table positions.
 */
module Identity {
  import opened Options
  import Text

  datatype Kind = Anonymous | Registered

  /** Whose quota a principal was created under; remembered for the proofs, read by no operation. */
  datatype Origin = Origin(ipHash: string, day: int)

  datatype Principal = Principal(kind: Kind, expiresAt: Option<int>, origin: Option<Origin>)

  datatype AnonymousSession = AnonymousSession(principal: nat, tokenHash: string, revoked: bool, expiresAt: int)

  datatype User = User(principal: nat, displayName: string, primaryEmail: Option<nat>, disabled: bool)

  datatype Email = Email(user: nat, normalized: string, verified: bool)

  datatype Account = Account(user: nat, subject: string, email: Option<string>, emailVerified: bool)

  datatype UserSession = UserSession(user: nat, refreshHash: string, revoked: bool, expiresAt: int)

  datatype Tables = Tables(
    principals: seq<Principal>, anonymousSessions: seq<AnonymousSession>, users: seq<User>, emails: seq<Email>,
    accounts: seq<Account>, sessions: seq<UserSession>, credentials: map<nat, string>, quotas: map<Origin, nat>)

  const EMPTY := Tables([], [], [], [], [], [], map[], map[])

  /** What a request brings: token hashes from cookies, hashes for new tokens, its network and its time. */
  datatype Request = Request(
    anonymousHash: Option<string>, refreshHash: Option<string>, newHash: string, ipHash: string, day: int, now: int)

  /** Missing and empty strings are alike here: the source tests these fields for truth. */
  datatype Profile = Profile(subject: string, email: string, emailVerified: bool, emailAuthoritative: bool, name: string)

  datatype Error =
    | TooManyToday | EmailRegistered | EmailNotVerified | EmailNotAuthoritative | Disabled | InvalidLogin | DuplicateKey

  datatype Outcome = Committed(tables: Tables) | RolledBack(error: Error)

  datatype Config = Config(creationLimit: int, anonymousTtl: int, refreshTtl: int)

  // ----- Lookups -----

  predicate LiveAnonymous(session: AnonymousSession, tokenHash: string, now: int) {
    session.tokenHash == tokenHash && !session.revoked && session.expiresAt > now
  }

  function FindAnonymous(sessions: seq<AnonymousSession>, tokenHash: string, now: int): (i: Option<nat>)
    ensures i.Some? ==> i.value < |sessions| && LiveAnonymous(sessions[i.value], tokenHash, now)
    ensures i.None? ==> forall j :: 0 <= j < |sessions| ==> !LiveAnonymous(sessions[j], tokenHash, now)
  {
    if sessions == [] then None
    else
      var n := |sessions| - 1;
      var found := FindAnonymous(sessions[..n], tokenHash, now);
      assert forall j :: 0 <= j < n ==> sessions[..n][j] == sessions[j];
      if found.Some? then found else if LiveAnonymous(sessions[n], tokenHash, now) then Some(n) else None
  }

  function FindEmail(emails: seq<Email>, normalized: string): (i: Option<nat>)
    ensures i.Some? ==> i.value < |emails| && emails[i.value].normalized == normalized
    ensures i.None? ==> forall j :: 0 <= j < |emails| ==> emails[j].normalized != normalized
  {
    if emails == [] then None
    else
      var n := |emails| - 1;
      var found := FindEmail(emails[..n], normalized);
      assert forall j :: 0 <= j < n ==> emails[..n][j] == emails[j];
      if found.Some? then found else if emails[n].normalized == normalized then Some(n) else None
  }

  function FindAccount(accounts: seq<Account>, subject: string): (i: Option<nat>)
    ensures i.Some? ==> i.value < |accounts| && accounts[i.value].subject == subject
    ensures i.None? ==> forall j :: 0 <= j < |accounts| ==> accounts[j].subject != subject
  {
    if accounts == [] then None
    else
      var n := |accounts| - 1;
      var found := FindAccount(accounts[..n], subject);
      assert forall j :: 0 <= j < n ==> accounts[..n][j] == accounts[j];
      if found.Some? then found else if accounts[n].subject == subject then Some(n) else None
  }

  /** `now` is absent where the source does not ask for an unexpired session. */
  predicate LiveSession(session: UserSession, refreshHash: string, now: Option<int>) {
    session.refreshHash == refreshHash && !session.revoked && (now.Some? ==> session.expiresAt > now.value)
  }

  function FindSession(sessions: seq<UserSession>, refreshHash: string, now: Option<int>): (i: Option<nat>)
    ensures i.Some? ==> i.value < |sessions| && LiveSession(sessions[i.value], refreshHash, now)
    ensures i.None? ==> forall j :: 0 <= j < |sessions| ==> !LiveSession(sessions[j], refreshHash, now)
  {
    if sessions == [] then None
    else
      var n := |sessions| - 1;
      var found := FindSession(sessions[..n], refreshHash, now);
      assert forall j :: 0 <= j < n ==> sessions[..n][j] == sessions[j];
      if found.Some? then found else if LiveSession(sessions[n], refreshHash, now) then Some(n) else None
  }

  predicate AnonymousHashTaken(s: Tables, hash: string) {
    exists i :: 0 <= i < |s.anonymousSessions| && s.anonymousSessions[i].tokenHash == hash
  }

  predicate RefreshHashTaken(s: Tables, hash: string) {
    exists i :: 0 <= i < |s.sessions| && s.sessions[i].refreshHash == hash
  }

  // ----- Transactions -----

  function QuotaAt(s: Tables, key: Origin): nat {
    if key in s.quotas then s.quotas[key] else 0
  }

  function CreateAnonymous(c: Config, s: Tables, req: Request): Outcome {
    var key := Origin(req.ipHash, req.day);
    if QuotaAt(s, key) + 1 > c.creationLimit then RolledBack(TooManyToday)
    else if AnonymousHashTaken(s, req.newHash) then RolledBack(DuplicateKey)
    else
      var expiresAt := req.now + c.anonymousTtl;
      Committed(s.(
        quotas := s.quotas[key := QuotaAt(s, key) + 1],
        principals := s.principals + [Principal(Anonymous, Some(expiresAt), Some(key))],
        anonymousSessions := s.anonymousSessions + [AnonymousSession(|s.principals|, req.newHash, false, expiresAt)]))
  }

  ghost predicate Linked(s: Tables) {
    && (forall i :: 0 <= i < |s.anonymousSessions| ==> s.anonymousSessions[i].principal < |s.principals|)
    && (forall u :: 0 <= u < |s.users| ==> s.users[u].principal < |s.principals|)
    && (forall u :: 0 <= u < |s.users| && s.users[u].primaryEmail.Some? ==> s.users[u].primaryEmail.value < |s.emails|)
    && (forall e :: 0 <= e < |s.emails| ==> s.emails[e].user < |s.users|)
    && (forall a :: 0 <= a < |s.accounts| ==> s.accounts[a].user < |s.users|)
    && (forall k :: 0 <= k < |s.sessions| ==> s.sessions[k].user < |s.users|)
  }

  /** The new user's principal: the live anonymous session's own, promoted, or a new one. */
  function PromotedPrincipal(s: Tables, req: Request): (r: (Tables, nat))
    requires forall i :: 0 <= i < |s.anonymousSessions| ==> s.anonymousSessions[i].principal < |s.principals|
    ensures r.1 < |r.0.principals|
  {
    var found := if req.anonymousHash.Some? then FindAnonymous(s.anonymousSessions, req.anonymousHash.value, req.now) else None;
    match found
    case Some(i) =>
      var p := s.anonymousSessions[i].principal;
      (s.(principals := s.principals[p := s.principals[p].(kind := Registered, expiresAt := None)],
          anonymousSessions := s.anonymousSessions[i := s.anonymousSessions[i].(revoked := true)]), p)
    case None => (s.(principals := s.principals + [Principal(Registered, None, None)]), |s.principals|)
  }

  function WithEmail(s: Tables, user: nat, normalized: string, verified: bool): Tables
    requires user < |s.users|
  {
    s.(emails := s.emails + [Email(user, normalized, verified)],
       users := s.users[user := s.users[user].(primaryEmail := Some(|s.emails|))])
  }

  /** A refresh token hash is unique in its table. */
  function WithSession(c: Config, s: Tables, user: nat, req: Request): Outcome {
    if RefreshHashTaken(s, req.newHash) then RolledBack(DuplicateKey)
    else Committed(s.(sessions := s.sessions + [UserSession(user, req.newHash, false, req.now + c.refreshTtl)]))
  }

  ghost function Signup(c: Config, s: Tables, normalized: string, displayName: string, passwordHash: string, req: Request): Outcome
    requires Linked(s)
  {
    if FindEmail(s.emails, normalized).Some? then RolledBack(EmailRegistered)
    else
      var (t, p) := PromotedPrincipal(s, req);
      var user := |t.users|;
      var named := t.(users := t.users + [User(p, displayName, None, false)]);
      var mailed := WithEmail(named, user, normalized, false);
      WithSession(c, mailed.(credentials := mailed.credentials[user := passwordHash]), user, req)
  }

  ghost function CreateFromGoogle(s: Tables, profile: Profile, req: Request): (Tables, nat)
    requires Linked(s)
  {
    var (t, p) := PromotedPrincipal(s, req);
    var user := |t.users|;
    var named := t.(users := t.users + [User(p, profile.name, None, false)]);
    (if profile.email != "" then WithEmail(named, user, Normalize(profile.email), profile.emailAuthoritative) else named, user)
  }

  /** `email.trim().toLowerCase()`, on ASCII. */
  function Normalize(email: string): string {
    Text.Lower(Trim(email))
  }

  predicate IsSpace(c: char) { c == ' ' || '\t' <= c <= '\r' }

  function Trim(s: string): string {
    if s != [] && IsSpace(s[0]) then Trim(s[1..])
    else if s != [] && IsSpace(s[|s| - 1]) then Trim(s[..|s| - 1])
    else s
  }

  /** The user a Google profile resolves to, created if need be. */
  datatype Resolution = Found(tables: Tables, user: nat) | Refused(error: Error)

  ghost function ResolveUser(s: Tables, profile: Profile, req: Request): Resolution
    requires Linked(s)
  {
    var account := FindAccount(s.accounts, profile.subject);
    if account.Some? then Found(s, s.accounts[account.value].user)
    else
      var email := if profile.email != "" then FindEmail(s.emails, Normalize(profile.email)) else None;
      if email.Some? then
        if profile.emailAuthoritative then Found(s, s.emails[email.value].user) else Refused(EmailNotAuthoritative)
      else
        var (t, user) := CreateFromGoogle(s, profile, req);
        Found(t, user)
  }

  function WithAccount(s: Tables, user: nat, profile: Profile): Tables {
    match FindAccount(s.accounts, profile.subject)
    case None =>
      s.(accounts := s.accounts + [Account(user, profile.subject, if profile.email != "" then Some(profile.email) else None, profile.emailVerified)])
    case Some(a) =>
      s.(accounts := s.accounts[a := s.accounts[a].(
        email := if profile.email != "" then Some(profile.email) else s.accounts[a].email, emailVerified := profile.emailVerified)])
  }

  function WithName(s: Tables, user: nat, name: string): Tables
    requires user < |s.users|
  {
    if s.users[user].displayName == "" && name != "" then s.(users := s.users[user := s.users[user].(displayName := name)]) else s
  }

  function WithRegistered(s: Tables, p: nat): Tables
    requires p < |s.principals|
  {
    s.(principals := s.principals[p := s.principals[p].(kind := Registered, expiresAt := None)])
  }

  ghost function SignInWithGoogle(c: Config, s: Tables, profile: Profile, req: Request): Outcome
    requires Linked(s)
  {
    if profile.email != "" && !profile.emailVerified then RolledBack(EmailNotVerified)
    else match ResolveUser(s, profile, req)
      case Refused(error) => RolledBack(error)
      case Found(t, user) =>
        var named := WithName(WithAccount(t, user, profile), user, profile.name);
        if named.users[user].disabled then RolledBack(Disabled)
        else WithSession(c, WithRegistered(named, named.users[user].principal), user, req)
  }

  /** `valid` is the password library's verdict on the stored hash. */
  function Login(c: Config, s: Tables, normalized: string, valid: bool, req: Request): Outcome
    requires forall e :: 0 <= e < |s.emails| ==> s.emails[e].user < |s.users|
  {
    var email := FindEmail(s.emails, normalized);
    if email.None? then RolledBack(InvalidLogin)
    else
      var user := s.emails[email.value].user;
      if user !in s.credentials || s.users[user].disabled || !valid then RolledBack(InvalidLogin) else WithSession(c, s, user, req)
  }

  function Revoke(s: Tables, k: nat): Tables
    requires k < |s.sessions|
  {
    s.(sessions := s.sessions[k := s.sessions[k].(revoked := true)])
  }

  function Logout(s: Tables, req: Request): Tables {
    var found := if req.refreshHash.Some? then FindSession(s.sessions, req.refreshHash.value, None) else None;
    if found.Some? then Revoke(s, found.value) else s
  }

  /** The user a refresh token still stands for; a disabled user's session is revoked instead. */
  function Refresh(s: Tables, req: Request): (Tables, Option<nat>)
    requires forall k :: 0 <= k < |s.sessions| ==> s.sessions[k].user < |s.users|
  {
    var found := if req.refreshHash.Some? then FindSession(s.sessions, req.refreshHash.value, Some(req.now)) else None;
    match found
    case None => (s, None)
    case Some(k) =>
      var user := s.sessions[k].user;
      if s.users[user].disabled then (Revoke(s, k), None) else (s, Some(user))
  }

  datatype Event =
    | CreatingAnonymous(req: Request)
    | SigningUp(normalized: string, displayName: string, passwordHash: string, req: Request)
    | SigningInWithGoogle(profile: Profile, req: Request)
    | LoggingIn(normalized: string, valid: bool, req: Request)
    | LoggingOut(req: Request)
    | Refreshing(req: Request)
    | Disabling(user: nat)         // done outside these services

  function Settle(s: Tables, o: Outcome): Tables {
    match o
    case Committed(t) => t
    case RolledBack(_) => s
  }

  ghost function Next(c: Config, s: Tables, e: Event): Tables
    requires Linked(s)
  {
    match e
    case CreatingAnonymous(req) => Settle(s, CreateAnonymous(c, s, req))
    case SigningUp(normalized, displayName, passwordHash, req) => Settle(s, Signup(c, s, normalized, displayName, passwordHash, req))
    case SigningInWithGoogle(profile, req) => Settle(s, SignInWithGoogle(c, s, profile, req))
    case LoggingIn(normalized, valid, req) => Settle(s, Login(c, s, normalized, valid, req))
    case LoggingOut(req) => Logout(s, req)
    case Refreshing(req) => Refresh(s, req).0
    case Disabling(user) => if user < |s.users| then s.(users := s.users[user := s.users[user].(disabled := true)]) else s
  }

  ghost predicate IsHistory(c: Config, states: seq<Tables>, events: seq<Event>) {
    && |states| == |events| + 1 && states[0] == EMPTY
    && forall k :: 0 <= k < |events| ==> Linked(states[k]) && states[k + 1] == Next(c, states[k], events[k])
  }

  // ----- Invariant -----

  ghost predicate Owned(users: seq<User>, p: nat) {
    exists u :: 0 <= u < |users| && users[u].principal == p
  }

  ghost predicate SessionsOk(principals: seq<Principal>, sessions: seq<AnonymousSession>, users: seq<User>) {
    && (forall i :: 0 <= i < |sessions| ==> sessions[i].principal < |principals|)
    && (forall i, j :: 0 <= i < j < |sessions| ==>
          sessions[i].principal != sessions[j].principal && sessions[i].tokenHash != sessions[j].tokenHash)
    && (forall i :: 0 <= i < |sessions| && !sessions[i].revoked ==>
          principals[sessions[i].principal].kind.Anonymous? && !Owned(users, sessions[i].principal))
  }

  ghost predicate UsersOk(principals: seq<Principal>, users: seq<User>) {
    && (forall u :: 0 <= u < |users| ==> users[u].principal < |principals| && principals[users[u].principal].kind.Registered?)
    && (forall u, v :: 0 <= u < v < |users| ==> users[u].principal != users[v].principal)
  }

  /** Only anonymous principals expire. */
  ghost predicate ExpiryOk(principals: seq<Principal>) {
    forall p :: 0 <= p < |principals| ==> (principals[p].kind.Registered? <==> principals[p].expiresAt.None?)
  }

  ghost predicate EmailsOk(users: seq<User>, emails: seq<Email>) {
    && (forall e :: 0 <= e < |emails| ==> emails[e].user < |users|)
    && (forall d, e :: 0 <= d < e < |emails| ==> emails[d].normalized != emails[e].normalized)
    && (forall u :: 0 <= u < |users| && users[u].primaryEmail.Some? ==>
          users[u].primaryEmail.value < |emails| && emails[users[u].primaryEmail.value].user == u)
  }

  ghost predicate AccountsOk(count: nat, accounts: seq<Account>) {
    && (forall a :: 0 <= a < |accounts| ==> accounts[a].user < count)
    && (forall a, b :: 0 <= a < b < |accounts| ==> accounts[a].subject != accounts[b].subject)
  }

  ghost predicate UserSessionsOk(count: nat, sessions: seq<UserSession>, credentials: map<nat, string>) {
    && (forall k :: 0 <= k < |sessions| ==> sessions[k].user < count)
    && (forall k, l :: 0 <= k < l < |sessions| ==> sessions[k].refreshHash != sessions[l].refreshHash)
    && (forall u :: u in credentials ==> u < count)
  }

  /** Anonymous principals created under one network and day. */
  function CreatedUnder(principals: seq<Principal>, key: Origin): nat {
    if principals == [] then 0
    else CreatedUnder(principals[..|principals| - 1], key) + if principals[|principals| - 1].origin == Some(key) then 1 else 0
  }

  ghost predicate QuotasOk(c: Config, s: Tables) {
    forall key :: QuotaAt(s, key) == CreatedUnder(s.principals, key) <= if c.creationLimit < 0 then 0 else c.creationLimit
  }

  ghost predicate Inv(c: Config, s: Tables) {
    && SessionsOk(s.principals, s.anonymousSessions, s.users) && UsersOk(s.principals, s.users) && ExpiryOk(s.principals)
    && EmailsOk(s.users, s.emails) && AccountsOk(|s.users|, s.accounts)
    && UserSessionsOk(|s.users|, s.sessions, s.credentials) && QuotasOk(c, s)
  }

  lemma {:induction false} CreatedUnderUpdate(principals: seq<Principal>, p: nat, x: Principal, key: Origin)
    requires p < |principals| && x.origin == principals[p].origin
    ensures CreatedUnder(principals[p := x], key) == CreatedUnder(principals, key)
  {
    var n := |principals| - 1;
    if p < n {
      assert principals[p := x][..n] == principals[..n][p := x];
      CreatedUnderUpdate(principals[..n], p, x, key);
    } else {
      assert principals[p := x][..n] == principals[..n];
    }
  }

  lemma CreatedUnderAppend(principals: seq<Principal>, x: Principal, key: Origin)
    ensures CreatedUnder(principals + [x], key) == CreatedUnder(principals, key) + if x.origin == Some(key) then 1 else 0
  {
    assert (principals + [x])[..|principals|] == principals;
  }

  // ----- Small steps keep it -----

  lemma CreateCounts(c: Config, s: Tables, req: Request)
    requires QuotasOk(c, s) && CreateAnonymous(c, s, req).Committed?
    ensures QuotasOk(c, CreateAnonymous(c, s, req).tables)
  {
    var t := CreateAnonymous(c, s, req).tables;
    forall k ensures QuotaAt(t, k) == CreatedUnder(t.principals, k) <= if c.creationLimit < 0 then 0 else c.creationLimit {
      CreatedUnderAppend(s.principals, t.principals[|s.principals|], k);
      assert QuotaAt(s, k) == CreatedUnder(s.principals, k);
    }
  }

  lemma CreateKeeps(c: Config, s: Tables, req: Request)
    requires Inv(c, s)
    ensures Inv(c, Settle(s, CreateAnonymous(c, s, req)))
  {
    if CreateAnonymous(c, s, req).Committed? {
      CreateCounts(c, s, req);
      assert !Owned(s.users, |s.principals|);
    }
  }

  /** A principal ready to be given to a new user. */
  ghost predicate Free(s: Tables, p: nat) {
    && p < |s.principals| && s.principals[p].kind.Registered? && !Owned(s.users, p)
    && forall i :: 0 <= i < |s.anonymousSessions| && !s.anonymousSessions[i].revoked ==> s.anonymousSessions[i].principal != p
  }

  /** Everything but principals and anonymous sessions is as before. */
  ghost predicate SameAccounts(s: Tables, t: Tables) {
    t.users == s.users && t.emails == s.emails && t.accounts == s.accounts && t.sessions == s.sessions
    && t.credentials == s.credentials && t.quotas == s.quotas
  }

  lemma PromotionCounts(c: Config, s: Tables, req: Request)
    requires QuotasOk(c, s) && Linked(s)
    ensures QuotasOk(c, PromotedPrincipal(s, req).0)
  {
    var (t, p) := PromotedPrincipal(s, req);
    forall k ensures QuotaAt(t, k) == CreatedUnder(t.principals, k) <= if c.creationLimit < 0 then 0 else c.creationLimit {
      assert QuotaAt(s, k) == CreatedUnder(s.principals, k);
      if p < |s.principals| {
        CreatedUnderUpdate(s.principals, p, t.principals[p], k);
      } else {
        CreatedUnderAppend(s.principals, t.principals[p], k);
      }
    }
  }

  lemma PromotionFrees(s: Tables, req: Request)
    requires SessionsOk(s.principals, s.anonymousSessions, s.users) && UsersOk(s.principals, s.users)
    ensures var (t, p) := PromotedPrincipal(s, req);
            SessionsOk(t.principals, t.anonymousSessions, t.users) && Free(t, p) && SameAccounts(s, t)
  {
  }

  lemma PromotionKeepsUsers(s: Tables, req: Request)
    requires SessionsOk(s.principals, s.anonymousSessions, s.users) && UsersOk(s.principals, s.users) && ExpiryOk(s.principals)
    ensures var t := PromotedPrincipal(s, req).0; UsersOk(t.principals, t.users) && ExpiryOk(t.principals)
  {
  }

  lemma PromotionKeeps(c: Config, s: Tables, req: Request)
    requires Inv(c, s) && Linked(s)
    ensures var (t, p) := PromotedPrincipal(s, req); Inv(c, t) && Free(t, p) && SameAccounts(s, t)
  {
    PromotionCounts(c, s, req);
    PromotionFrees(s, req);
    PromotionKeepsUsers(s, req);
  }

  lemma QuotasCarry(c: Config, s: Tables, t: Tables)
    requires QuotasOk(c, s) && t.principals == s.principals && t.quotas == s.quotas
    ensures QuotasOk(c, t)
  {
    forall key ensures QuotaAt(t, key) == CreatedUnder(t.principals, key) <= if c.creationLimit < 0 then 0 else c.creationLimit {
      assert QuotaAt(s, key) == CreatedUnder(s.principals, key);
    }
  }

  function WithUser(s: Tables, p: nat, displayName: string): Tables {
    s.(users := s.users + [User(p, displayName, None, false)])
  }

  lemma UserKeeps(c: Config, s: Tables, p: nat, displayName: string)
    requires Inv(c, s) && Free(s, p)
    ensures Inv(c, WithUser(s, p, displayName))
  {
    var t := WithUser(s, p, displayName);
    QuotasCarry(c, s, t);
    forall q: nat ensures Owned(t.users, q) ==> Owned(s.users, q) || q == p {
      if Owned(t.users, q) {
        var u :| 0 <= u < |t.users| && t.users[u].principal == q;
        assert u < |s.users| ==> s.users[u].principal == q;
      }
    }
  }

  /** Changing a user's name, e-mail or flag leaves who owns what. */
  lemma OwnersCarry(users: seq<User>, u: nat, x: User, p: nat)
    requires u < |users| && x.principal == users[u].principal
    ensures Owned(users[u := x], p) <==> Owned(users, p)
  {
    var after := users[u := x];
    if Owned(users, p) {
      var v :| 0 <= v < |users| && users[v].principal == p;
      assert after[v].principal == p;
    }
    if Owned(after, p) {
      var v :| 0 <= v < |after| && after[v].principal == p;
      assert users[v].principal == p;
    }
  }

  lemma UserChangeKeeps(c: Config, s: Tables, u: nat, x: User)
    requires Inv(c, s) && u < |s.users| && x.principal == s.users[u].principal && x.primaryEmail == s.users[u].primaryEmail
    ensures Inv(c, s.(users := s.users[u := x]))
  {
    QuotasCarry(c, s, s.(users := s.users[u := x]));
    forall p: nat { OwnersCarry(s.users, u, x, p); }
  }

  lemma EmailKeeps(c: Config, s: Tables, u: nat, normalized: string, verified: bool)
    requires Inv(c, s) && u < |s.users| && FindEmail(s.emails, normalized).None?
    ensures Inv(c, WithEmail(s, u, normalized, verified))
  {
    var t := WithEmail(s, u, normalized, verified);
    QuotasCarry(c, s, t);
    forall p: nat { OwnersCarry(s.users, u, t.users[u], p); }
  }

  lemma SessionKeeps(c: Config, s: Tables, u: nat, req: Request)
    requires Inv(c, s) && u < |s.users|
    ensures var o := WithSession(c, s, u, req); o.Committed? ==> Inv(c, o.tables)
  {
    var o := WithSession(c, s, u, req);
    if o.Committed? { QuotasCarry(c, s, o.tables); }
  }

  lemma AccountKeeps(c: Config, s: Tables, u: nat, profile: Profile)
    requires Inv(c, s) && u < |s.users|
    ensures Inv(c, WithAccount(s, u, profile))
  {
    QuotasCarry(c, s, WithAccount(s, u, profile));
  }

  /** A user's principal is registered already, so registering it again changes nothing. */
  lemma RegisteredAlready(c: Config, s: Tables, u: nat)
    requires Inv(c, s) && u < |s.users|
    ensures WithRegistered(s, s.users[u].principal) == s
  {
    var p := s.users[u].principal;
    assert s.principals[p := s.principals[p].(kind := Registered, expiresAt := None)] == s.principals;
  }

  lemma RevokeKeeps(c: Config, s: Tables, k: nat)
    requires Inv(c, s) && k < |s.sessions|
    ensures Inv(c, Revoke(s, k))
  {
    QuotasCarry(c, s, Revoke(s, k));
  }

  // ----- Transactions keep it -----

  lemma SignupKeeps(c: Config, s: Tables, normalized: string, displayName: string, passwordHash: string, req: Request)
    requires Inv(c, s) && Linked(s)
    ensures Inv(c, Settle(s, Signup(c, s, normalized, displayName, passwordHash, req)))
  {
    if FindEmail(s.emails, normalized).None? {
      PromotionKeeps(c, s, req);
      var (t, p) := PromotedPrincipal(s, req);
      UserKeeps(c, t, p, displayName);
      var user := |t.users|;
      EmailKeeps(c, WithUser(t, p, displayName), user, normalized, false);
      var mailed := WithEmail(WithUser(t, p, displayName), user, normalized, false);
      var armed := mailed.(credentials := mailed.credentials[user := passwordHash]);
      QuotasCarry(c, mailed, armed);
      SessionKeeps(c, armed, user, req);
    }
  }

  lemma CreateFromGoogleKeeps(c: Config, s: Tables, profile: Profile, req: Request)
    requires Inv(c, s) && Linked(s) && (profile.email != "" ==> FindEmail(s.emails, Normalize(profile.email)).None?)
    ensures var (t, user) := CreateFromGoogle(s, profile, req); Inv(c, t) && user < |t.users|
  {
    PromotionKeeps(c, s, req);
    var (t, p) := PromotedPrincipal(s, req);
    UserKeeps(c, t, p, profile.name);
    if profile.email != "" {
      EmailKeeps(c, WithUser(t, p, profile.name), |t.users|, Normalize(profile.email), profile.emailAuthoritative);
    }
  }

  lemma ResolveKeeps(c: Config, s: Tables, profile: Profile, req: Request)
    requires Inv(c, s) && Linked(s)
    ensures var r := ResolveUser(s, profile, req); r.Found? ==> Inv(c, r.tables) && r.user < |r.tables.users|
  {
    if FindAccount(s.accounts, profile.subject).None? {
      if profile.email == "" || FindEmail(s.emails, Normalize(profile.email)).None? {
        CreateFromGoogleKeeps(c, s, profile, req);
      }
    }
  }

  lemma GoogleKeeps(c: Config, s: Tables, profile: Profile, req: Request)
    requires Inv(c, s) && Linked(s)
    ensures Inv(c, Settle(s, SignInWithGoogle(c, s, profile, req)))
  {
    ResolveKeeps(c, s, profile, req);
    var r := ResolveUser(s, profile, req);
    if r.Found? {
      AccountKeeps(c, r.tables, r.user, profile);
      var linked := WithAccount(r.tables, r.user, profile);
      UserChangeKeeps(c, linked, r.user, linked.users[r.user].(displayName := profile.name));
      var named := WithName(linked, r.user, profile.name);
      RegisteredAlready(c, named, r.user);
      SessionKeeps(c, named, r.user, req);
    }
  }

  lemma StepKeepsInv(c: Config, s: Tables, e: Event)
    requires Inv(c, s) && Linked(s)
    ensures Inv(c, Next(c, s, e))
  {
    match e {
      case CreatingAnonymous(req) => CreateKeeps(c, s, req);
      case SigningUp(normalized, displayName, passwordHash, req) => SignupKeeps(c, s, normalized, displayName, passwordHash, req);
      case SigningInWithGoogle(profile, req) => GoogleKeeps(c, s, profile, req);
      case LoggingIn(normalized, valid, req) =>
        var email := FindEmail(s.emails, normalized);
        if email.Some? { SessionKeeps(c, s, s.emails[email.value].user, req); }
      case LoggingOut(req) =>
        var found := if req.refreshHash.Some? then FindSession(s.sessions, req.refreshHash.value, None) else None;
        if found.Some? { RevokeKeeps(c, s, found.value); }
      case Refreshing(req) =>
        var found := if req.refreshHash.Some? then FindSession(s.sessions, req.refreshHash.value, Some(req.now)) else None;
        if found.Some? { RevokeKeeps(c, s, found.value); }
      case Disabling(user) =>
        if user < |s.users| { UserChangeKeeps(c, s, user, s.users[user].(disabled := true)); }
    }
  }

  lemma EmptyIsGood(c: Config)
    ensures Inv(c, EMPTY)
  {
  }

  lemma {:induction false} HistoryKeepsInv(c: Config, states: seq<Tables>, events: seq<Event>, k: nat)
    requires IsHistory(c, states, events) && k <= |events|
    ensures Inv(c, states[k])
  {
    if k == 0 {
      EmptyIsGood(c);
    } else {
      HistoryKeepsInv(c, states, events, k - 1);
      StepKeepsInv(c, states[k - 1], events[k - 1]);
    }
  }
}
