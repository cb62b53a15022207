/** What each identity operation leaves in the tables, row by row, and when it is refused. */
module IdentityEffects {
  import opened Options
  import opened Identity

  // ----- Which rows a request names -----

  predicate OpensAnonymous(s: Tables, req: Request, i: nat) {
    && i < |s.anonymousSessions| && req.anonymousHash == Some(s.anonymousSessions[i].tokenHash)
    && !s.anonymousSessions[i].revoked && s.anonymousSessions[i].expiresAt > req.now
  }

  ghost predicate FirstAnonymous(s: Tables, req: Request, i: Option<nat>) {
    && (i.Some? ==> OpensAnonymous(s, req, i.value))
    && forall j: nat :: (i.Some? ==> j < i.value) ==> !OpensAnonymous(s, req, j)
  }

  /** Expiry counts only where a time is given. */
  predicate OpensSession(s: Tables, refreshHash: Option<string>, now: Option<int>, k: nat) {
    && k < |s.sessions| && refreshHash == Some(s.sessions[k].refreshHash) && !s.sessions[k].revoked
    && (now.Some? ==> s.sessions[k].expiresAt > now.value)
  }

  ghost predicate FirstSession(s: Tables, refreshHash: Option<string>, now: Option<int>, k: Option<nat>) {
    && (k.Some? ==> OpensSession(s, refreshHash, now, k.value))
    && forall j: nat :: (k.Some? ==> j < k.value) ==> !OpensSession(s, refreshHash, now, j)
  }

  ghost predicate FirstEmail(s: Tables, normalized: string, e: Option<nat>) {
    && (e.Some? ==> e.value < |s.emails| && s.emails[e.value].normalized == normalized)
    && forall j :: 0 <= j < (if e.Some? then e.value else |s.emails|) ==> s.emails[j].normalized != normalized
  }

  ghost predicate FirstAccount(s: Tables, subject: string, a: Option<nat>) {
    && (a.Some? ==> a.value < |s.accounts| && s.accounts[a.value].subject == subject)
    && forall j :: 0 <= j < (if a.Some? then a.value else |s.accounts|) ==> s.accounts[j].subject != subject
  }

  lemma {:induction false} FindAnonymousIsFirst(s: Tables, req: Request, hash: string)
    requires req.anonymousHash == Some(hash)
    ensures FirstAnonymous(s, req, FindAnonymous(s.anonymousSessions, hash, req.now))
    decreases |s.anonymousSessions|
  {
    if s.anonymousSessions != [] {
      var n := |s.anonymousSessions| - 1;
      var t := s.(anonymousSessions := s.anonymousSessions[..n]);
      FindAnonymousIsFirst(t, req, hash);
      assert forall j: nat :: j < n ==> (OpensAnonymous(t, req, j) <==> OpensAnonymous(s, req, j));
    }
  }

  lemma {:induction false} FindSessionIsFirst(s: Tables, hash: string, now: Option<int>)
    ensures FirstSession(s, Some(hash), now, FindSession(s.sessions, hash, now))
    decreases |s.sessions|
  {
    if s.sessions != [] {
      var n := |s.sessions| - 1;
      var t := s.(sessions := s.sessions[..n]);
      FindSessionIsFirst(t, hash, now);
      assert forall j: nat :: j < n ==> (OpensSession(t, Some(hash), now, j) <==> OpensSession(s, Some(hash), now, j));
    }
  }

  lemma {:induction false} FindEmailIsFirst(s: Tables, normalized: string)
    ensures FirstEmail(s, normalized, FindEmail(s.emails, normalized))
    decreases |s.emails|
  {
    if s.emails != [] {
      var n := |s.emails| - 1;
      FindEmailIsFirst(s.(emails := s.emails[..n]), normalized);
      assert forall j :: 0 <= j < n ==> s.emails[..n][j] == s.emails[j];
    }
  }

  lemma {:induction false} FindAccountIsFirst(s: Tables, subject: string)
    ensures FirstAccount(s, subject, FindAccount(s.accounts, subject))
    decreases |s.accounts|
  {
    if s.accounts != [] {
      var n := |s.accounts| - 1;
      FindAccountIsFirst(s.(accounts := s.accounts[..n]), subject);
      assert forall j :: 0 <= j < n ==> s.accounts[..n][j] == s.accounts[j];
    }
  }

  // ----- New sessions and principals -----

  ghost predicate HashIsFresh(s: Tables, hash: string) {
    forall k :: 0 <= k < |s.sessions| ==> s.sessions[k].refreshHash != hash
  }

  function NewSession(c: Config, user: nat, req: Request): UserSession {
    UserSession(user, req.newHash, false, req.now + c.refreshTtl)
  }

  /** The request's first live anonymous session is spent and its principal registered for good; without one a principal is added. */
  ghost predicate TakesPrincipal(s: Tables, t: Tables, req: Request, p: nat) {
    exists i: Option<nat> :: FirstAnonymous(s, req, i) && TakesFrom(s, t, i, p)
  }

  ghost predicate TakesFrom(s: Tables, t: Tables, i: Option<nat>, p: nat) {
    match i
    case Some(j) =>
      && j < |s.anonymousSessions| && p == s.anonymousSessions[j].principal && p < |s.principals|
      && t.principals == s.principals[p := Principal(Registered, None, s.principals[p].origin)]
      && t.anonymousSessions
         == s.anonymousSessions[j := AnonymousSession(p, s.anonymousSessions[j].tokenHash, true, s.anonymousSessions[j].expiresAt)]
    case None =>
      && p == |s.principals| && t.principals == s.principals + [Principal(Registered, None, None)]
      && t.anonymousSessions == s.anonymousSessions
  }

  lemma PromotionExactly(s: Tables, req: Request)
    requires Linked(s)
    ensures var (t, p) := PromotedPrincipal(s, req);
            TakesPrincipal(s, t, req, p) && t == s.(principals := t.principals, anonymousSessions := t.anonymousSessions)
  {
    var (t, p) := PromotedPrincipal(s, req);
    var found := if req.anonymousHash.Some? then FindAnonymous(s.anonymousSessions, req.anonymousHash.value, req.now) else None;
    if req.anonymousHash.Some? {
      FindAnonymousIsFirst(s, req, req.anonymousHash.value);
    }
    assert FirstAnonymous(s, req, found) && TakesFrom(s, t, found, p);
  }

  // ----- Sign-up -----

  datatype Signing = Signing(normalized: string, displayName: string, passwordHash: string, req: Request)

  /** One user, enabled and named as asked, its unverified primary e-mail, its password and its session; the rest is as before. */
  ghost predicate SignedUp(c: Config, s: Tables, t: Tables, a: Signing) {
    var user := |s.users|;
    exists p: nat :: TakesPrincipal(s, t, a.req, p)
      && t.users == s.users + [User(p, a.displayName, Some(|s.emails|), false)]
      && t.emails == s.emails + [Email(user, a.normalized, false)]
      && t.credentials == s.credentials[user := a.passwordHash]
      && t.sessions == s.sessions + [NewSession(c, user, a.req)]
      && t.accounts == s.accounts && t.quotas == s.quotas
  }

  /** A sign-up is refused for a known address, or undone by a used token hash; otherwise it commits these rows. */
  ghost predicate SignUpSettles(c: Config, s: Tables, o: Outcome, a: Signing) {
    if exists e :: 0 <= e < |s.emails| && s.emails[e].normalized == a.normalized then o == RolledBack(EmailRegistered)
    else if !HashIsFresh(s, a.req.newHash) then o == RolledBack(DuplicateKey)
    else o.Committed? && SignedUp(c, s, o.tables, a)
  }

  lemma SignupExactly(c: Config, s: Tables, a: Signing)
    requires Linked(s)
    ensures SignUpSettles(c, s, Signup(c, s, a.normalized, a.displayName, a.passwordHash, a.req), a)
  {
    FindEmailIsFirst(s, a.normalized);
    PromotionExactly(s, a.req);
    var (t, p) := PromotedPrincipal(s, a.req);
    var o := Signup(c, s, a.normalized, a.displayName, a.passwordHash, a.req);
    if o.Committed? {
      assert TakesPrincipal(s, o.tables, a.req, p) by {
        var i: Option<nat> :| FirstAnonymous(s, a.req, i) && TakesFrom(s, t, i, p);
        assert TakesFrom(s, o.tables, i, p);
      }
      assert o.tables.users == s.users + [User(p, a.displayName, Some(|s.emails|), false)];
    }
  }

  // ----- Log-in -----

  /** What a log-in on an e-mail's row does. */
  ghost predicate LogsIn(c: Config, s: Tables, o: Outcome, e: Option<nat>, valid: bool, req: Request) {
    if e.Some? && e.value < |s.emails| && s.emails[e.value].user in s.credentials && s.emails[e.value].user < |s.users|
       && !s.users[s.emails[e.value].user].disabled && valid then
      if HashIsFresh(s, req.newHash)
      then o == Committed(s.(sessions := s.sessions + [NewSession(c, s.emails[e.value].user, req)]))
      else o == RolledBack(DuplicateKey)
    else o == RolledBack(InvalidLogin)
  }

  /** A log-in opens one session for the user of the address, if it is enabled and has a password and it was the right one. */
  ghost predicate LogInSettles(c: Config, s: Tables, o: Outcome, normalized: string, valid: bool, req: Request) {
    exists e: Option<nat> :: FirstEmail(s, normalized, e) && LogsIn(c, s, o, e, valid, req)
  }

  lemma LoginExactly(c: Config, s: Tables, normalized: string, valid: bool, req: Request)
    requires Linked(s)
    ensures LogInSettles(c, s, Login(c, s, normalized, valid, req), normalized, valid, req)
  {
    FindEmailIsFirst(s, normalized);
    assert LogsIn(c, s, Login(c, s, normalized, valid, req), FindEmail(s.emails, normalized), valid, req);
  }

  /** In the tables a sign-up leaves, the address leads to the new user, who is enabled and has the password. */
  lemma SignedUpIsKnown(c: Config, s: Tables, t: Tables, a: Signing)
    requires Linked(s) && SignedUp(c, s, t, a) && forall e :: 0 <= e < |s.emails| ==> s.emails[e].normalized != a.normalized
    ensures FindEmail(t.emails, a.normalized) == Some(|s.emails|) && t.emails[|s.emails|].user == |s.users| < |t.users|
    ensures !t.users[|s.users|].disabled && |s.users| in t.credentials && t.credentials[|s.users|] == a.passwordHash
    ensures forall e :: 0 <= e < |t.emails| ==> t.emails[e].user < |t.users|
  {
    assert forall e :: 0 <= e < |s.emails| ==> t.emails[e] == s.emails[e];
    FindEmailIsFirst(t, a.normalized);
  }

  lemma StillFresh(c: Config, s: Tables, t: Tables, a: Signing, hash: string)
    requires SignedUp(c, s, t, a) && HashIsFresh(s, hash) && hash != a.req.newHash
    ensures !RefreshHashTaken(t, hash)
  {
  }

  /** Whoever signed up can log in: from the committed tables the address, the right password and an unused token open a session. */
  lemma SignedUpCanLogIn(c: Config, s: Tables, a: Signing, again: Request)
    requires Linked(s) && Signup(c, s, a.normalized, a.displayName, a.passwordHash, a.req).Committed?
    requires HashIsFresh(s, again.newHash) && again.newHash != a.req.newHash
    ensures var t := Signup(c, s, a.normalized, a.displayName, a.passwordHash, a.req).tables;
            && |s.users| in t.credentials && t.credentials[|s.users|] == a.passwordHash
            && (forall e :: 0 <= e < |t.emails| ==> t.emails[e].user < |t.users|)
            && Login(c, t, a.normalized, true, again) == Committed(t.(sessions := t.sessions + [NewSession(c, |s.users|, again)]))
  {
    SignupExactly(c, s, a);
    var o := Signup(c, s, a.normalized, a.displayName, a.passwordHash, a.req);
    SignedUpIsKnown(c, s, o.tables, a);
    StillFresh(c, s, o.tables, a, again.newHash);
  }

  // ----- Anonymous principals -----

  /** One more principal on the network's quota of the day, and its session; refused once the quota is used up. */
  ghost predicate CreationSettles(c: Config, s: Tables, o: Outcome, req: Request) {
    var key := Origin(req.ipHash, req.day);
    var used, expiresAt := if key in s.quotas then s.quotas[key] else 0, req.now + c.anonymousTtl;
    if used >= c.creationLimit then o == RolledBack(TooManyToday)
    else if exists i :: 0 <= i < |s.anonymousSessions| && s.anonymousSessions[i].tokenHash == req.newHash then o == RolledBack(DuplicateKey)
    else o == Committed(s.(
           quotas := s.quotas[key := used + 1],
           principals := s.principals + [Principal(Anonymous, Some(expiresAt), Some(key))],
           anonymousSessions := s.anonymousSessions + [AnonymousSession(|s.principals|, req.newHash, false, expiresAt)]))
  }

  lemma CreationExactly(c: Config, s: Tables, req: Request)
    ensures CreationSettles(c, s, CreateAnonymous(c, s, req), req)
  {
  }

  // ----- Google sign-in -----

  /** The Google account of the subject, linked to the user and brought up to date; an address once known is kept. */
  ghost predicate AccountRecorded(s: Tables, t: Tables, a: Option<nat>, user: nat, profile: Profile) {
    match a
    case Some(i) =>
      && i < |s.accounts|
      && t.accounts == s.accounts[i := Account(s.accounts[i].user, profile.subject,
                                               if profile.email != "" then Some(profile.email) else s.accounts[i].email,
                                               profile.emailVerified)]
    case None =>
      t.accounts == s.accounts + [Account(user, profile.subject, if profile.email != "" then Some(profile.email) else None, profile.emailVerified)]
  }

  /** An existing user signs in: a missing name is filled in, its principal is registered, and a session is opened. */
  ghost predicate KnownSignedIn(c: Config, s: Tables, t: Tables, a: Option<nat>, user: nat, profile: Profile, req: Request) {
    && user < |s.users| && s.users[user].principal < |s.principals|
    && t.users == s.users[user := s.users[user].(displayName :=
                              if s.users[user].displayName == "" then profile.name else s.users[user].displayName)]
    && t.principals == s.principals[s.users[user].principal :=
                                    Principal(Registered, None, s.principals[s.users[user].principal].origin)]
    && AccountRecorded(s, t, a, user, profile)
    && t.sessions == s.sessions + [NewSession(c, user, req)]
    && t.emails == s.emails && t.anonymousSessions == s.anonymousSessions
    && t.credentials == s.credentials && t.quotas == s.quotas
  }

  /** A new user: named after the profile, with its address, if any, as primary e-mail, verified if the provider is its authority. */
  ghost predicate NewlySignedIn(c: Config, s: Tables, t: Tables, profile: Profile, req: Request) {
    var user := |s.users|;
    exists p: nat :: TakesPrincipal(s, t, req, p)
      && t.users == s.users + [User(p, profile.name, if profile.email != "" then Some(|s.emails|) else None, false)]
      && t.emails == s.emails + (if profile.email != "" then [Email(user, Normalize(profile.email), profile.emailAuthoritative)] else [])
      && AccountRecorded(s, t, None, user, profile)
      && t.sessions == s.sessions + [NewSession(c, user, req)]
      && t.credentials == s.credentials && t.quotas == s.quotas
  }

  ghost predicate KnownSettles(c: Config, s: Tables, o: Outcome, a: Option<nat>, user: nat, profile: Profile, req: Request) {
    if user < |s.users| && s.users[user].disabled then o == RolledBack(Disabled)
    else if !HashIsFresh(s, req.newHash) then o == RolledBack(DuplicateKey)
    else o.Committed? && KnownSignedIn(c, s, o.tables, a, user, profile, req)
  }

  ghost predicate NewSettles(c: Config, s: Tables, o: Outcome, profile: Profile, req: Request) {
    if !HashIsFresh(s, req.newHash) then o == RolledBack(DuplicateKey)
    else o.Committed? && NewlySignedIn(c, s, o.tables, profile, req)
  }

  /** A profile whose address is not verified is refused. Otherwise its subject's user signs in, else an authoritative address's, else a new one. */
  ghost predicate GoogleSettles(c: Config, s: Tables, o: Outcome, profile: Profile, req: Request) {
    if profile.email != "" && !profile.emailVerified then o == RolledBack(EmailNotVerified)
    else exists a: Option<nat>, e: Option<nat> ::
      && FirstAccount(s, profile.subject, a) && FirstEmail(s, Normalize(profile.email), e)
      && if a.Some? then KnownSettles(c, s, o, a, s.accounts[a.value].user, profile, req)
         else if profile.email != "" && e.Some? then
           if profile.emailAuthoritative then KnownSettles(c, s, o, a, s.emails[e.value].user, profile, req)
           else o == RolledBack(EmailNotAuthoritative)
         else NewSettles(c, s, o, profile, req)
  }

  /** Recording the account and a missing name touches nothing else. */
  lemma DressExactly(s: Tables, user: nat, profile: Profile)
    requires user < |s.users|
    ensures var t, u := WithName(WithAccount(s, user, profile), user, profile.name), s.users[user];
            && AccountRecorded(s, t, FindAccount(s.accounts, profile.subject), user, profile)
            && t == s.(accounts := t.accounts,
                       users := s.users[user := u.(displayName := if u.displayName == "" then profile.name else u.displayName)])
  {
    var u := s.users[user];
    assert s.users[user := u] == s.users;
    assert u.(displayName := u.displayName) == u;
  }

  lemma KnownExactly(c: Config, s: Tables, profile: Profile, req: Request, user: nat)
    requires Linked(s) && ResolveUser(s, profile, req) == Found(s, user) && user < |s.users|
    requires profile.email != "" ==> profile.emailVerified
    ensures KnownSettles(c, s, SignInWithGoogle(c, s, profile, req), FindAccount(s.accounts, profile.subject), user, profile, req)
  {
    DressExactly(s, user, profile);
  }

  /** The tables once the new user's own rows are in. */
  ghost predicate HasNewUser(s: Tables, t: Tables, profile: Profile, req: Request) {
    exists p: nat :: TakesPrincipal(s, t, req, p) && p < |t.principals| && t.principals[p] == Principal(Registered, None, t.principals[p].origin)
      && t.users == s.users + [User(p, profile.name, if profile.email != "" then Some(|s.emails|) else None, false)]
      && t.emails == s.emails + (if profile.email != "" then [Email(|s.users|, Normalize(profile.email), profile.emailAuthoritative)] else [])
      && t == s.(principals := t.principals, anonymousSessions := t.anonymousSessions, users := t.users, emails := t.emails)
  }

  lemma NewUserExactly(s: Tables, profile: Profile, req: Request)
    requires Linked(s)
    ensures var (t, user) := CreateFromGoogle(s, profile, req); user == |s.users| && HasNewUser(s, t, profile, req)
  {
    PromotionExactly(s, req);
    var (promoted, p) := PromotedPrincipal(s, req);
    var (t, user) := CreateFromGoogle(s, profile, req);
    var i: Option<nat> :| FirstAnonymous(s, req, i) && TakesFrom(s, promoted, i, p);
    assert TakesFrom(s, t, i, p);
    assert TakesPrincipal(s, t, req, p);
  }

  /** What the sign-in adds to them. */
  lemma NewUserSignsIn(c: Config, s: Tables, t: Tables, profile: Profile, req: Request)
    requires HasNewUser(s, t, profile, req) && FindAccount(s.accounts, profile.subject).None?
    ensures var named := WithName(WithAccount(t, |s.users|, profile), |s.users|, profile.name);
            && named.users == t.users && !t.users[|s.users|].disabled && t.users[|s.users|].principal < |t.principals|
            && named.principals == t.principals
            && NewSettles(c, s, WithSession(c, WithRegistered(named, t.users[|s.users|].principal), |s.users|, req), profile, req)
  {
    var user, p := |s.users|, t.users[|s.users|].principal;
    DressExactly(t, user, profile);
    assert t.users[user := t.users[user]] == t.users;
    assert t.principals[p := t.principals[p]] == t.principals;
    var i: Option<nat> :| FirstAnonymous(s, req, i) && TakesFrom(s, t, i, p);
    var o := WithSession(c, WithRegistered(WithName(WithAccount(t, user, profile), user, profile.name), p), user, req);
    if o.Committed? {
      assert TakesFrom(s, o.tables, i, p);
      assert TakesPrincipal(s, o.tables, req, p);
    }
  }

  lemma NewExactly(c: Config, s: Tables, profile: Profile, req: Request)
    requires Linked(s) && FindAccount(s.accounts, profile.subject).None?
    requires profile.email != "" ==> profile.emailVerified && FindEmail(s.emails, Normalize(profile.email)).None?
    ensures NewSettles(c, s, SignInWithGoogle(c, s, profile, req), profile, req)
  {
    NewUserExactly(s, profile, req);
    NewUserSignsIn(c, s, CreateFromGoogle(s, profile, req).0, profile, req);
  }

  lemma GoogleExactly(c: Config, s: Tables, profile: Profile, req: Request)
    requires Linked(s)
    ensures GoogleSettles(c, s, SignInWithGoogle(c, s, profile, req), profile, req)
  {
    var a, e := FindAccount(s.accounts, profile.subject), FindEmail(s.emails, Normalize(profile.email));
    FindAccountIsFirst(s, profile.subject);
    FindEmailIsFirst(s, Normalize(profile.email));
    if profile.email == "" || profile.emailVerified {
      if a.Some? {
        KnownExactly(c, s, profile, req, s.accounts[a.value].user);
      } else if profile.email != "" && e.Some? {
        if profile.emailAuthoritative {
          KnownExactly(c, s, profile, req, s.emails[e.value].user);
        }
      } else {
        NewExactly(c, s, profile, req);
      }
    }
  }

  predicate IsBlank(c: char) {
    c as int == 32 || 9 <= c as int <= 13
  }

  /** The part of the address between the blanks around it, in lower case. */
  ghost predicate IsNormalized(email: string, normalized: string, from: nat, to: nat) {
    && from <= to <= |email| && |normalized| == to - from
    && (forall k :: 0 <= k < from || to <= k < |email| ==> IsBlank(email[k]))
    && (from < to ==> !IsBlank(email[from]) && !IsBlank(email[to - 1]))
    && (forall k :: 0 <= k < to - from ==>
          var c := email[from + k];
          normalized[k] == if 65 <= c as int <= 90 then (c as int + 32) as char else c)
  }

  lemma {:induction false} TrimExactly(s: string) returns (from: nat, to: nat)
    ensures from <= to <= |s| && Trim(s) == s[from..to]
    ensures forall k :: 0 <= k < from || to <= k < |s| ==> IsBlank(s[k])
    ensures from < to ==> !IsBlank(s[from]) && !IsBlank(s[to - 1])
    decreases |s|
  {
    if s != [] && IsSpace(s[0]) {
      var i, j := TrimExactly(s[1..]);
      from, to := i + 1, j + 1;
      assert s[1..][i..j] == s[from..to];
      forall k | 0 <= k < from || to <= k < |s| ensures IsBlank(s[k]) {
        assert k > 0 ==> s[k] == s[1..][k - 1];
      }
    } else if s != [] && IsSpace(s[|s| - 1]) {
      from, to := TrimExactly(s[..|s| - 1]);
      assert s[..|s| - 1][from..to] == s[from..to];
    } else {
      from, to := 0, |s|;
      assert s[0..|s|] == s;
    }
  }

  lemma NormalizeExactly(email: string) returns (from: nat, to: nat)
    ensures IsNormalized(email, Normalize(email), from, to)
  {
    from, to := TrimExactly(email);
  }

  // ----- Session ends -----

  /** The session is revoked and nothing else changes. */
  ghost predicate Revoked(s: Tables, t: Tables, k: nat) {
    k < |s.sessions|
    && t == s.(sessions := s.sessions[k := UserSession(s.sessions[k].user, s.sessions[k].refreshHash, true, s.sessions[k].expiresAt)])
  }

  /** A log-out revokes the first session its token opens, expired or not. */
  ghost predicate LogOutSettles(s: Tables, t: Tables, req: Request) {
    exists k: Option<nat> :: FirstSession(s, req.refreshHash, None, k) && if k.Some? then Revoked(s, t, k.value) else t == s
  }

  lemma LogoutExactly(s: Tables, req: Request)
    ensures LogOutSettles(s, Logout(s, req), req)
  {
    if req.refreshHash.Some? {
      FindSessionIsFirst(s, req.refreshHash.value, None);
      var k := FindSession(s.sessions, req.refreshHash.value, None);
      assert k.Some? ==> Revoked(s, Logout(s, req), k.value);
    } else {
      assert FirstSession(s, req.refreshHash, None, None);
    }
  }

  /** A refresh answers the user of the first unexpired session its token opens; a disabled user's is revoked instead. */
  ghost predicate RefreshSettles(s: Tables, t: Tables, user: Option<nat>, req: Request) {
    exists k: Option<nat> :: FirstSession(s, req.refreshHash, Some(req.now), k)
      && if k.None? then t == s && user == None
         else if s.sessions[k.value].user < |s.users| && s.users[s.sessions[k.value].user].disabled
           then Revoked(s, t, k.value) && user == None
         else t == s && user == Some(s.sessions[k.value].user)
  }

  lemma RefreshExactly(s: Tables, req: Request)
    requires Linked(s)
    ensures var (t, user) := Refresh(s, req); RefreshSettles(s, t, user, req)
  {
    if req.refreshHash.Some? {
      FindSessionIsFirst(s, req.refreshHash.value, Some(req.now));
      var k := FindSession(s.sessions, req.refreshHash.value, Some(req.now));
      assert FirstSession(s, req.refreshHash, Some(req.now), k);
    } else {
      assert FirstSession(s, req.refreshHash, Some(req.now), None);
    }
  }
}
