/** What the identity operations guarantee over every history. */
module IdentityGuarantees {
  import opened Options
  import opened Identity

  /** Anonymous sessions that still count belong to anonymous principals nobody owns; every user has a registered principal of its own. */
  lemma PrincipalsHaveOneRole(c: Config, states: seq<Tables>, events: seq<Event>, k: nat)
    requires IsHistory(c, states, events) && k <= |events|
    ensures Linked(states[k])
    ensures var s := states[k];
            && (forall i :: 0 <= i < |s.anonymousSessions| && !s.anonymousSessions[i].revoked ==>
                  s.principals[s.anonymousSessions[i].principal].kind.Anonymous? && !Owned(s.users, s.anonymousSessions[i].principal))
            && (forall u :: 0 <= u < |s.users| ==> s.principals[s.users[u].principal].kind.Registered?)
            && (forall u, v :: 0 <= u < v < |s.users| ==> s.users[u].principal != s.users[v].principal)
            && (forall p :: 0 <= p < |s.principals| ==> (s.principals[p].kind.Registered? <==> s.principals[p].expiresAt.None?))
  {
    HistoryKeepsInv(c, states, events, k);
  }

  lemma NamesAreUnique(c: Config, states: seq<Tables>, events: seq<Event>, k: nat)
    requires IsHistory(c, states, events) && k <= |events|
    ensures var s := states[k];
            && (forall d, e :: 0 <= d < e < |s.emails| ==> s.emails[d].normalized != s.emails[e].normalized)
            && (forall a, b :: 0 <= a < b < |s.accounts| ==> s.accounts[a].subject != s.accounts[b].subject)
            && (forall u :: 0 <= u < |s.users| && s.users[u].primaryEmail.Some? ==>
                  s.users[u].primaryEmail.value < |s.emails| && s.emails[s.users[u].primaryEmail.value].user == u)
  {
    HistoryKeepsInv(c, states, events, k);
  }

  /** Each quota row counts exactly the anonymous principals made under it, and refusals start exactly at the limit. */
  lemma QuotasAreExact(c: Config, states: seq<Tables>, events: seq<Event>, k: nat, req: Request)
    requires IsHistory(c, states, events) && k <= |events|
    ensures var s, key := states[k], Origin(req.ipHash, req.day);
            && QuotaAt(s, key) == CreatedUnder(s.principals, key) <= (if c.creationLimit < 0 then 0 else c.creationLimit)
            && (CreateAnonymous(c, s, req) == RolledBack(TooManyToday) <==> CreatedUnder(s.principals, key) >= c.creationLimit)
  {
    HistoryKeepsInv(c, states, events, k);
    var s, key := states[k], Origin(req.ipHash, req.day);
    assert QuotaAt(s, key) == CreatedUnder(s.principals, key);
  }

  // ----- Promotion -----

  /** The live anonymous session a request carries. */
  function Carried(s: Tables, req: Request): Option<nat> {
    if req.anonymousHash.Some? then FindAnonymous(s.anonymousSessions, req.anonymousHash.value, req.now) else None
  }

  ghost predicate Promotes(s: Tables, t: Tables, req: Request, user: nat) {
    && user == |s.users| < |t.users|
    && match Carried(s, req)
       case Some(i) =>
         t.users[user].principal == s.anonymousSessions[i].principal && |t.principals| == |s.principals|
         && i < |t.anonymousSessions| && t.anonymousSessions[i] == s.anonymousSessions[i].(revoked := true)
       case None => t.users[user].principal == |s.principals| && t.anonymousSessions == s.anonymousSessions
  }

  /** Signing up on an anonymous session keeps its principal, so what it owned stays with the user, and spends the session. */
  lemma SignupPromotes(c: Config, s: Tables, normalized: string, displayName: string, passwordHash: string, req: Request)
    requires Inv(c, s) && Linked(s)
    ensures var o := Signup(c, s, normalized, displayName, passwordHash, req);
            && (o.Committed? ==> Promotes(s, o.tables, req, |s.users|))
            && (o == RolledBack(EmailRegistered) <==> exists e :: 0 <= e < |s.emails| && s.emails[e].normalized == normalized)
  {
    PromotionKeeps(c, s, req);
  }

  /** What resolving a profile does: nothing, or the creation of one user. */
  lemma Resolved(s: Tables, profile: Profile, req: Request)
    requires Linked(s)
    ensures var r := ResolveUser(s, profile, req);
            r.Found? ==>
              && r.tables.accounts == s.accounts && r.tables.sessions == s.sessions && r.user < |r.tables.users|
              && (r.tables == s || (r.tables == CreateFromGoogle(s, profile, req).0 && r.user == |s.users| == |r.tables.users| - 1))
              && (r.tables == s && FindAccount(s.accounts, profile.subject).Some? ==>
                    r.user == s.accounts[FindAccount(s.accounts, profile.subject).value].user)
              && (r.user < |s.users| && FindAccount(s.accounts, profile.subject).None? ==>
                    profile.emailAuthoritative && profile.email != ""
                    && exists e :: 0 <= e < |s.emails| && s.emails[e].normalized == Normalize(profile.email) && s.emails[e].user == r.user)
  {
  }

  /** Users keep their principal and their flag. */
  ghost predicate SameOwners(users: seq<User>, after: seq<User>) {
    |after| == |users| && forall u :: 0 <= u < |users| ==> after[u].principal == users[u].principal && after[u].disabled == users[u].disabled
  }

  /** Recording the account and the name leaves ownership, and re-registering the principal changes nothing. */
  lemma Dressed(s: Tables, u: nat, profile: Profile)
    requires UsersOk(s.principals, s.users) && ExpiryOk(s.principals) && u < |s.users|
    ensures var named := WithName(WithAccount(s, u, profile), u, profile.name);
            && SameOwners(s.users, named.users) && named.users[u].principal < |named.principals|
            && WithRegistered(named, named.users[u].principal) == named
            && named == s.(users := named.users, accounts := WithAccount(s, u, profile).accounts)
  {
    var p := s.users[u].principal;
    assert s.principals[p := s.principals[p].(kind := Registered, expiresAt := None)] == s.principals;
  }

  /** What a committed sign-in adds to the resolved tables. */
  lemma SignedIn(c: Config, s: Tables, profile: Profile, req: Request)
    requires Inv(c, s) && Linked(s) && SignInWithGoogle(c, s, profile, req).Committed?
    ensures var t, r := SignInWithGoogle(c, s, profile, req).tables, ResolveUser(s, profile, req);
            && r.Found? && r.user < |r.tables.users| && !r.tables.users[r.user].disabled
            && t.principals == r.tables.principals && t.anonymousSessions == r.tables.anonymousSessions
            && SameOwners(r.tables.users, t.users) && t.accounts == WithAccount(r.tables, r.user, profile).accounts
            && t.sessions == r.tables.sessions + [UserSession(r.user, req.newHash, false, req.now + c.refreshTtl)]
  {
    var r := ResolveUser(s, profile, req);
    assert r.Found? && r.user < |r.tables.users| && Inv(c, r.tables) by { ResolveKeeps(c, s, profile, req); }
    Dressed(r.tables, r.user, profile);
  }

  /** A first Google sign-in that creates a user promotes the same way. */
  lemma GooglePromotes(c: Config, s: Tables, profile: Profile, req: Request)
    requires Inv(c, s) && Linked(s) && SignInWithGoogle(c, s, profile, req).Committed?
    ensures var t := SignInWithGoogle(c, s, profile, req).tables;
            |t.users| > |s.users| ==> Promotes(s, t, req, |s.users|)
  {
    SignedIn(c, s, profile, req);
    Resolved(s, profile, req);
    PromotionKeeps(c, s, req);
  }

  // ----- Google accounts -----

  /**
   * A committed sign-in opens one session, for the user the Google subject now stands for; the subject comes to stand
   * for an existing user only through an authoritative address that is the user's own.
   */
  lemma LinkingNeedsAuthority(c: Config, s: Tables, profile: Profile, req: Request)
    requires Inv(c, s) && Linked(s) && SignInWithGoogle(c, s, profile, req).Committed?
    ensures var t := SignInWithGoogle(c, s, profile, req).tables;
            var before, after := FindAccount(s.accounts, profile.subject), FindAccount(t.accounts, profile.subject);
            && after.Some? && |t.sessions| == |s.sessions| + 1 && t.sessions[|s.sessions|].user == t.accounts[after.value].user
            && (before.Some? ==> t.accounts[after.value].user == s.accounts[before.value].user)
            && (before.None? && t.accounts[after.value].user < |s.users| ==>
                  profile.emailAuthoritative && profile.emailVerified
                  && exists e :: 0 <= e < |s.emails| && s.emails[e].normalized == Normalize(profile.email)
                                 && s.emails[e].user == t.accounts[after.value].user)
  {
    SignedIn(c, s, profile, req);
    Resolved(s, profile, req);
    ResolveKeeps(c, s, profile, req);
    var r := ResolveUser(s, profile, req);
    AccountIsLinked(r.tables, r.user, profile);
  }

  lemma AccountIsLinked(s: Tables, u: nat, profile: Profile)
    requires forall a, b :: 0 <= a < b < |s.accounts| ==> s.accounts[a].subject != s.accounts[b].subject
    ensures var before, after := FindAccount(s.accounts, profile.subject), FindAccount(WithAccount(s, u, profile).accounts, profile.subject);
            after.Some? && WithAccount(s, u, profile).accounts[after.value].user
                           == if before.Some? then s.accounts[before.value].user else u
  {
    var accounts := WithAccount(s, u, profile).accounts;
    var before := FindAccount(s.accounts, profile.subject);
    var at := if before.Some? then before.value else |s.accounts|;
    assert accounts[at].subject == profile.subject;
    assert forall a :: 0 <= a < |accounts| && a != at ==> accounts[a] == s.accounts[a] && accounts[a].subject != profile.subject;
  }

  // ----- Nothing goes back -----

  ghost predicate PrincipalsGrow(before: seq<Principal>, after: seq<Principal>) {
    |before| <= |after| && forall p :: 0 <= p < |before| && before[p].kind.Registered? ==> after[p].kind.Registered?
  }

  ghost predicate UsersGrow(before: seq<User>, after: seq<User>) {
    |before| <= |after| && forall u :: 0 <= u < |before| ==>
      after[u].principal == before[u].principal && (before[u].disabled ==> after[u].disabled)
  }

  ghost predicate TokensGrow(before: seq<AnonymousSession>, after: seq<AnonymousSession>) {
    |before| <= |after| && forall i :: 0 <= i < |before| ==>
      after[i].principal == before[i].principal && after[i].tokenHash == before[i].tokenHash && (before[i].revoked ==> after[i].revoked)
  }

  ghost predicate SessionsGrow(before: seq<UserSession>, after: seq<UserSession>) {
    |before| <= |after| && forall k :: 0 <= k < |before| ==>
      after[k].user == before[k].user && after[k].refreshHash == before[k].refreshHash && (before[k].revoked ==> after[k].revoked)
  }

  ghost predicate AccountsGrow(before: seq<Account>, after: seq<Account>) {
    |before| <= |after| && forall a :: 0 <= a < |before| ==> after[a].user == before[a].user && after[a].subject == before[a].subject
  }

  /** Rows are only added; who a user is, and that something was revoked, registered or disabled, is for good. */
  ghost predicate Grows(s: Tables, t: Tables) {
    && PrincipalsGrow(s.principals, t.principals) && UsersGrow(s.users, t.users)
    && TokensGrow(s.anonymousSessions, t.anonymousSessions) && SessionsGrow(s.sessions, t.sessions)
    && AccountsGrow(s.accounts, t.accounts)
  }

  lemma PromotionGrows(s: Tables, req: Request)
    requires Linked(s)
    ensures var t := PromotedPrincipal(s, req).0;
            PrincipalsGrow(s.principals, t.principals) && TokensGrow(s.anonymousSessions, t.anonymousSessions) && SameAccounts(s, t)
  {
  }

  lemma CreateFromGoogleGrows(s: Tables, profile: Profile, req: Request)
    requires Linked(s)
    ensures Grows(s, CreateFromGoogle(s, profile, req).0)
  {
    PromotionGrows(s, req);
  }

  lemma ResolvingGrows(s: Tables, profile: Profile, req: Request)
    requires Linked(s)
    ensures ResolveUser(s, profile, req).Found? ==> Grows(s, ResolveUser(s, profile, req).tables)
  {
    Resolved(s, profile, req);
    CreateFromGoogleGrows(s, profile, req);
  }

  lemma LinkingGrows(s: Tables, user: nat, profile: Profile)
    ensures AccountsGrow(s.accounts, WithAccount(s, user, profile).accounts)
  {
  }

  lemma GoogleGrows(c: Config, s: Tables, profile: Profile, req: Request)
    requires Inv(c, s) && Linked(s) && SignInWithGoogle(c, s, profile, req).Committed?
    ensures Grows(s, SignInWithGoogle(c, s, profile, req).tables)
  {
    var t, r := SignInWithGoogle(c, s, profile, req).tables, ResolveUser(s, profile, req);
    SignedIn(c, s, profile, req);
    ResolvingGrows(s, profile, req);
    LinkingGrows(r.tables, r.user, profile);
    GrowsOn(s, r.tables, t);
  }

  lemma SignupGrows(c: Config, s: Tables, normalized: string, displayName: string, passwordHash: string, req: Request)
    requires Linked(s)
    ensures Grows(s, Settle(s, Signup(c, s, normalized, displayName, passwordHash, req)))
  {
    PromotionGrows(s, req);
  }

  lemma CreationGrows(c: Config, s: Tables, req: Request)
    ensures Grows(s, Settle(s, CreateAnonymous(c, s, req)))
  {
  }

  lemma SessionStepGrows(c: Config, s: Tables, e: Event)
    requires Linked(s) && (e.LoggingIn? || e.LoggingOut? || e.Refreshing? || e.Disabling?)
    ensures Grows(s, Next(c, s, e))
  {
  }

  lemma StepGrows(c: Config, s: Tables, e: Event)
    requires Inv(c, s) && Linked(s)
    ensures Grows(s, Next(c, s, e))
  {
    match e {
      case CreatingAnonymous(req) => CreationGrows(c, s, req);
      case SigningUp(normalized, displayName, passwordHash, req) => SignupGrows(c, s, normalized, displayName, passwordHash, req);
      case SigningInWithGoogle(profile, req) =>
        if SignInWithGoogle(c, s, profile, req).Committed? { GoogleGrows(c, s, profile, req); }
      case _ => SessionStepGrows(c, s, e);
    }
  }

  lemma GrowsOn(s: Tables, t: Tables, u: Tables)
    requires Grows(s, t) && Grows(t, u)
    ensures Grows(s, u)
  {
  }

  lemma {:induction false} ChainGrows(states: seq<Tables>, j: nat, k: nat)
    requires j <= k < |states| && forall i :: j <= i < k ==> Grows(states[i], states[i + 1])
    ensures Grows(states[j], states[k])
  {
    if j < k {
      ChainGrows(states, j, k - 1);
      GrowsOn(states[j], states[k - 1], states[k - 1 + 1]);
    }
  }

  lemma HistoryStepGrows(c: Config, states: seq<Tables>, events: seq<Event>, k: nat)
    requires IsHistory(c, states, events) && k < |events|
    ensures Grows(states[k], states[k + 1])
  {
    HistoryKeepsInv(c, states, events, k);
    StepGrows(c, states[k], events[k]);
  }

  /** Whoever a user is, it stays; what is revoked, disabled or registered stays so, over every stretch of a history. */
  lemma HistoryGrows(c: Config, states: seq<Tables>, events: seq<Event>, j: nat, k: nat)
    requires IsHistory(c, states, events) && j <= k <= |events|
    ensures Grows(states[j], states[k])
  {
    forall i | j <= i < k ensures Grows(states[i], states[i + 1]) {
      HistoryStepGrows(c, states, events, i);
    }
    ChainGrows(states, j, k);
  }

  /** Once a token's session is revoked, that token never finds an anonymous session again. */
  lemma SpentTokensStaySpent(c: Config, states: seq<Tables>, events: seq<Event>, j: nat, k: nat, i: nat, now: int)
    requires IsHistory(c, states, events) && j <= k <= |events|
    requires i < |states[j].anonymousSessions| && states[j].anonymousSessions[i].revoked
    ensures FindAnonymous(states[k].anonymousSessions, states[j].anonymousSessions[i].tokenHash, now).None?
  {
    HistoryGrows(c, states, events, j, k);
    HistoryKeepsInv(c, states, events, k);
    assert states[k].anonymousSessions[i].revoked;
  }

  lemma GoogleKeepsOut(c: Config, s: Tables, profile: Profile, req: Request, u: nat)
    requires Inv(c, s) && Linked(s) && u < |s.users| && s.users[u].disabled && SignInWithGoogle(c, s, profile, req).Committed?
    ensures var t := SignInWithGoogle(c, s, profile, req).tables;
            |t.sessions| == |s.sessions| + 1 && t.sessions[|s.sessions|].user != u
  {
    SignedIn(c, s, profile, req);
    Resolved(s, profile, req);
  }

  lemma SignupKeepsOut(c: Config, s: Tables, normalized: string, displayName: string, passwordHash: string, req: Request, u: nat)
    requires Linked(s) && u < |s.users| && Signup(c, s, normalized, displayName, passwordHash, req).Committed?
    ensures var t := Signup(c, s, normalized, displayName, passwordHash, req).tables;
            |t.sessions| == |s.sessions| + 1 && t.sessions[|s.sessions|].user != u
  {
    PromotionGrows(s, req);
  }

  /** A disabled user gets no session and no refresh from any operation. */
  lemma DisabledUsersStayOut(c: Config, s: Tables, e: Event, u: nat)
    requires Inv(c, s) && Linked(s) && u < |s.users| && s.users[u].disabled
    ensures var t := Next(c, s, e);
            |s.sessions| <= |t.sessions| && forall k :: |s.sessions| <= k < |t.sessions| ==> t.sessions[k].user != u
    ensures e.Refreshing? ==> Refresh(s, e.req).1 != Some(u)
  {
    match e {
      case SigningInWithGoogle(profile, req) =>
        if SignInWithGoogle(c, s, profile, req).Committed? { GoogleKeepsOut(c, s, profile, req, u); }
      case SigningUp(normalized, displayName, passwordHash, req) =>
        if Signup(c, s, normalized, displayName, passwordHash, req).Committed? {
          SignupKeepsOut(c, s, normalized, displayName, passwordHash, req, u);
        }
      case _ =>
    }
  }

  // ----- Sessions -----

  /** A refresh answers exactly the enabled user whose live, unexpired session the token opens. */
  lemma RefreshAnswersItsUser(c: Config, s: Tables, req: Request, u: nat)
    requires Inv(c, s) && Linked(s)
    ensures Refresh(s, req).1 == Some(u) <==>
              req.refreshHash.Some? && u < |s.users| && !s.users[u].disabled
              && exists k :: 0 <= k < |s.sessions| && s.sessions[k].user == u && LiveSession(s.sessions[k], req.refreshHash.value, Some(req.now))
  {
    if req.refreshHash.Some? {
      var found := FindSession(s.sessions, req.refreshHash.value, Some(req.now));
      if k :| 0 <= k < |s.sessions| && LiveSession(s.sessions[k], req.refreshHash.value, Some(req.now)) {
        assert found == Some(k);
      }
    }
  }

  /** A login succeeds exactly for an enabled user with this e-mail, a password and the right one, and opens that user's session. */
  lemma LoginOpensItsUser(c: Config, s: Tables, normalized: string, valid: bool, req: Request)
    requires Inv(c, s) && Linked(s) && !RefreshHashTaken(s, req.newHash)
    ensures var o := Login(c, s, normalized, valid, req);
            && (o.Committed? <==> valid && exists e :: 0 <= e < |s.emails| && s.emails[e].normalized == normalized
                                                       && s.emails[e].user in s.credentials && !s.users[s.emails[e].user].disabled)
            && (o.Committed? ==> exists e :: 0 <= e < |s.emails| && s.emails[e].normalized == normalized
                                             && o.tables == s.(sessions := s.sessions + [UserSession(s.emails[e].user, req.newHash, false, req.now + c.refreshTtl)]))
  {
    var found := FindEmail(s.emails, normalized);
    if e :| 0 <= e < |s.emails| && s.emails[e].normalized == normalized {
      assert found == Some(e);
    }
  }

  /** After a logout its token refreshes nothing, ever. */
  lemma LoggedOutTokensStayOut(c: Config, states: seq<Tables>, events: seq<Event>, j: nat, k: nat, out: Request, req: Request)
    requires IsHistory(c, states, events) && j < k <= |events| && events[j] == LoggingOut(out)
    requires out.refreshHash.Some? && req.refreshHash == out.refreshHash
    requires exists i :: 0 <= i < |states[j].sessions| && states[j].sessions[i].refreshHash == out.refreshHash.value
    ensures Linked(states[k]) && Refresh(states[k], req).1 == None
  {
    HistoryKeepsInv(c, states, events, j);
    HistoryKeepsInv(c, states, events, k);
    HistoryGrows(c, states, events, j + 1, k);
    var hash := out.refreshHash.value;
    var i :| 0 <= i < |states[j].sessions| && states[j].sessions[i].refreshHash == hash;
    LogoutRevokes(c, states[j], out, i);
    assert states[j + 1] == Logout(states[j], out);
    RevokedNeverRefreshes(c, states[k], req, i);
  }

  lemma LogoutRevokes(c: Config, s: Tables, out: Request, i: nat)
    requires Inv(c, s) && out.refreshHash.Some? && i < |s.sessions| && s.sessions[i].refreshHash == out.refreshHash.value
    ensures i < |Logout(s, out).sessions| && Logout(s, out).sessions[i] == s.sessions[i].(revoked := true)
  {
    if !s.sessions[i].revoked {
      assert LiveSession(s.sessions[i], out.refreshHash.value, None);
    }
  }

  lemma RevokedNeverRefreshes(c: Config, s: Tables, req: Request, i: nat)
    requires Inv(c, s) && Linked(s) && req.refreshHash.Some?
    requires i < |s.sessions| && s.sessions[i].refreshHash == req.refreshHash.value && s.sessions[i].revoked
    ensures Refresh(s, req).1 == None
  {
    var found := FindSession(s.sessions, req.refreshHash.value, Some(req.now));
    assert found.None? || found == Some(i);
  }
}
