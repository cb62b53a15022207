/** The services as code: a transaction edits its own copy of the tables and the commit swaps it in. */
module IdentityService {
  import opened Options
  import opened Identity
  import opened IdentityEffects

  /** How a transaction that answered so and left these tables ended. */
  function Ended(error: Option<Error>, tables: Tables): Outcome {
    match error
    case Some(e) => RolledBack(e)
    case None => Committed(tables)
  }

  class AuthService {
    const config: Config
    var db: Tables

    constructor (config: Config)
      ensures this.config == config && db == EMPTY
    {
      this.config := config;
      db := EMPTY;
    }

    /** A failed transaction leaves the tables as they were. */
    method Commit(work: Outcome) returns (error: Option<Error>)
      modifies this`db
      ensures db == Settle(old(db), work)
      ensures error == (if work.RolledBack? then Some(work.error) else None)
    {
      match work {
        case Committed(tables) =>
          db := tables;
          return None;
        case RolledBack(e) =>
          return Some(e);
      }
    }

    /** The quota row is bumped first; throwing undoes that too. */
    method CreateAnonymousPrincipal(req: Request) returns (error: Option<Error>)
      modifies this`db
      ensures db == Settle(old(db), CreateAnonymous(config, old(db), req))
      ensures Ended(error, db) == CreateAnonymous(config, old(db), req) && CreationSettles(config, old(db), Ended(error, db), req)
    {
      CreationExactly(config, db, req);
      var work := db;
      var key := Origin(req.ipHash, req.day);
      work := work.(quotas := work.quotas[key := QuotaAt(work, key) + 1]);
      if work.quotas[key] > config.creationLimit {
        return Some(TooManyToday);
      }
      var expiresAt := req.now + config.anonymousTtl;
      var principal := |work.principals|;
      work := work.(principals := work.principals + [Principal(Anonymous, Some(expiresAt), Some(key))]);
      if AnonymousHashTaken(work, req.newHash) {
        return Some(DuplicateKey);
      }
      work := work.(anonymousSessions := work.anonymousSessions + [AnonymousSession(principal, req.newHash, false, expiresAt)]);
      db := work;
      return None;
    }

    /** Promote the request's anonymous principal or make a new one, in the given copy. */
    method TakePrincipal(tables: Tables, req: Request) returns (work: Tables, principal: nat)
      requires Linked(tables)
      ensures (work, principal) == PromotedPrincipal(tables, req)
    {
      work := tables;
      var found := None;
      if req.anonymousHash.Some? {
        found := FindAnonymous(work.anonymousSessions, req.anonymousHash.value, req.now);
      }
      if found.Some? {
        var i := found.value;
        principal := work.anonymousSessions[i].principal;
        work := work.(principals := work.principals[principal := work.principals[principal].(kind := Registered, expiresAt := None)]);
        work := work.(anonymousSessions := work.anonymousSessions[i := work.anonymousSessions[i].(revoked := true)]);
      } else {
        principal := |work.principals|;
        work := work.(principals := work.principals + [Principal(Registered, None, None)]);
      }
    }

    /** The address is stored normalized, the name without the blanks around it. */
    method SignUp(email: string, displayName: string, passwordHash: string, req: Request) returns (error: Option<Error>)
      requires Linked(db)
      modifies this`db
      ensures db == Settle(old(db), Signup(config, old(db), Normalize(email), Trim(displayName), passwordHash, req))
      ensures Ended(error, db) == Signup(config, old(db), Normalize(email), Trim(displayName), passwordHash, req)
      ensures SignUpSettles(config, old(db), Ended(error, db), Signing(Normalize(email), Trim(displayName), passwordHash, req))
    {
      var normalized, name := Normalize(email), Trim(displayName);
      SignupExactly(config, db, Signing(normalized, name, passwordHash, req));
      var existing := FindEmail(db.emails, normalized);
      if existing.Some? {
        return Some(EmailRegistered);
      }
      var work, principal := TakePrincipal(db, req);
      var user := |work.users|;
      work := work.(users := work.users + [User(principal, name, None, false)]);
      work := WithEmail(work, user, normalized, false);
      work := work.(credentials := work.credentials[user := passwordHash]);
      error := Commit(WithSession(config, work, user, req));
    }

    /** The subject's user, else an authoritative address's, else a new one in a copy of the tables. */
    method Resolve(profile: Profile, req: Request) returns (r: Resolution)
      requires Linked(db)
      ensures r == ResolveUser(db, profile, req)
    {
      var account := FindAccount(db.accounts, profile.subject);
      if account.Some? {
        return Found(db, db.accounts[account.value].user);
      }
      var existing := None;
      if profile.email != "" {
        existing := FindEmail(db.emails, Normalize(profile.email));
      }
      if existing.Some? {
        if !profile.emailAuthoritative {
          return Refused(EmailNotAuthoritative);
        }
        return Found(db, db.emails[existing.value].user);
      }
      var work, user := CreateUserFromGoogle(profile, req);
      return Found(work, user);
    }

    method GoogleSignIn(profile: Profile, req: Request) returns (error: Option<Error>)
      requires Linked(db)
      modifies this`db
      ensures db == Settle(old(db), SignInWithGoogle(config, old(db), profile, req))
      ensures Ended(error, db) == SignInWithGoogle(config, old(db), profile, req)
      ensures GoogleSettles(config, old(db), Ended(error, db), profile, req)
    {
      GoogleExactly(config, db, profile, req);
      if profile.email != "" && !profile.emailVerified {
        return Some(EmailNotVerified);
      }
      var resolution := Resolve(profile, req);
      if resolution.Refused? {
        return Some(resolution.error);
      }
      error := OpenSession(WithName(WithAccount(resolution.tables, resolution.user, profile), resolution.user, profile.name),
                           resolution.user, req);
    }

    /** Register the user's principal and commit with a new session, unless the user is disabled. */
    method OpenSession(work: Tables, user: nat, req: Request) returns (error: Option<Error>)
      requires user < |work.users| && work.users[user].principal < |work.principals|
      modifies this`db
      ensures var o := if work.users[user].disabled then RolledBack(Disabled)
                       else WithSession(config, WithRegistered(work, work.users[user].principal), user, req);
        db == Settle(old(db), o) && error == if o.RolledBack? then Some(o.error) else None
    {
      if work.users[user].disabled {
        return Some(Disabled);
      }
      error := Commit(WithSession(config, WithRegistered(work, work.users[user].principal), user, req));
    }

    method CreateUserFromGoogle(profile: Profile, req: Request) returns (work: Tables, user: nat)
      requires Linked(db)
      ensures (work, user) == CreateFromGoogle(db, profile, req)
    {
      var principal;
      work, principal := TakePrincipal(db, req);
      user := |work.users|;
      work := work.(users := work.users + [User(principal, profile.name, None, false)]);
      if profile.email != "" {
        work := WithEmail(work, user, Normalize(profile.email), profile.emailAuthoritative);
      }
    }

    method LogIn(address: string, valid: bool, req: Request) returns (error: Option<Error>)
      requires Linked(db)
      modifies this`db
      ensures db == Settle(old(db), Login(config, old(db), Normalize(address), valid, req))
      ensures Ended(error, db) == Login(config, old(db), Normalize(address), valid, req)
      ensures LogInSettles(config, old(db), Ended(error, db), Normalize(address), valid, req)
    {
      var normalized := Normalize(address);
      LoginExactly(config, db, normalized, valid, req);
      var email := FindEmail(db.emails, normalized);
      if email.None? {
        return Some(InvalidLogin);
      }
      var user := db.emails[email.value].user;
      if user !in db.credentials || db.users[user].disabled || !valid {
        return Some(InvalidLogin);
      }
      error := Commit(WithSession(config, db, user, req));
    }

    method LogOut(req: Request)
      modifies this`db
      ensures db == Logout(old(db), req) && LogOutSettles(old(db), db, req)
    {
      LogoutExactly(db, req);
      if req.refreshHash.Some? {
        var session := FindSession(db.sessions, req.refreshHash.value, None);
        if session.Some? {
          db := Revoke(db, session.value);
        }
      }
    }

    method RefreshUserSession(req: Request) returns (user: Option<nat>)
      requires Linked(db)
      modifies this`db
      ensures (db, user) == Refresh(old(db), req) && RefreshSettles(old(db), db, user, req)
    {
      RefreshExactly(db, req);
      if req.refreshHash.None? {
        return None;
      }
      var session := FindSession(db.sessions, req.refreshHash.value, Some(req.now));
      if session.None? {
        return None;
      }
      user := Some(db.sessions[session.value].user);
      if db.users[user.value].disabled {
        db := Revoke(db, session.value);
        return None;
      }
    }
  }
}
