/** Two-factor authentication and sessions: enabling and disabling, backup codes that are consumed by use, refresh
    tokens and their revocation. Every handler is one atomic step on the stored rows. */
module TwoFactor {
  import opened Common

  type Id = nat
  type Hash = string

  /** A generated TOTP secret. It is not empty, so a stored secret is never mistaken for an absent one. */
  type Secret = s: string | s != "" witness "S"

  const BACKUP_CODES: nat := 8

  /** The hashes of the backup codes that one setup issues. */
  type Issue = h: seq<Hash> | |h| == BACKUP_CODES witness ["", "", "", "", "", "", "", ""]

  /** bcrypt.compare(text, hash), and authenticator.verify at an instant. */
  datatype Crypto = Crypto(matches: (string, Hash) -> bool, totp: (Secret, string, int) -> bool)

  /** What saving an entity does with a property that was set to undefined: leave the column, or write NULL. */
  datatype Persistence = SkipsUndefined | ClearsUndefined

  function Cleared<T>(p: Persistence, column: Option<T>): Option<T> {
    if p.SkipsUndefined? then column else None
  }

  datatype User = User(
    enabled: bool, password: Hash, usesTotp: bool, totpSecret: Option<Secret>, pendingTotpSecret: Option<Secret>,
    backupCodes: Option<seq<Hash>>)

  datatype Refusal =
    | NotFound
    | InvalidCredentials
    | InvalidToken
    | UserDisabled
    | AlreadyEnabled
    | NotInitiated
    | NotEnabled
    | NotConfigured
    | InvalidCode

  function Find<T(!new)>(s: seq<T>, p: T -> bool): (r: Option<nat>)
    ensures r.None? ==> forall j :: 0 <= j < |s| ==> !p(s[j])
    ensures r.Some? ==> r.value < |s| && p(s[r.value]) && forall j :: 0 <= j < r.value ==> !p(s[j])
  {
    if s == [] then None
    else if p(s[0]) then Some(0)
    else
      match Find(s[1..], p)
      case None => None
      case Some(i) =>
        assert forall j :: 0 < j < |s| ==> s[j] == s[1..][j - 1];
        Some(i + 1)
  }

  function Splice<T>(s: seq<T>, i: nat): seq<T>
    requires i < |s|
  {
    s[..i] + s[i + 1..]
  }

  // ------------------------------------------------------------------------------------------------
  // What the handlers do to the row of one user.

  /** SetEnabled stands for the administration, which enables and disables users. */
  datatype Request =
    | Setup(secret: Secret)
    | VerifySetup(code: string, now: int, hashes: Issue)
    | Disable(code: string, now: int)
    | SecondFactor(code: string, now: int)
    | SetEnabled(enabled: bool)

  function Codes(user: User): seq<Hash> {
    if user.backupCodes.Some? then user.backupCodes.value else []
  }

  function BackupCodeAt(c: Crypto, user: User, code: string): Option<nat> {
    Find(Codes(user), h => c.matches(code, h))
  }

  function Step(p: Persistence, c: Crypto, user: User, r: Request): Result<User, Refusal> {
    match r
    case Setup(secret) =>
      if user.usesTotp then Err(AlreadyEnabled) else Ok(user.(pendingTotpSecret := Some(secret)))
    case VerifySetup(code, now, hashes) =>
      if user.pendingTotpSecret.None? then Err(NotInitiated)
      else if !c.totp(user.pendingTotpSecret.value, code, now) then Err(InvalidCode)
      else
        Ok(user.(totpSecret := user.pendingTotpSecret, pendingTotpSecret := Cleared(p, user.pendingTotpSecret),
                 usesTotp := true, backupCodes := Some(hashes)))
    case Disable(code, now) =>
      if !user.usesTotp || user.totpSecret.None? then Err(NotEnabled)
      else if !c.totp(user.totpSecret.value, code, now) then Err(InvalidCode)
      else
        Ok(user.(totpSecret := Cleared(p, user.totpSecret), usesTotp := false,
                 backupCodes := Cleared(p, user.backupCodes)))
    case SecondFactor(code, now) =>
      if !user.enabled then Err(UserDisabled)
      else if user.totpSecret.None? then Err(NotConfigured)
      else if c.totp(user.totpSecret.value, code, now) then Ok(user)
      else
        (match BackupCodeAt(c, user, code)
         case None => Err(InvalidCode)
         case Some(i) => Ok(user.(backupCodes := Some(Splice(Codes(user), i)))))
    case SetEnabled(enabled) => Ok(user.(enabled := enabled))
  }

  function After(p: Persistence, c: Crypto, user: User, r: Request): User {
    var result := Step(p, c, user, r);
    if result.Ok? then result.value else user
  }

  // ------------------------------------------------------------------------------------------------
  // Tables and service.

  datatype Session = Session(id: Id, user: Id, refreshToken: string, revoked: bool)

  datatype Db = Db(users: map<Id, User>, sessions: seq<Session>)

  /** The ids and refresh tokens of new sessions are generated; an event carries the ones it would use. */
  datatype Event =
    | Account(user: Id, request: Request)
    | Login(user: Id, password: string, id: Id, token: string)
    | LoginSecond(user: Id, code: string, now: int, id: Id, token: string)
    | Refresh(token: string)
    | Logout(id: Id)
    | Revoke(user: Id, id: Id)

  function ActiveSession(db: Db, token: string): Option<nat> {
    Find(db.sessions, (x: Session) => x.refreshToken == token && !x.revoked)
  }

  function OwnedSession(db: Db, user: Id, id: Id): Option<nat> {
    Find(db.sessions, (x: Session) => x.id == id && x.user == user)
  }

  function SessionById(db: Db, id: Id): Option<nat> {
    Find(db.sessions, (x: Session) => x.id == id)
  }

  function MarkRevoked(db: Db, at: Option<nat>): Db
    requires at.Some? ==> at.value < |db.sessions|
  {
    if at.None? then db
    else db.(sessions := db.sessions[at.value := db.sessions[at.value].(revoked := true)])
  }

  function Open(db: Db, user: Id, id: Id, token: string): Db {
    db.(sessions := db.sessions + [Session(id, user, token, false)])
  }

  predicate MayRefresh(db: Db, token: string) {
    var at := ActiveSession(db, token);
    at.Some? && db.sessions[at.value].user in db.users && db.users[db.sessions[at.value].user].enabled
  }

  predicate PasswordAccepted(c: Crypto, db: Db, user: Id, password: string) {
    user in db.users && db.users[user].enabled && c.matches(password, db.users[user].password)
  }

  function Apply(p: Persistence, c: Crypto, db: Db, e: Event): Db {
    match e
    case Account(user, request) =>
      if user in db.users then db.(users := db.users[user := After(p, c, db.users[user], request)]) else db
    case Login(user, password, id, token) =>
      if PasswordAccepted(c, db, user, password) && !db.users[user].usesTotp then Open(db, user, id, token) else db
    case LoginSecond(user, code, now, id, token) =>
      if user !in db.users then db
      else
        var result := Step(p, c, db.users[user], SecondFactor(code, now));
        if result.Err? then db else Open(db.(users := db.users[user := result.value]), user, id, token)
    case Refresh(token) => db
    case Logout(id) => MarkRevoked(db, SessionById(db, id))
    case Revoke(user, id) => MarkRevoked(db, OwnedSession(db, user, id))
  }

  function Run(p: Persistence, c: Crypto, db: Db, events: seq<Event>): Db
    decreases |events|
  {
    if events == [] then db else Run(p, c, Apply(p, c, db, events[0]), events[1..])
  }

  class AuthService {
    const persistence: Persistence
    const crypto: Crypto
    var users: map<Id, User>
    var sessions: seq<Session>

    ghost function AsDb(): Db
      reads this
    {
      Db(users, sessions)
    }

    constructor (persistence: Persistence, crypto: Crypto, users: map<Id, User>, sessions: seq<Session>)
      ensures AsDb() == Db(users, sessions) && this.persistence == persistence && this.crypto == crypto
    {
      this.persistence, this.crypto, this.users, this.sessions := persistence, crypto, users, sessions;
    }

    /** A user with two-factor authentication gets no session here, only leave to take the second step. */
    method Login(user: Id, password: string, id: Id, token: string) returns (r: Result<bool, Refusal>)
      modifies this
      ensures AsDb() == Apply(persistence, crypto, old(AsDb()), Event.Login(user, password, id, token))
      ensures r.Ok? <==>
        user in old(users) && old(users)[user].enabled && crypto.matches(password, old(users)[user].password)
      ensures r.Ok? ==> r.value == old(users)[user].usesTotp
      ensures r.Err? ==> r.error == InvalidCredentials
      ensures users == old(users)
      ensures sessions == if r == Ok(false) then old(sessions) + [Session(id, user, token, false)] else old(sessions)
    {
      if user !in users || !users[user].enabled {
        return Err(InvalidCredentials);
      }
      if !crypto.matches(password, users[user].password) {
        return Err(InvalidCredentials);
      }
      if users[user].usesTotp {
        return Ok(true);
      }
      sessions := sessions + [Session(id, user, token, false)];
      return Ok(false);
    }

    method RefreshToken(token: string) returns (r: Result<Id, Refusal>)
      ensures r.Ok? <==> MayRefresh(AsDb(), token)
      ensures r.Ok? ==> r.value in users && users[r.value].enabled
      ensures r.Ok? ==> exists x :: x in sessions && x == Session(x.id, r.value, token, false)
      ensures r == Err(InvalidToken) <==> forall x :: x in sessions && x.refreshToken == token ==> x.revoked
      ensures r.Err? && r.error != InvalidToken ==> r.error == UserDisabled
      ensures r == Err(UserDisabled) ==>
        exists x :: x in sessions && x.refreshToken == token && !x.revoked
                    && (x.user in users ==> !users[x.user].enabled)
    {
      var at := Find(sessions, (x: Session) => x.refreshToken == token && !x.revoked);
      if at.None? {
        return Err(InvalidToken);
      }
      var session := sessions[at.value];
      if session.user !in users || !users[session.user].enabled {
        return Err(UserDisabled);
      }
      return Ok(session.user);
    }

    method Logout(id: Id) returns (r: Result<(), Refusal>)
      modifies this
      ensures AsDb() == Apply(persistence, crypto, old(AsDb()), Event.Logout(id))
      ensures r.Ok? <==> exists x :: x in old(sessions) && x.id == id
      ensures r.Err? ==> r.error == NotFound && sessions == old(sessions)
      ensures users == old(users)
      ensures r.Ok? ==> exists i ::
        && 0 <= i < |old(sessions)| && old(sessions)[i].id == id
        && (forall j :: 0 <= j < i ==> old(sessions)[j].id != id)
        && sessions == old(sessions)[i := old(sessions)[i].(revoked := true)]
    {
      var at := Find(sessions, (x: Session) => x.id == id);
      if at.None? {
        return Err(NotFound);
      }
      sessions := sessions[at.value := sessions[at.value].(revoked := true)];
      return Ok(());
    }

    method RevokeSession(user: Id, id: Id) returns (r: Result<(), Refusal>)
      modifies this
      ensures AsDb() == Apply(persistence, crypto, old(AsDb()), Revoke(user, id))
      ensures r.Ok? <==> exists x :: x in old(sessions) && x.id == id && x.user == user
      ensures r.Err? ==> r.error == NotFound && sessions == old(sessions)
      ensures users == old(users)
      ensures r.Ok? ==> exists i ::
        && 0 <= i < |old(sessions)| && old(sessions)[i].id == id && old(sessions)[i].user == user
        && (forall j :: 0 <= j < i ==> old(sessions)[j].id != id || old(sessions)[j].user != user)
        && sessions == old(sessions)[i := old(sessions)[i].(revoked := true)]
    {
      var at := Find(sessions, (x: Session) => x.id == id && x.user == user);
      if at.None? {
        return Err(NotFound);
      }
      sessions := sessions[at.value := sessions[at.value].(revoked := true)];
      return Ok(());
    }

    method SetupTwoFactor(user: Id, secret: Secret) returns (r: Result<(), Refusal>)
      modifies this
      ensures AsDb() == Apply(persistence, crypto, old(AsDb()), Account(user, Setup(secret)))
      ensures r == if user !in old(users) then Err(NotFound)
                   else if old(users)[user].usesTotp then Err(AlreadyEnabled)
                   else Ok(())
      ensures sessions == old(sessions)
      ensures users == if r.Ok? then old(users)[user := old(users)[user].(pendingTotpSecret := Some(secret))]
                       else old(users)
    {
      if user !in users {
        return Err(NotFound);
      }
      if users[user].usesTotp {
        return Err(AlreadyEnabled);
      }
      users := users[user := users[user].(pendingTotpSecret := Some(secret))];
      return Ok(());
    }

    method VerifyTwoFactorSetup(user: Id, code: string, now: int, hashes: Issue) returns (r: Result<(), Refusal>)
      modifies this
      ensures AsDb() == Apply(persistence, crypto, old(AsDb()), Account(user, VerifySetup(code, now, hashes)))
      ensures r == if user !in old(users) then Err(NotFound)
                   else if old(users)[user].pendingTotpSecret.None? then Err(NotInitiated)
                   else if !crypto.totp(old(users)[user].pendingTotpSecret.value, code, now) then Err(InvalidCode)
                   else Ok(())
      ensures sessions == old(sessions)
      ensures r.Err? ==> users == old(users)
      ensures r.Ok? ==>
        var row := old(users)[user];
        var pending := if persistence.ClearsUndefined? then None else row.pendingTotpSecret;
        users == old(users)[user :=
          row.(totpSecret := row.pendingTotpSecret, pendingTotpSecret := pending, usesTotp := true,
               backupCodes := Some(hashes))]
    {
      if user !in users {
        return Err(NotFound);
      }
      var row := users[user];
      if row.pendingTotpSecret.None? {
        return Err(NotInitiated);
      }
      if !crypto.totp(row.pendingTotpSecret.value, code, now) {
        return Err(InvalidCode);
      }
      var saved := row.(totpSecret := row.pendingTotpSecret, usesTotp := true, backupCodes := Some(hashes));
      if persistence.ClearsUndefined? {
        saved := saved.(pendingTotpSecret := None);
      }
      users := users[user := saved];
      return Ok(());
    }

    method DisableTwoFactor(user: Id, code: string, now: int) returns (r: Result<(), Refusal>)
      modifies this
      ensures AsDb() == Apply(persistence, crypto, old(AsDb()), Account(user, Disable(code, now)))
      ensures r == if user !in old(users) then Err(NotFound)
                   else if !old(users)[user].usesTotp || old(users)[user].totpSecret.None? then Err(NotEnabled)
                   else if !crypto.totp(old(users)[user].totpSecret.value, code, now) then Err(InvalidCode)
                   else Ok(())
      ensures sessions == old(sessions)
      ensures r.Err? ==> users == old(users)
      ensures r.Ok? ==>
        var switchedOff := old(users)[user].(usesTotp := false);
        users == old(users)[user :=
          if persistence.ClearsUndefined? then switchedOff.(totpSecret := None, backupCodes := None) else switchedOff]
    {
      if user !in users {
        return Err(NotFound);
      }
      var row := users[user];
      if !row.usesTotp || row.totpSecret.None? {
        return Err(NotEnabled);
      }
      if !crypto.totp(row.totpSecret.value, code, now) {
        return Err(InvalidCode);
      }
      var saved := row.(usesTotp := false);
      if persistence.ClearsUndefined? {
        saved := saved.(totpSecret := None, backupCodes := None);
      }
      users := users[user := saved];
      return Ok(());
    }

    /** The search among the backup codes; a match is spliced out. */
    method TakeBackupCode(codes: seq<Hash>, code: string) returns (matched: bool, rest: seq<Hash>)
      ensures matched <==> exists h :: h in codes && crypto.matches(code, h)
      ensures !matched ==> rest == codes
      ensures matched ==> exists i ::
        && 0 <= i < |codes| && crypto.matches(code, codes[i])
        && (forall j :: 0 <= j < i ==> !crypto.matches(code, codes[j]))
        && rest == codes[..i] + codes[i + 1..]
      ensures var at := Find(codes, h => crypto.matches(code, h));
        matched == at.Some? && (at.Some? ==> rest == Splice(codes, at.value))
    {
      matched, rest := false, codes;
      var i := 0;
      while i < |codes|
        invariant 0 <= i <= |codes|
        invariant forall j :: 0 <= j < i ==> !crypto.matches(code, codes[j])
      {
        if crypto.matches(code, codes[i]) {
          return true, Splice(codes, i);
        }
        i := i + 1;
      }
    }

    method VerifyTwoFactorLogin(user: Id, code: string, now: int, id: Id, token: string)
      returns (r: Result<(), Refusal>)
      modifies this
      ensures AsDb() == Apply(persistence, crypto, old(AsDb()), LoginSecond(user, code, now, id, token))
      ensures r == Err(UserDisabled) <==> user !in old(users) || !old(users)[user].enabled
      ensures r == Err(NotConfigured) <==>
        user in old(users) && old(users)[user].enabled && old(users)[user].totpSecret.None?
      ensures r.Ok? <==>
        && user in old(users) && old(users)[user].enabled && old(users)[user].totpSecret.Some?
        && var row := old(users)[user];
           || crypto.totp(row.totpSecret.value, code, now)
           || (row.backupCodes.Some? && exists h :: h in row.backupCodes.value && crypto.matches(code, h))
      ensures r.Err? ==> r.error in {UserDisabled, NotConfigured, InvalidCode}
      ensures r.Err? ==> users == old(users) && sessions == old(sessions)
      ensures r.Ok? ==> sessions == old(sessions) + [Session(id, user, token, false)]
      ensures r.Ok? && crypto.totp(old(users)[user].totpSecret.value, code, now) ==> users == old(users)
      ensures r.Ok? && !crypto.totp(old(users)[user].totpSecret.value, code, now) ==>
        var row := old(users)[user];
        && row.backupCodes.Some?
        && var codes := row.backupCodes.value;
           exists i ::
             && 0 <= i < |codes| && crypto.matches(code, codes[i])
             && (forall j :: 0 <= j < i ==> !crypto.matches(code, codes[j]))
             && users == old(users)[user := row.(backupCodes := Some(codes[..i] + codes[i + 1..]))]
    {
      if user !in users || !users[user].enabled {
        return Err(UserDisabled);
      }
      var row := users[user];
      if row.totpSecret.None? {
        return Err(NotConfigured);
      }
      if !crypto.totp(row.totpSecret.value, code, now) {
        var matched, rest := TakeBackupCode(Codes(row), code);
        if !matched {
          return Err(InvalidCode);
        }
        users := users[user := row.(backupCodes := Some(rest))];
      } else {
        assert users[user := row] == users;
      }
      sessions := sessions + [Session(id, user, token, false)];
      return Ok(());
    }
  }

  // ------------------------------------------------------------------------------------------------
  // The row of a user depends on the requests of that user alone.

  function RequestsIn(e: Event, user: Id): seq<Request> {
    match e
    case Account(u, request) => if u == user then [request] else []
    case LoginSecond(u, code, now, _, _) => if u == user then [SecondFactor(code, now)] else []
    case _ => []
  }

  function RequestsOf(events: seq<Event>, user: Id): seq<Request>
    decreases |events|
  {
    if events == [] then [] else RequestsIn(events[0], user) + RequestsOf(events[1..], user)
  }

  function RunAccount(p: Persistence, c: Crypto, user: User, requests: seq<Request>): User
    decreases |requests|
  {
    if requests == [] then user else RunAccount(p, c, After(p, c, user, requests[0]), requests[1..])
  }

  lemma EventIsItsRequests(p: Persistence, c: Crypto, db: Db, e: Event, user: Id)
    requires user in db.users
    ensures var db' := Apply(p, c, db, e);
      && user in db'.users
      && (RequestsIn(e, user) == [] ==> db'.users[user] == db.users[user])
      && (RequestsIn(e, user) != [] ==> db'.users[user] == After(p, c, db.users[user], RequestsIn(e, user)[0]))
  {
  }

  lemma RunsFirst(p: Persistence, c: Crypto, user: User, first: seq<Request>, rest: seq<Request>)
    requires |first| <= 1
    ensures RunAccount(p, c, user, first + rest) ==
      RunAccount(p, c, if first == [] then user else After(p, c, user, first[0]), rest)
  {
    if first == [] {
      assert first + rest == rest;
    } else {
      assert (first + rest)[1..] == rest;
    }
  }

  /** MAIN RESULT. In every run over all users and sessions, the row of a user is what the requests of that user
      alone make of it. */
  lemma {:induction false} AccountsAreIndependent(p: Persistence, c: Crypto, db: Db, events: seq<Event>, user: Id)
    requires user in db.users
    ensures var db' := Run(p, c, db, events);
      user in db'.users && db'.users[user] == RunAccount(p, c, db.users[user], RequestsOf(events, user))
    decreases |events|
  {
    if events != [] {
      EventIsItsRequests(p, c, db, events[0], user);
      RunsFirst(p, c, db.users[user], RequestsIn(events[0], user), RequestsOf(events[1..], user));
      AccountsAreIndependent(p, c, Apply(p, c, db, events[0]), events[1..], user);
    }
  }

  // ------------------------------------------------------------------------------------------------
  // The history of one account since its last successful setup.

  datatype Use = Use(code: string, hash: Hash)

  /** The hashes last issued, the backup logins since, and whether two-factor authentication was switched off since. */
  datatype Ledger = Nothing | Ledger(issued: Issue, uses: seq<Use>, off: bool)

  function Track(p: Persistence, c: Crypto, user: User, ledger: Ledger, r: Request): Ledger {
    if Step(p, c, user, r).Err? then ledger
    else
      match r
      case VerifySetup(_, _, hashes) => Ledger(hashes, [], false)
      case Disable(_, _) => if ledger.Nothing? then ledger else ledger.(off := true)
      case SecondFactor(code, now) =>
        if ledger.Nothing? || c.totp(user.totpSecret.value, code, now) then ledger
        else ledger.(uses := ledger.uses + [Use(code, Codes(user)[BackupCodeAt(c, user, code).value])])
      case _ => ledger
  }

  function History(p: Persistence, c: Crypto, user: User, ledger: Ledger, requests: seq<Request>): Ledger
    decreases |requests|
  {
    if requests == [] then ledger
    else History(p, c, After(p, c, user, requests[0]), Track(p, c, user, ledger, requests[0]), requests[1..])
  }

  /** A registered user who has never set up two-factor authentication. */
  predicate IsNew(user: User) {
    !user.usesTotp && user.totpSecret == None && user.pendingTotpSecret == None && user.backupCodes == None
  }

  function HashesOf(uses: seq<Use>): seq<Hash> {
    seq(|uses|, i requires 0 <= i < |uses| => uses[i].hash)
  }

  /** Whether the issued codes are still stored: saving undefined clears them when the account is switched off. */
  predicate CodesKept(p: Persistence, ledger: Ledger) {
    ledger.Ledger? && (p.SkipsUndefined? || !ledger.off)
  }

  ghost predicate Conserved(c: Crypto, codes: seq<Hash>, issued: seq<Hash>, uses: seq<Use>) {
    && multiset(issued) == multiset(codes) + multiset(HashesOf(uses))
    && forall k :: 0 <= k < |uses| ==> c.matches(uses[k].code, uses[k].hash)
  }

  ghost predicate Switches(p: Persistence, user: User, ledger: Ledger) {
    && (user.usesTotp <==> ledger.Ledger? && !ledger.off)
    && (user.totpSecret.Some? <==> CodesKept(p, ledger))
    && (user.backupCodes.Some? <==> CodesKept(p, ledger))
  }

  ghost predicate AccountInv(p: Persistence, c: Crypto, user: User, ledger: Ledger) {
    && Switches(p, user, ledger)
    && (CodesKept(p, ledger) ==> Conserved(c, Codes(user), ledger.issued, ledger.uses))
  }

  lemma UseIsConserved(c: Crypto, codes: seq<Hash>, issued: seq<Hash>, uses: seq<Use>, code: string, i: nat)
    requires Conserved(c, codes, issued, uses) && i < |codes| && c.matches(code, codes[i])
    ensures Conserved(c, Splice(codes, i), issued, uses + [Use(code, codes[i])])
  {
    assert codes == codes[..i] + [codes[i]] + codes[i + 1..];
    assert HashesOf(uses + [Use(code, codes[i])]) == HashesOf(uses) + [codes[i]];
  }

  lemma StepKeepsInv(p: Persistence, c: Crypto, user: User, ledger: Ledger, r: Request)
    requires AccountInv(p, c, user, ledger)
    ensures AccountInv(p, c, After(p, c, user, r), Track(p, c, user, ledger, r))
  {
    if r.SecondFactor? && Step(p, c, user, r).Ok? && !c.totp(user.totpSecret.value, r.code, r.now) {
      UseIsConserved(c, Codes(user), ledger.issued, ledger.uses, r.code, BackupCodeAt(c, user, r.code).value);
    }
    if r.VerifySetup? {
      assert HashesOf([]) == [];
    }
  }

  lemma {:induction false} RunKeepsInv(
    p: Persistence, c: Crypto, user: User, ledger: Ledger, requests: seq<Request>)
    requires AccountInv(p, c, user, ledger)
    ensures AccountInv(p, c, RunAccount(p, c, user, requests), History(p, c, user, ledger, requests))
    decreases |requests|
  {
    if requests != [] {
      StepKeepsInv(p, c, user, ledger, requests[0]);
      RunKeepsInv(p, c, After(p, c, user, requests[0]), Track(p, c, user, ledger, requests[0]), requests[1..]);
    }
  }

  /** MAIN RESULT. In every run, the hashes issued by the last setup are those still stored together with those that
      backup logins have consumed since, so remaining codes and backup logins always make eight. Only where saving
      undefined clears columns does switching off drop the codes. */
  lemma CodesAreConserved(p: Persistence, c: Crypto, user: User, requests: seq<Request>)
    requires IsNew(user)
    ensures var user', ledger := RunAccount(p, c, user, requests), History(p, c, user, Nothing, requests);
      if CodesKept(p, ledger) then
        && user'.backupCodes.Some?
        && multiset(ledger.issued) == multiset(user'.backupCodes.value) + multiset(HashesOf(ledger.uses))
        && |user'.backupCodes.value| + |ledger.uses| == BACKUP_CODES
      else user'.backupCodes == None && user'.totpSecret == None
  {
    RunKeepsInv(p, c, user, Nothing, requests);
    var user', ledger := RunAccount(p, c, user, requests), History(p, c, user, Nothing, requests);
    if CodesKept(p, ledger) {
      var kept, spent := Codes(user'), HashesOf(ledger.uses);
      assert |multiset(ledger.issued)| == |multiset(kept) + multiset(spent)|;
    }
  }

  /** MAIN RESULT. Two-factor authentication is on exactly when a setup succeeded and it was not disabled since, and
      then a secret is stored. */
  lemma EnabledHasSecret(p: Persistence, c: Crypto, user: User, requests: seq<Request>)
    requires IsNew(user)
    ensures var user', ledger := RunAccount(p, c, user, requests), History(p, c, user, Nothing, requests);
      && (user'.usesTotp <==> ledger.Ledger? && !ledger.off)
      && (user'.usesTotp ==> user'.totpSecret.Some?)
  {
    RunKeepsInv(p, c, user, Nothing, requests);
  }

  predicate Holds(user: User, secret: Secret) {
    user.totpSecret == Some(secret) || user.pendingTotpSecret == Some(secret)
  }

  /** Every secret that is ever stored or pending was generated by a setup request of this user. */
  lemma {:induction false} SecretComesFromSetup(
    p: Persistence, c: Crypto, user: User, requests: seq<Request>, secret: Secret)
    requires Holds(RunAccount(p, c, user, requests), secret)
    ensures Holds(user, secret) || Setup(secret) in requests
    decreases |requests|
  {
    if requests != [] {
      SecretComesFromSetup(p, c, After(p, c, user, requests[0]), requests[1..], secret);
      assert requests == [requests[0]] + requests[1..];
    }
  }

  /** The hashes are those of these codes: each is matched by its own code and by nothing else. */
  ghost predicate IssuedFor(c: Crypto, codes: seq<string>, hashes: seq<Hash>) {
    && |codes| == |hashes|
    && forall text, j :: 0 <= j < |hashes| ==> (c.matches(text, hashes[j]) <==> text == codes[j])
  }

  ghost predicate DistinctCodes(codes: seq<string>) {
    forall i, j :: 0 <= i < j < |codes| ==> codes[i] != codes[j]
  }

  lemma CodesGiveDistinctHashes(c: Crypto, codes: seq<string>, hashes: seq<Hash>)
    requires IssuedFor(c, codes, hashes) && DistinctCodes(codes)
    ensures forall i, j :: 0 <= i < j < |hashes| ==> hashes[i] != hashes[j]
  {
    forall i, j | 0 <= i < j < |hashes|
      ensures hashes[i] != hashes[j]
    {
      assert c.matches(codes[i], hashes[i]) && !c.matches(codes[i], hashes[j]);
    }
  }

  lemma {:induction false} DistinctHaveCountOne(s: seq<Hash>, i: nat)
    requires forall j, k :: 0 <= j < k < |s| ==> s[j] != s[k]
    requires i < |s|
    ensures multiset(s)[s[i]] == 1
  {
    assert s == s[..i] + [s[i]] + s[i + 1..];
    assert s[i] !in s[..i] && s[i] !in s[i + 1..];
  }

  lemma TwoUsesCountTwice(uses: seq<Use>, k: nat, l: nat)
    requires k < l < |uses| && uses[k].hash == uses[l].hash
    ensures multiset(HashesOf(uses))[uses[k].hash] >= 2
  {
    var h := HashesOf(uses);
    assert h == h[..k] + [h[k]] + h[k + 1..l] + [h[l]] + h[l + 1..];
  }

  /** Which hash a use took, and that it was issued. */
  lemma UseIsOfIssued(c: Crypto, kept: seq<Hash>, issued: seq<Hash>, uses: seq<Use>, codes: seq<string>, k: nat)
    returns (i: nat)
    requires Conserved(c, kept, issued, uses) && IssuedFor(c, codes, issued) && k < |uses|
    ensures i < |issued| && uses[k] == Use(codes[i], issued[i])
  {
    assert HashesOf(uses)[k] == uses[k].hash;
    assert uses[k].hash in multiset(HashesOf(uses));
    assert uses[k].hash in multiset(issued);
    i :| 0 <= i < |issued| && issued[i] == uses[k].hash;
  }

  lemma NoHashIsUsedTwice(c: Crypto, kept: seq<Hash>, issued: seq<Hash>, uses: seq<Use>, codes: seq<string>)
    requires Conserved(c, kept, issued, uses) && IssuedFor(c, codes, issued) && DistinctCodes(codes)
    ensures forall k, l :: 0 <= k < l < |uses| ==> uses[k].code != uses[l].code
  {
    CodesGiveDistinctHashes(c, codes, issued);
    forall k, l | 0 <= k < l < |uses|
      ensures uses[k].code != uses[l].code
    {
      var i := UseIsOfIssued(c, kept, issued, uses, codes, k);
      var j := UseIsOfIssued(c, kept, issued, uses, codes, l);
      if i == j {
        TwoUsesCountTwice(uses, k, l);
        DistinctHaveCountOne(issued, i);
      }
    }
  }

  lemma KeptIffUnused(
    c: Crypto, kept: seq<Hash>, issued: seq<Hash>, uses: seq<Use>, codes: seq<string>, i: nat)
    requires Conserved(c, kept, issued, uses) && IssuedFor(c, codes, issued) && DistinctCodes(codes)
    requires i < |codes|
    ensures (exists h :: h in kept && c.matches(codes[i], h)) <==>
      forall k :: 0 <= k < |uses| ==> uses[k].code != codes[i]
  {
    CodesGiveDistinctHashes(c, codes, issued);
    DistinctHaveCountOne(issued, i);
    var spent := HashesOf(uses);
    assert multiset(kept)[issued[i]] + multiset(spent)[issued[i]] == 1;
    if h :| h in kept && c.matches(codes[i], h) {
      assert h in multiset(issued);
      assert h in issued;
      assert h == issued[i];
      forall k | 0 <= k < |uses|
        ensures uses[k].code != codes[i]
      {
        var j := UseIsOfIssued(c, kept, issued, uses, codes, k);
        assert spent[k] in multiset(spent);
      }
    } else {
      assert issued[i] !in kept;
      assert issued[i] in spent;
      var k :| 0 <= k < |spent| && spent[k] == issued[i];
      var j := UseIsOfIssued(c, kept, issued, uses, codes, k);
    }
  }

  /** MAIN RESULT. After any run, with eight distinct codes issued by the last setup and still kept, a code that is
      not also a valid TOTP code is accepted from an enabled user exactly when it was issued and no backup login has
      used it since; so each issued code is used at most once. */
  lemma IssuedCodeWorksOnce(
    p: Persistence, c: Crypto, user: User, requests: seq<Request>, codes: seq<string>, code: string, now: int)
    requires IsNew(user)
    requires var user', ledger := RunAccount(p, c, user, requests), History(p, c, user, Nothing, requests);
      && CodesKept(p, ledger) && IssuedFor(c, codes, ledger.issued) && DistinctCodes(codes)
      && user'.enabled && user'.totpSecret.Some? && !c.totp(user'.totpSecret.value, code, now)
    ensures var user', ledger := RunAccount(p, c, user, requests), History(p, c, user, Nothing, requests);
      && (Step(p, c, user', SecondFactor(code, now)).Ok? <==>
            code in codes && forall k :: 0 <= k < |ledger.uses| ==> ledger.uses[k].code != code)
      && (forall k, l :: 0 <= k < l < |ledger.uses| ==> ledger.uses[k].code != ledger.uses[l].code)
  {
    RunKeepsInv(p, c, user, Nothing, requests);
    var user', ledger := RunAccount(p, c, user, requests), History(p, c, user, Nothing, requests);
    NoHashIsUsedTwice(c, Codes(user'), ledger.issued, ledger.uses, codes);
    if code in codes {
      var i :| 0 <= i < |codes| && codes[i] == code;
      KeptIffUnused(c, Codes(user'), ledger.issued, ledger.uses, codes, i);
    } else {
      forall h | h in Codes(user')
        ensures !c.matches(code, h)
      {
        assert h in multiset(ledger.issued);
        assert h in ledger.issued;
      }
    }
  }

  /** A setup is verified once per secret exactly when saving undefined clears columns: otherwise the pending secret
      survives, and a second verification issues eight new codes. */
  lemma VerifiedAgainIff(p: Persistence, c: Crypto, user: User, first: Request, again: Request)
    requires first.VerifySetup? && again.VerifySetup?
    requires Step(p, c, user, first).Ok? && c.totp(user.pendingTotpSecret.value, again.code, again.now)
    ensures Step(p, c, After(p, c, user, first), again).Ok? <==> p.SkipsUndefined?
  {
  }

  // ------------------------------------------------------------------------------------------------
  // Sessions.

  ghost predicate UniqueSessions(sessions: seq<Session>) {
    forall i, j :: 0 <= i < j < |sessions| ==>
      sessions[i].id != sessions[j].id && sessions[i].refreshToken != sessions[j].refreshToken
  }

  /** Generated ids and tokens have not been used before. */
  ghost predicate IsFresh(db: Db, e: Event) {
    e.Login? || e.LoginSecond? ==>
      forall i :: 0 <= i < |db.sessions| ==> db.sessions[i].id != e.id && db.sessions[i].refreshToken != e.token
  }

  ghost predicate FreshRun(p: Persistence, c: Crypto, db: Db, events: seq<Event>)
    decreases |events|
  {
    events != [] ==> IsFresh(db, events[0]) && FreshRun(p, c, Apply(p, c, db, events[0]), events[1..])
  }

  predicate Revokes(e: Event, session: Session) {
    e == Logout(session.id) || e == Revoke(session.user, session.id)
  }

  lemma SessionStep(p: Persistence, c: Crypto, db: Db, e: Event, i: nat)
    requires UniqueSessions(db.sessions) && IsFresh(db, e) && i < |db.sessions|
    ensures var db' := Apply(p, c, db, e);
      && UniqueSessions(db'.sessions)
      && i < |db'.sessions|
      && db'.sessions[i] == db.sessions[i].(revoked := db.sessions[i].revoked || Revokes(e, db.sessions[i]))
  {
  }

  lemma {:induction false} RevokedIff(p: Persistence, c: Crypto, db: Db, events: seq<Event>, i: nat)
    requires UniqueSessions(db.sessions) && FreshRun(p, c, db, events) && i < |db.sessions|
    ensures var db', x := Run(p, c, db, events), db.sessions[i];
      && UniqueSessions(db'.sessions)
      && i < |db'.sessions|
      && db'.sessions[i] ==
           x.(revoked := x.revoked || exists k :: 0 <= k < |events| && Revokes(events[k], x))
    decreases |events|
  {
    if events != [] {
      SessionStep(p, c, db, events[0], i);
      RevokedIff(p, c, Apply(p, c, db, events[0]), events[1..], i);
      var x := db.sessions[i];
      assert forall k :: 0 < k < |events| ==> events[k] == events[1..][k - 1];
      if k :| 0 <= k < |events| && Revokes(events[k], x) {
        assert k > 0 ==> Revokes(events[1..][k - 1], x);
      }
    }
  }

  /** The event opens a session in this state: a login with the password of an enabled user without two-factor
      authentication, or a second step of an enabled user with a TOTP code of the stored secret or a stored backup
      code. */
  ghost predicate Opens(c: Crypto, db: Db, e: Event) {
    && (e.Login? || e.LoginSecond?)
    && e.user in db.users && db.users[e.user].enabled
    && var row := db.users[e.user];
       if e.Login? then !row.usesTotp && c.matches(e.password, row.password)
       else
         && row.totpSecret.Some?
         && (|| c.totp(row.totpSecret.value, e.code, e.now)
             || (row.backupCodes.Some? && exists h :: h in row.backupCodes.value && c.matches(e.code, h)))
  }

  predicate IsSession(x: Session, id: Id, user: Id, token: string) {
    x.id == id && x.user == user && x.refreshToken == token
  }

  lemma OpeningStep(p: Persistence, c: Crypto, db: Db, e: Event)
    ensures var sessions := Apply(p, c, db, e).sessions;
      if Opens(c, db, e) then sessions == db.sessions + [Session(e.id, e.user, e.token, false)]
      else
        && |sessions| == |db.sessions|
        && forall i :: 0 <= i < |sessions| ==> sessions[i].(revoked := false) == db.sessions[i].(revoked := false)
  {
  }

  lemma {:induction false} SessionsStay(p: Persistence, c: Crypto, db: Db, events: seq<Event>, i: nat)
    requires i < |db.sessions|
    ensures var sessions := Run(p, c, db, events).sessions;
      i < |sessions| && sessions[i].(revoked := false) == db.sessions[i].(revoked := false)
    decreases |events|
  {
    if events != [] {
      OpeningStep(p, c, db, events[0]);
      SessionsStay(p, c, Apply(p, c, db, events[0]), events[1..], i);
    }
  }

  /** The k-th event opens the session with this id, user and token. */
  ghost predicate OpensAt(
    p: Persistence, c: Crypto, db: Db, events: seq<Event>, k: int, id: Id, user: Id, token: string)
  {
    && 0 <= k < |events| && Opens(c, Run(p, c, db, events[..k]), events[k])
    && events[k].id == id && events[k].user == user && events[k].token == token
  }

  lemma OpensLater(
    p: Persistence, c: Crypto, db: Db, events: seq<Event>, k: nat, id: Id, user: Id, token: string)
    requires events != []
    ensures OpensAt(p, c, db, events, k + 1, id, user, token)
       <==> OpensAt(p, c, Apply(p, c, db, events[0]), events[1..], k, id, user, token)
  {
    if k + 1 < |events| {
      assert events[..k + 1][0] == events[0] && events[..k + 1][1..] == events[1..][..k];
    }
  }

  lemma {:induction false} SessionWasOpened(p: Persistence, c: Crypto, db: Db, events: seq<Event>, i: nat)
    returns (k: nat)
    requires |db.sessions| <= i < |Run(p, c, db, events).sessions|
    ensures var x := Run(p, c, db, events).sessions[i];
      OpensAt(p, c, db, events, k, x.id, x.user, x.refreshToken)
    decreases |events|
  {
    var x := Run(p, c, db, events).sessions[i];
    var db' := Apply(p, c, db, events[0]);
    OpeningStep(p, c, db, events[0]);
    if i < |db'.sessions| {
      SessionsStay(p, c, db', events[1..], i);
      assert events[..0] == [];
      k := 0;
    } else {
      k := SessionWasOpened(p, c, db', events[1..], i);
      OpensLater(p, c, db, events, k, x.id, x.user, x.refreshToken);
      k := k + 1;
    }
  }

  lemma {:induction false} OpenedSessionExists(p: Persistence, c: Crypto, db: Db, events: seq<Event>, k: nat)
    returns (i: nat)
    requires k < |events| && Opens(c, Run(p, c, db, events[..k]), events[k])
    ensures var sessions := Run(p, c, db, events).sessions;
      && |db.sessions| <= i < |sessions|
      && IsSession(sessions[i], events[k].id, events[k].user, events[k].token)
    decreases |events|
  {
    var db', e := Apply(p, c, db, events[0]), events[k];
    OpeningStep(p, c, db, events[0]);
    if k == 0 {
      assert events[..0] == [];
      i := |db.sessions|;
      SessionsStay(p, c, db', events[1..], i);
    } else {
      OpensLater(p, c, db, events, k - 1, e.id, e.user, e.token);
      i := OpenedSessionExists(p, c, db', events[1..], k - 1);
    }
  }

  /** MAIN RESULT. In every run, the sessions that were not there at the start are exactly those that some event
      opened: by the password of an enabled user without two-factor authentication, or by a second step with a code
      that was valid for what was stored then. Nothing else ever opens a session. */
  lemma SessionsAreOpened(
    p: Persistence, c: Crypto, db: Db, events: seq<Event>, id: Id, user: Id, token: string)
    ensures var sessions := Run(p, c, db, events).sessions;
      (exists i :: |db.sessions| <= i < |sessions| && IsSession(sessions[i], id, user, token)) <==>
        exists k :: OpensAt(p, c, db, events, k, id, user, token)
  {
    var sessions := Run(p, c, db, events).sessions;
    if i :| |db.sessions| <= i < |sessions| && IsSession(sessions[i], id, user, token) {
      var k := SessionWasOpened(p, c, db, events, i);
    }
    if k :| OpensAt(p, c, db, events, k, id, user, token) {
      var i := OpenedSessionExists(p, c, db, events, k);
    }
  }

  /** MAIN RESULT. After any run a session refreshes with its token exactly when neither a logout nor a revocation of
      it by its user is among the events, and its user still exists and is enabled. A revoked session never refreshes
      again. */
  lemma RefreshesIff(p: Persistence, c: Crypto, db: Db, events: seq<Event>, i: nat)
    requires UniqueSessions(db.sessions) && FreshRun(p, c, db, events) && i < |db.sessions|
    ensures var db', x := Run(p, c, db, events), db.sessions[i];
      MayRefresh(db', x.refreshToken) <==>
        && !x.revoked
        && (forall k :: 0 <= k < |events| ==> !Revokes(events[k], x))
        && x.user in db'.users && db'.users[x.user].enabled
  {
    RevokedIff(p, c, db, events, i);
    var db', x := Run(p, c, db, events), db.sessions[i];
    var at := ActiveSession(db', x.refreshToken);
    if at.Some? {
      assert db'.sessions[at.value].refreshToken == db'.sessions[i].refreshToken;
      assert at.value == i;
    }
  }
}
