/** The identity service itself: the tables are fields, and every call updates them statement by statement. */
module IdentityService {
  import opened Common
  import opened IdentityEffects
  import opened IdentityModel
  import Text
  import Throttle

  class Service {
    const env: Env
    var now: Time
    var users: Users
    var sessions: Sessions
    var resets: Resets
    var attempts: Attempts

    ghost predicate Valid()
      reads this
    {
      Consistent(Tables())
    }

    ghost function Tables(): State
      reads this
    {
      State(now, users, sessions, resets, attempts)
    }

    constructor (env: Env, now: Time)
      ensures Tables() == Empty(now) && this.env == env
      ensures Valid()
    {
      this.env := env;
      this.now := now;
      users, sessions, resets, attempts := map[], map[], map[], map[];
    }

    /** The clock moves on between calls. */
    method Advance(delay: nat)
      requires Valid()
      modifies this`now
      ensures Tables() == Step(env, old(Tables()), Wait(delay)).0
      ensures Valid()
    {
      now := now + delay;
    }

    method LoginBlocked(key: Throttle.Key) returns (blocked: bool)
      ensures blocked == Throttle.Blocked(Lookup(attempts, key), now)
    {
      if key !in attempts {
        return false;
      }
      var until := attempts[key].blockedUntil;
      blocked := until.Some? && until.value > now;
    }

    method RecordFailure(key: Throttle.Key)
      modifies this`attempts
      ensures attempts == old(attempts)[key := Throttle.Recorded(Lookup(old(attempts), key), now)]
    {
      if key !in attempts {
        attempts := attempts[key := Throttle.Attempt(1, now, None)];
      } else {
        var row := attempts[key];
        var expired := row.windowStartedAt < now - Throttle.WINDOW;
        var count := if expired then 1 else row.failureCount + 1;
        var window := if expired then now else row.windowStartedAt;
        var block := !expired && row.failureCount + 1 >= Throttle.LIMIT;
        attempts := attempts[key := Throttle.Attempt(count, window, if block then Some(now + Throttle.WINDOW) else None)];
      }
    }

    method FindUserByLookup(lookup: Bytes) returns (found: Option<string>)
      requires Valid()
      ensures found == FindUser(users, lookup)
    {
      if id :| id in users && FoundBy(users, id, lookup) {
        found := Some(id);
      } else {
        found := None;
      }
    }

    /** Inserts a session unless the token hash is taken. */
    method CreateSession(userId: string, token: string) returns (expiresAt: Option<Time>)
      modifies this`sessions
      ensures
        var hash := env.hashToken(token);
        if hash in old(sessions) then expiresAt == None && sessions == old(sessions)
        else expiresAt == Some(now + env.sessionTtl)
             && sessions == old(sessions)[hash := SessionRow(userId, now + env.sessionTtl, None)]
    {
      var hash := env.hashToken(token);
      if hash in sessions {
        return None;
      }
      expiresAt := Some(now + env.sessionTtl);
      sessions := sessions[hash := SessionRow(userId, now + env.sessionTtl, None)];
    }

    /** Inserts a user unless the id or the lookup is taken. */
    method InsertUser(id: string, row: UserRow) returns (inserted: bool)
      modifies this`users
      ensures inserted <==> id !in old(users) && !LookupTaken(old(users), row.lookup, None)
      ensures users == if inserted then old(users)[id := row] else old(users)
    {
      if id in users || LookupTaken(users, row.lookup, None) {
        return false;
      }
      users := users[id := row];
      inserted := true;
    }

    method Register(input: Registration, draw: Draw) returns (reply: Reply)
      requires Valid()
      modifies this
      ensures (Tables(), reply) == DoRegister(env, old(Tables()), input, draw)
      ensures Valid()
      ensures Reliable(env) ==> RegisterEffect(env, old(Tables()), Tables(), input, draw, reply)
    {
      RegisterOutcome(env, Tables(), input, draw);
      var r := TrimmedRegistration(env, input);
      if !ValidRegistration(env, r) {
        return Failed(InvalidInput);
      }
      var user := User(draw.id, r.email, r.firstName, r.lastName, r.phone, "customer");
      reply := InsertAccount(draw, NewUserRow(env, r, draw), user);
    }

    /** The transaction of a registration: the user row and its first session, or neither. */
    method InsertAccount(draw: Draw, row: UserRow, user: User) returns (reply: Reply)
      requires user.id == draw.id
      modifies this`users, this`sessions
      ensures
        var hash := env.hashToken(draw.token);
        var taken := draw.id in old(users) || LookupTaken(old(users), row.lookup, None);
        if taken || hash in old(sessions) then
          && users == old(users) && sessions == old(sessions)
          && reply == Failed(if taken then EmailAlreadyExists else Internal)
        else
          && users == old(users)[draw.id := row]
          && sessions == old(sessions)[hash := SessionRow(draw.id, now + env.sessionTtl, None)]
          && reply == SignedIn(user, draw.token, now + env.sessionTtl)
    {
      var before := users;
      var inserted := InsertUser(draw.id, row);
      if !inserted {
        return Failed(EmailAlreadyExists);
      }
      var expiresAt := CreateSession(draw.id, draw.token);
      if expiresAt.None? {
        users := before;  // the deferred rollback
        return Failed(Internal);
      }
      reply := SignedIn(user, draw.token, expiresAt.value);
    }

    method Login(c: Credentials, work: nat, draw: Draw) returns (reply: Reply)
      requires Valid()
      modifies this
      ensures (Tables(), reply) == DoLogin(env, old(Tables()), c, work, draw)
      ensures Valid()
      ensures LoginEffect(env, old(Tables()), Tables(), c, work, draw, reply)
    {
      LoginDoes(env, Tables(), c, work, draw);
      LoginConsistent(env, Tables(), c, work, draw);
      if !WellFormed(env, c) {
        return Failed(InvalidCredentials);
      }
      var key := LoginKey(env, c);
      var blocked := LoginBlocked(key);
      if blocked {
        return Failed(TooManyAttempts);
      }
      var found := FindUserByLookup(key.0);
      reply := Verify(key, found, c.password, work, draw);
    }

    /** From the password check on; verifying takes `work`. */
    method Verify(key: Throttle.Key, found: Option<string>, password: Bytes, work: nat, draw: Draw) returns (reply: Reply)
      requires found.Some? ==> found.value in users
      modifies this
      ensures (Tables(), reply) == DoVerify(env, old(Tables()), key, found, password, work, draw)
    {
      var hash := if found.None? then env.dummyHash else users[found.value].passwordHash;
      var verified := env.verify(password, hash);
      now := now + work;
      if found.None? || !verified {
        RecordFailure(key);
        return Failed(InvalidCredentials);
      }
      var user := DecryptUser(env, found.value, users[found.value]);
      if user.None? {
        return Failed(Internal);
      }
      reply := OpenSession(key, user.value, draw.token);
    }

    /** The transaction of a successful login: forget the failures and open a session. */
    method OpenSession(key: Throttle.Key, user: User, token: string) returns (reply: Reply)
      modifies this`attempts, this`sessions
      ensures
        var hash := env.hashToken(token);
        if hash in old(sessions) then reply == Failed(Internal) && attempts == old(attempts) && sessions == old(sessions)
        else
          && reply == SignedIn(user, token, now + env.sessionTtl)
          && attempts == old(attempts) - {key}
          && sessions == old(sessions)[hash := SessionRow(user.id, now + env.sessionTtl, None)]
    {
      var before := attempts;
      attempts := attempts - {key};
      var expiresAt := CreateSession(user.id, token);
      if expiresAt.None? {
        attempts := before;  // the deferred rollback
        return Failed(Internal);
      }
      reply := SignedIn(user, token, expiresAt.value);
    }

    method Authenticate(token: string) returns (reply: Reply)
      ensures reply == DoAuthenticate(env, Tables(), token)
      ensures AuthenticateEffect(env, Tables(), token, reply)
    {
      AuthenticateDoes(env, Tables(), token);
      if token == "" {
        return Failed(Unauthorized);
      }
      var hash := env.hashToken(token);
      if hash !in sessions {
        return Failed(Unauthorized);
      }
      var session := sessions[hash];
      if session.revokedAt.Some? || session.expiresAt <= now || session.userId !in users || !users[session.userId].Live() {
        return Failed(Unauthorized);
      }
      reply := LoadUser(session.userId);
    }

    method LoadUser(userId: string) returns (reply: Reply)
      ensures
        reply == if LiveUser(Tables(), userId) then ProfileReply(env, userId, users[userId]) else Failed(Unauthorized)
    {
      if userId !in users || !users[userId].Live() {
        return Failed(Unauthorized);
      }
      var user := DecryptUser(env, userId, users[userId]);
      reply := if user.None? then Failed(Internal) else Profile(user.value);
    }

    method UpdateProfile(userId: string, input: ProfileUpdate, draw: Draw) returns (reply: Reply)
      requires Valid()
      modifies this`users
      ensures (Tables(), reply) == DoUpdateProfile(env, old(Tables()), userId, input, draw)
      ensures Valid()
      ensures Reliable(env) ==> UpdateProfileEffect(env, old(Tables()), Tables(), userId, input, reply)
    {
      if Reliable(env) {
        UpdateProfileDoes(env, Tables(), userId, input, draw);
      }
      UpdateProfileConsistent(env, Tables(), userId, input, draw);
      var p := TrimmedProfile(env, input);
      if userId == "" || !ValidProfile(env, p) {
        return Failed(InvalidInput);
      }
      if userId !in users || !users[userId].Live() {
        return Failed(Unauthorized);
      }
      users := users[userId := WithProfile(env, users[userId], p, draw)];
      reply := LoadUser(userId);
    }

    method Logout(token: string)
      requires Valid()
      modifies this`sessions
      ensures Tables() == DoLogout(env, old(Tables()), token)
      ensures Valid()
      ensures LogoutEffect(env, old(Tables()), Tables(), token)
    {
      LogoutDoes(env, Tables(), token);
      if token == "" {
        return;
      }
      var hash := env.hashToken(token);
      if hash in sessions && sessions[hash].revokedAt.None? {
        sessions := sessions[hash := sessions[hash].(revokedAt := Some(now))];
      }
    }

    /** The transaction that supersedes the user's tokens and stores a new one. */
    method IssueToken(userId: string, draw: Draw) returns (reply: Reply, issued: bool)
      modifies this`resets
      ensures (resets, reply) == IssueReset(env, now, old(resets), Some(userId), draw)
      ensures issued <==> env.hashToken(draw.token) in resets && env.hashToken(draw.token) !in old(resets)
    {
      if RecentlyRequested(resets, userId, now) {
        return Done, false;
      }
      var hash := env.hashToken(draw.token);
      var before := resets;
      resets := UseResets(resets, userId, now);
      if hash in resets {
        resets := before;  // the deferred rollback
        return Failed(Internal), false;
      }
      resets := resets[hash := ResetRow(userId, now, now + env.resetTtl, None)];
      return Done, true;
    }

    /** The call up to the commit; a mail is due exactly when a token was issued. */
    method RequestToken(input: Bytes, draw: Draw) returns (reply: Reply, issued: bool)
      requires Valid()
      modifies this`resets
      ensures (Tables(), reply) == DoRequestReset(env, old(Tables()), input, draw)
      ensures issued <==> MailDue(env, old(Tables()), input, draw)
    {
      var email := env.normalizeEmail(input);
      if !env.ValidEmail(email) {
        return Done, false;
      }
      var found := FindUserByLookup(env.lookup(email));
      if found.None? {
        return Done, false;
      }
      reply, issued := IssueToken(found.value, draw);
    }

    /** The whole call: issue and commit, then send; a failed send deletes the token again. */
    method RequestPasswordReset(input: Bytes, sent: bool, draw: Draw) returns (reply: Reply)
      requires Valid()
      modifies this`resets
      ensures
        var issued := DoRequestReset(env, old(Tables()), input, draw);
        if sent || !MailDue(env, old(Tables()), input, draw) then (Tables(), reply) == issued
        else Tables() == DoMailFailed(env, issued.0, draw.token) && reply == Failed(Internal)
      ensures RequestEffect(env, old(Tables()), Tables(), input, sent, draw, reply)
      ensures Valid()
    {
      RequestDoes(env, Tables(), input, sent, draw);
      var issued;
      reply, issued := RequestToken(input, draw);
      if issued && !sent {
        resets := resets - {env.hashToken(draw.token)};
        reply := Failed(Internal);
      }
    }

    method ResetPassword(token: string, password: Bytes, draw: Draw) returns (reply: Reply)
      requires Valid()
      modifies this
      ensures (Tables(), reply) == DoResetPassword(env, old(Tables()), token, password, draw)
      ensures Valid()
      ensures Reliable(env) ==> ResetPasswordEffect(env, old(Tables()), Tables(), token, password, reply)
    {
      if Reliable(env) {
        ResetPasswordDoes(env, Tables(), token, password, draw);
      }
      StepConsistent(env, Tables(), Call.ResetPassword(token, password, draw));
      if Text.ByteLength(token) < 32 {
        return Failed(InvalidResetToken);
      }
      if !env.ValidPassword(password) {
        return Failed(InvalidInput);
      }
      var hash := env.hashToken(token);
      if hash !in resets || resets[hash].usedAt.Some? || resets[hash].expiresAt <= now {
        return Failed(InvalidResetToken);
      }
      var userId := resets[hash].userId;
      users := WithPassword(env, users, userId, password, draw);
      resets := UseResets(resets, userId, now);
      sessions := RevokeSessions(sessions, userId, None, now);
      reply := Done;
    }

    method ChangePassword(userId: string, sessionToken: string, current: Bytes, password: Bytes, draw: Draw)
      returns (reply: Reply)
      requires Valid()
      modifies this
      ensures (Tables(), reply) == DoChangePassword(env, old(Tables()), userId, sessionToken, current, password, draw)
      ensures Valid()
      ensures Reliable(env) ==>
        ChangePasswordEffect(env, old(Tables()), Tables(), userId, sessionToken, current, password, reply)
    {
      if Reliable(env) {
        ChangePasswordDoes(env, Tables(), userId, sessionToken, current, password, draw);
      }
      StepConsistent(env, Tables(), Call.ChangePassword(userId, sessionToken, current, password, draw));
      if userId == "" || sessionToken == "" || !env.Presentable(current) || !env.ValidPassword(password) {
        return Failed(InvalidInput);
      }
      if userId !in users || !users[userId].Live() {
        return Failed(Unauthorized);
      }
      if !env.verify(current, users[userId].passwordHash) {
        return Failed(InvalidCurrentPassword);
      }
      users := WithPassword(env, users, userId, password, draw);
      sessions := RevokeSessions(sessions, userId, Some(env.hashToken(sessionToken)), now);
      resets := UseResets(resets, userId, now);
      reply := Done;
    }

    method ChangeEmail(userId: string, current: Bytes, input: Bytes, draw: Draw) returns (reply: Reply)
      requires Valid()
      modifies this`users
      ensures (Tables(), reply) == DoChangeEmail(env, old(Tables()), userId, current, input, draw)
      ensures Valid()
      ensures Reliable(env) ==> ChangeEmailEffect(env, old(Tables()), Tables(), userId, current, input, reply)
    {
      if Reliable(env) {
        ChangeEmailDoes(env, Tables(), userId, current, input, draw);
      }
      ChangeEmailConsistent(env, Tables(), userId, current, input, draw);
      var email := env.normalizeEmail(input);
      if userId == "" || !env.ValidEmail(email) || !env.Presentable(current) {
        return Failed(InvalidInput);
      }
      if userId !in users || !users[userId].Live() {
        return Failed(Unauthorized);
      }
      if !env.verify(current, users[userId].passwordHash) {
        return Failed(InvalidCurrentPassword);
      }
      if LookupTaken(users, env.lookup(email), Some(userId)) {
        return Failed(EmailAlreadyExists);
      }
      users := users[userId := users[userId].(
        email := env.encrypt(draw.emailNonce, email, "users.email"), lookup := env.lookup(email))];
      reply := LoadUser(userId);
    }
  }
}
