/**
 What each account call does to the tables, row by row and column by column, and exactly when. Nothing here is said
 through the statements of the model: only rows, times, literal limits and the primitives of the environment occur.
 */
module IdentityEffects {
  import opened Common
  import opened IdentityModel
  import R = IdentityRefinement
  import Text
  import Throttle

  // ----- The vocabulary -----

  /** An e-mail address that the service accepts. */
  predicate Addressable(env: Env, email: Bytes) {
    |email| <= 254 && 13 !in email && 10 !in email && env.isAddress(email)
  }

  predicate NameFits(env: Env, name: Bytes) { 1 <= env.runeCount(name) <= 80 }

  predicate PasswordFits(env: Env, password: Bytes) { 12 <= env.runeCount(password) <= 128 }

  predicate ActiveUser(users: Users, id: string) {
    id in users && users[id].active && !users[id].deleted
  }

  /** The columns hold these texts, encrypted, and the index entry of the e-mail. */
  ghost predicate Holds(env: Env, row: UserRow, email: Bytes, firstName: Bytes, lastName: Bytes, phone: Bytes) {
    && env.decrypt(row.email, "users.email") == Some(email) && row.lookup == env.lookup(email)
    && HoldsProfile(env, row, firstName, lastName, phone)
  }

  ghost predicate HoldsProfile(env: Env, row: UserRow, firstName: Bytes, lastName: Bytes, phone: Bytes) {
    && env.decrypt(row.firstName, "users.first_name") == Some(firstName)
    && env.decrypt(row.lastName, "users.last_name") == Some(lastName)
    && (if phone == [] then row.phone == None
        else row.phone.Some? && env.decrypt(row.phone.value, "users.phone") == Some(phone))
  }

  /** The reply is the profile that the row's columns decrypt to, or an internal error if one does not. */
  ghost predicate ReadBack(env: Env, id: string, row: UserRow, reply: Reply) {
    var phone := if row.phone.None? then Some([]) else env.decrypt(row.phone.value, "users.phone");
    if reply.Profile? then
      && reply.user.id == id && reply.user.role == row.role
      && env.decrypt(row.email, "users.email") == Some(reply.user.email)
      && env.decrypt(row.firstName, "users.first_name") == Some(reply.user.firstName)
      && env.decrypt(row.lastName, "users.last_name") == Some(reply.user.lastName)
      && phone == Some(reply.user.phone)
    else
      && reply == Failed(Internal)
      && (|| env.decrypt(row.email, "users.email").None? || env.decrypt(row.firstName, "users.first_name").None?
          || env.decrypt(row.lastName, "users.last_name").None? || phone.None?)
  }

  /** Some row that is not deleted, other than `own`, has the index entry. */
  predicate Occupied(users: Users, lookup: Bytes, own: Option<string>) {
    exists id :: id in users && own != Some(id) && !users[id].deleted && users[id].lookup == lookup
  }

  ghost predicate OnlyRow(before: Users, after: Users, id: string) {
    id in after && after.Keys == before.Keys + {id} && forall k :: k in before && k != id ==> after[k] == before[k]
  }

  /** One unrevoked session of the user more, for the session TTL. */
  ghost predicate SessionAdded(env: Env, before: Sessions, after: Sessions, hash: string, userId: string, now: Time) {
    && hash !in before && after.Keys == before.Keys + {hash}
    && after[hash] == SessionRow(userId, now + env.sessionTtl, None)
    && forall h :: h in before ==> after[h] == before[h]
  }

  /** Decryption undoes encryption, and every password matches its own hash. */
  ghost predicate Reliable(env: Env) {
    R.Undoes(env) && SelfVerifying(env)
  }

  lemma LawfulIsReliable(env: Env)
    requires env.Lawful()
    ensures Reliable(env)
  {
    R.LawfulIsFaithful(env);
    LawfulVerifiesItself(env);
  }

  // ----- Register -----

  predicate AcceptableRegistration(env: Env, input: Registration) {
    && NameFits(env, env.trim(input.firstName)) && NameFits(env, env.trim(input.lastName))
    && Addressable(env, env.normalizeEmail(input.email))
    && PasswordFits(env, input.password) && env.runeCount(env.trim(input.phone)) <= 40
  }

  /** One live customer under the trimmed names, the normalised e-mail and the given password, and one session. */
  ghost predicate Registers(env: Env, s: State, t: State, input: Registration, draw: Draw, reply: Reply) {
    && reply == SignedIn(
         User(draw.id, env.normalizeEmail(input.email), env.trim(input.firstName), env.trim(input.lastName),
              env.trim(input.phone), "customer"),
         draw.token, s.now + env.sessionTtl)
    && draw.id !in s.users && OnlyRow(s.users, t.users, draw.id)
    && Holds(env, t.users[draw.id], env.normalizeEmail(input.email), env.trim(input.firstName),
             env.trim(input.lastName), env.trim(input.phone))
    && env.verify(input.password, t.users[draw.id].passwordHash)
    && t.users[draw.id].role == "customer" && ActiveUser(t.users, draw.id)
    && SessionAdded(env, s.sessions, t.sessions, env.hashToken(draw.token), draw.id, s.now)
    && t.now == s.now && t.resets == s.resets && t.attempts == s.attempts
  }

  ghost predicate RegisterEffect(env: Env, s: State, t: State, input: Registration, draw: Draw, reply: Reply) {
    if !AcceptableRegistration(env, input) then t == s && reply == Failed(InvalidInput)
    else if draw.id in s.users || Occupied(s.users, env.lookup(env.normalizeEmail(input.email)), None) then
      t == s && reply == Failed(EmailAlreadyExists)
    else if env.hashToken(draw.token) in s.sessions then t == s && reply == Failed(Internal)
    else Registers(env, s, t, input, draw, reply)
  }

  lemma OccupiedIsTaken(users: Users, lookup: Bytes, own: Option<string>)
    ensures Occupied(users, lookup, own) == LookupTaken(users, lookup, own)
  {
    if id :| id in users && own != Some(id) && !users[id].deleted && users[id].lookup == lookup {
      assert UsesLookup(users, id, lookup);
    }
  }

  lemma NewRowHolds(env: Env, input: Registration, draw: Draw)
    requires Reliable(env)
    ensures
      var row := NewUserRow(env, TrimmedRegistration(env, input), draw);
      && Holds(env, row, env.normalizeEmail(input.email), env.trim(input.firstName), env.trim(input.lastName),
               env.trim(input.phone))
      && env.verify(input.password, row.passwordHash) && row.role == "customer" && row.active && !row.deleted
  {
  }

  lemma RegisterDoes(env: Env, s: State, input: Registration, draw: Draw)
    requires Reliable(env)
    ensures
      var (t, reply) := DoRegister(env, s, input, draw);
      RegisterEffect(env, s, t, input, draw, reply)
  {
    OccupiedIsTaken(s.users, env.lookup(env.normalizeEmail(input.email)), None);
    NewRowHolds(env, input, draw);
  }

  lemma RegisterOutcome(env: Env, s: State, input: Registration, draw: Draw)
    requires Consistent(s)
    ensures
      var (t, reply) := DoRegister(env, s, input, draw);
      Consistent(t) && (Reliable(env) ==> RegisterEffect(env, s, t, input, draw, reply))
  {
    RegisterConsistent(env, s, input, draw);
    if Reliable(env) {
      RegisterDoes(env, s, input, draw);
    }
  }

  lemma NewTokenAuthenticates(env: Env, s: State, t: State, input: Registration, draw: Draw, reply: Reply)
    requires Registers(env, s, t, input, draw, reply)
    requires draw.token != "" && env.sessionTtl > 0
    ensures DoAuthenticate(env, t, draw.token) == Profile(reply.user)
  {
  }

  /** A registered user is the user of the input, field by field, and the new token authenticates as that user. */
  lemma RegisteredAsGiven(env: Env, s: State, input: Registration, draw: Draw)
    requires env.Lawful() && DoRegister(env, s, input, draw).1.SignedIn?
    ensures
      var user := DoRegister(env, s, input, draw).1.user;
      && user.firstName == env.trim(input.firstName) && user.lastName == env.trim(input.lastName)
      && user.phone == env.trim(input.phone) && user.email == env.normalizeEmail(input.email)
      && (draw.token != "" && env.sessionTtl > 0 ==>
            DoAuthenticate(env, DoRegister(env, s, input, draw).0, draw.token) == Profile(user))
  {
    LawfulIsReliable(env);
    RegisterDoes(env, s, input, draw);
    if draw.token != "" && env.sessionTtl > 0 {
      var (t, reply) := DoRegister(env, s, input, draw);
      NewTokenAuthenticates(env, s, t, input, draw, reply);
    }
  }

  // ----- Login -----

  const QUARTER_HOUR: Time := 900_000_000

  /** The row after one more failure: a window of 15 minutes, a block of 15 minutes from the fifth failure on. */
  ghost predicate Counted(before: Option<Throttle.Attempt>, after: Throttle.Attempt, now: Time) {
    match before
    case None => after.failureCount == 1 && after.windowStartedAt == now && after.blockedUntil == None
    case Some(row) =>
      if now - row.windowStartedAt > QUARTER_HOUR then
        after.failureCount == 1 && after.windowStartedAt == now && after.blockedUntil == None
      else
        && after.failureCount == row.failureCount + 1 && after.windowStartedAt == row.windowStartedAt
        && after.blockedUntil == if after.failureCount >= 5 then Some(now + QUARTER_HOUR) else None
  }

  predicate BlockedAt(attempts: Attempts, key: Throttle.Key, now: Time) {
    key in attempts && attempts[key].blockedUntil.Some? && now < attempts[key].blockedUntil.value
  }

  /** A live user whose index entry is that of the e-mail, and whose hash the password matches. */
  ghost predicate Matches(env: Env, users: Users, id: string, c: Credentials) {
    && ActiveUser(users, id) && users[id].lookup == env.lookup(env.normalizeEmail(c.email))
    && env.verify(c.password, users[id].passwordHash)
  }

  ghost predicate FailureCounted(s: State, t: State, key: Throttle.Key, now: Time) {
    && t == s.(now := now, attempts := t.attempts)
    && key in t.attempts && t.attempts.Keys == s.attempts.Keys + {key}
    && (forall k :: k in s.attempts && k != key ==> t.attempts[k] == s.attempts[k])
    && Counted(Lookup(s.attempts, key), t.attempts[key], now)
  }

  ghost predicate SignsIn(
    env: Env, s: State, t: State, id: string, key: Throttle.Key, now: Time, draw: Draw, reply: Reply)
    requires id in s.users
  {
    if reply.SignedIn? then
      && ReadBack(env, id, s.users[id], Profile(reply.user))
      && reply.token == draw.token && reply.expiresAt == now + env.sessionTtl
      && t == s.(now := now, attempts := t.attempts, sessions := t.sessions)
      && key !in t.attempts && t.attempts.Keys == s.attempts.Keys - {key}
      && (forall k :: k in t.attempts ==> t.attempts[k] == s.attempts[k])
      && SessionAdded(env, s.sessions, t.sessions, env.hashToken(draw.token), id, now)
    else
      && reply == Failed(Internal) && t == s.(now := now)
      && (env.hashToken(draw.token) in s.sessions || ReadBack(env, id, s.users[id], Failed(Internal)))
  }

  ghost predicate LoginEffect(
    env: Env, s: State, t: State, c: Credentials, work: nat, draw: Draw, reply: Reply)
  {
    var key := (env.lookup(env.normalizeEmail(c.email)), env.normalizeIp(c.ip));
    if !Addressable(env, env.normalizeEmail(c.email)) || |c.password| == 0 || |c.password| > 128 then
      t == s && reply == Failed(InvalidCredentials)
    else if BlockedAt(s.attempts, key, s.now) then t == s && reply == Failed(TooManyAttempts)
    else if !exists id :: Matches(env, s.users, id, c) then
      FailureCounted(s, t, key, s.now + work) && reply == Failed(InvalidCredentials)
    else forall id :: Matches(env, s.users, id, c) ==> SignsIn(env, s, t, id, key, s.now + work, draw, reply)
  }

  lemma RecordedIsCounted(row: Option<Throttle.Attempt>, now: Time)
    ensures Counted(row, Throttle.Recorded(row, now), now)
  {
  }

  lemma FoundMatches(env: Env, s: State, c: Credentials)
    requires UniqueLookups(s.users)
    ensures
      var found := FindUser(s.users, LoginKey(env, c).0);
      && (forall id :: Matches(env, s.users, id, c) ==> found == Some(id))
      && (found.Some? && env.verify(c.password, s.users[found.value].passwordHash) ==> Matches(env, s.users, found.value, c))
  {
    var found := FindUser(s.users, LoginKey(env, c).0);
    forall id | Matches(env, s.users, id, c)
      ensures found == Some(id)
    {
      assert FoundBy(s.users, id, LoginKey(env, c).0);
    }
  }

  lemma VerifiedSignsIn(env: Env, s: State, id: string, key: Throttle.Key, password: Bytes, work: nat, draw: Draw)
    requires id in s.users && env.verify(password, s.users[id].passwordHash)
    ensures
      var (t, reply) := DoVerify(env, s, key, Some(id), password, work, draw);
      SignsIn(env, s, t, id, key, s.now + work, draw, reply)
  {
  }

  lemma FailedIsCounted(
    env: Env, s: State, key: Throttle.Key, found: Option<string>, password: Bytes, work: nat, draw: Draw)
    requires found.Some? ==> found.value in s.users && !env.verify(password, s.users[found.value].passwordHash)
    ensures
      var (t, reply) := DoVerify(env, s, key, found, password, work, draw);
      FailureCounted(s, t, key, s.now + work) && reply == Failed(InvalidCredentials)
  {
    RecordedIsCounted(Lookup(s.attempts, key), s.now + work);
  }

  lemma LoginDoes(env: Env, s: State, c: Credentials, work: nat, draw: Draw)
    requires UniqueLookups(s.users)
    ensures
      var (t, reply) := DoLogin(env, s, c, work, draw);
      LoginEffect(env, s, t, c, work, draw, reply)
  {
    var key := LoginKey(env, c);
    if WellFormed(env, c) && !Gated(env, s, c) {
      var found := FindUser(s.users, key.0);
      FoundMatches(env, s, c);
      if found.Some? && env.verify(c.password, s.users[found.value].passwordHash) {
        VerifiedSignsIn(env, s, found.value, key, c.password, work, draw);
      } else {
        FailedIsCounted(env, s, key, found, c.password, work, draw);
      }
    }
  }

  // ----- Authenticate and Logout -----

  /** Only an unrevoked session of a live user counts, strictly before it expires. */
  ghost predicate AuthenticateEffect(env: Env, s: State, token: string, reply: Reply) {
    var hash := env.hashToken(token);
    if token != "" && hash in s.sessions && s.sessions[hash].revokedAt == None && s.now < s.sessions[hash].expiresAt
       && ActiveUser(s.users, s.sessions[hash].userId)
    then ReadBack(env, s.sessions[hash].userId, s.users[s.sessions[hash].userId], reply)
    else reply == Failed(Unauthorized)
  }

  lemma AuthenticateDoes(env: Env, s: State, token: string)
    ensures AuthenticateEffect(env, s, token, DoAuthenticate(env, s, token))
  {
  }

  /** The session of the token is revoked now, unless it was before; every other one stays. */
  ghost predicate LogoutEffect(env: Env, s: State, t: State, token: string) {
    && t == s.(sessions := t.sessions) && t.sessions.Keys == s.sessions.Keys
    && forall h :: h in s.sessions ==>
         t.sessions[h] == if token != "" && h == env.hashToken(token) && s.sessions[h].revokedAt.None?
                          then s.sessions[h].(revokedAt := Some(s.now)) else s.sessions[h]
  }

  lemma LogoutDoes(env: Env, s: State, token: string)
    ensures LogoutEffect(env, s, DoLogout(env, s, token), token)
  {
  }

  // ----- UpdateProfile and ChangeEmail -----

  ghost predicate UpdateProfileEffect(
    env: Env, s: State, t: State, userId: string, input: ProfileUpdate, reply: Reply)
  {
    if userId == "" || !NameFits(env, env.trim(input.firstName)) || !NameFits(env, env.trim(input.lastName))
       || env.runeCount(env.trim(input.phone)) > 40 then t == s && reply == Failed(InvalidInput)
    else if !ActiveUser(s.users, userId) then t == s && reply == Failed(Unauthorized)
    else
      && t == s.(users := t.users) && OnlyRow(s.users, t.users, userId)
      && var row := t.users[userId];
         && row == s.users[userId].(firstName := row.firstName, lastName := row.lastName, phone := row.phone)
         && HoldsProfile(env, row, env.trim(input.firstName), env.trim(input.lastName), env.trim(input.phone))
         && ReadBack(env, userId, row, reply)
  }

  lemma NewProfileHolds(env: Env, row: UserRow, input: ProfileUpdate, draw: Draw)
    requires Reliable(env)
    ensures
      var after := WithProfile(env, row, TrimmedProfile(env, input), draw);
      && after == row.(firstName := after.firstName, lastName := after.lastName, phone := after.phone)
      && HoldsProfile(env, after, env.trim(input.firstName), env.trim(input.lastName), env.trim(input.phone))
  {
  }

  lemma ProfileIsReadBack(env: Env, id: string, row: UserRow)
    ensures ReadBack(env, id, row, ProfileReply(env, id, row))
  {
  }

  lemma UpdateProfileDoes(env: Env, s: State, userId: string, input: ProfileUpdate, draw: Draw)
    requires Reliable(env)
    ensures
      var (t, reply) := DoUpdateProfile(env, s, userId, input, draw);
      UpdateProfileEffect(env, s, t, userId, input, reply)
  {
    if userId in s.users {
      NewProfileHolds(env, s.users[userId], input, draw);
      ProfileIsReadBack(env, userId, WithProfile(env, s.users[userId], TrimmedProfile(env, input), draw));
    }
  }

  ghost predicate ChangeEmailEffect(
    env: Env, s: State, t: State, userId: string, current: Bytes, input: Bytes, reply: Reply)
  {
    var email := env.normalizeEmail(input);
    if userId == "" || !Addressable(env, email) || |current| == 0 || |current| > 128 then
      t == s && reply == Failed(InvalidInput)
    else if !ActiveUser(s.users, userId) then t == s && reply == Failed(Unauthorized)
    else if !env.verify(current, s.users[userId].passwordHash) then t == s && reply == Failed(InvalidCurrentPassword)
    else if Occupied(s.users, env.lookup(email), Some(userId)) then t == s && reply == Failed(EmailAlreadyExists)
    else
      && t == s.(users := t.users) && OnlyRow(s.users, t.users, userId)
      && var row := t.users[userId];
         && row == s.users[userId].(email := row.email, lookup := env.lookup(email))
         && env.decrypt(row.email, "users.email") == Some(email)
         && ReadBack(env, userId, row, reply)
  }

  lemma ChangeEmailDoes(env: Env, s: State, userId: string, current: Bytes, input: Bytes, draw: Draw)
    requires Reliable(env)
    ensures
      var (t, reply) := DoChangeEmail(env, s, userId, current, input, draw);
      ChangeEmailEffect(env, s, t, userId, current, input, reply)
  {
    OccupiedIsTaken(s.users, env.lookup(env.normalizeEmail(input)), Some(userId));
  }

  // ----- ResetPassword and ChangePassword -----

  /** Only the hash of that user's row changes, and the password matches it. */
  ghost predicate PasswordStored(env: Env, before: Users, after: Users, userId: string, password: Bytes) {
    && after.Keys == before.Keys && (forall id :: id in before && id != userId ==> after[id] == before[id])
    && (userId in before ==>
          && after[userId] == before[userId].(passwordHash := after[userId].passwordHash)
          && env.verify(password, after[userId].passwordHash))
  }

  /** The user's unused tokens are used now; every other row stays. */
  ghost predicate TokensUsed(before: Resets, after: Resets, userId: string, now: Time) {
    && after.Keys == before.Keys
    && forall h :: h in before ==>
         after[h] == if before[h].userId == userId && before[h].usedAt.None?
                     then before[h].(usedAt := Some(now)) else before[h]
  }

  /** Sessions of others and the kept one stay; the user's other unrevoked sessions are revoked now. */
  ghost predicate SessionsCut(before: Sessions, after: Sessions, userId: string, kept: Option<string>, now: Time) {
    && after.Keys == before.Keys
    && (forall h :: h in before && before[h].userId != userId ==> after[h] == before[h])
    && (forall h :: h in before && before[h].revokedAt.Some? ==> after[h] == before[h])
    && (forall h :: h in before && before[h].userId == userId && before[h].revokedAt.None? ==>
          && after[h] == before[h].(revokedAt := after[h].revokedAt)
          && (after[h].revokedAt.Some? <==> kept != Some(h))
          && (after[h].revokedAt.Some? ==> after[h].revokedAt == Some(now)))
  }

  ghost predicate NewPasswordEffect(
    env: Env, s: State, t: State, userId: string, kept: Option<string>, password: Bytes, reply: Reply)
  {
    && reply == Done && t.now == s.now && t.attempts == s.attempts
    && PasswordStored(env, s.users, t.users, userId, password)
    && TokensUsed(s.resets, t.resets, userId, s.now)
    && SessionsCut(s.sessions, t.sessions, userId, kept, s.now)
  }

  /** Redeems exactly an unused token, strictly before it expires. */
  ghost predicate ResetPasswordEffect(env: Env, s: State, t: State, token: string, password: Bytes, reply: Reply) {
    var hash := env.hashToken(token);
    if Text.ByteLength(token) < 32 then t == s && reply == Failed(InvalidResetToken)
    else if !PasswordFits(env, password) then t == s && reply == Failed(InvalidInput)
    else if !(hash in s.resets && s.resets[hash].usedAt == None && s.now < s.resets[hash].expiresAt) then
      t == s && reply == Failed(InvalidResetToken)
    else NewPasswordEffect(env, s, t, s.resets[hash].userId, None, password, reply)
  }

  ghost predicate ChangePasswordEffect(
    env: Env, s: State, t: State, userId: string, token: string, current: Bytes, password: Bytes, reply: Reply)
  {
    if userId == "" || token == "" || |current| == 0 || |current| > 128 || !PasswordFits(env, password) then
      t == s && reply == Failed(InvalidInput)
    else if !ActiveUser(s.users, userId) then t == s && reply == Failed(Unauthorized)
    else if !env.verify(current, s.users[userId].passwordHash) then t == s && reply == Failed(InvalidCurrentPassword)
    else NewPasswordEffect(env, s, t, userId, Some(env.hashToken(token)), password, reply)
  }

  lemma ReplacingStores(env: Env, users: Users, userId: string, password: Bytes, draw: Draw)
    requires Reliable(env)
    ensures PasswordStored(env, users, WithPassword(env, users, userId, password, draw), userId, password)
  {
  }

  lemma UsingUses(resets: Resets, userId: string, now: Time)
    ensures TokensUsed(resets, UseResets(resets, userId, now), userId, now)
  {
  }

  lemma RevokingCuts(sessions: Sessions, userId: string, kept: Option<string>, now: Time)
    ensures SessionsCut(sessions, RevokeSessions(sessions, userId, kept, now), userId, kept, now)
  {
  }

  lemma ResetPasswordDoes(env: Env, s: State, token: string, password: Bytes, draw: Draw)
    requires Reliable(env)
    ensures
      var (t, reply) := DoResetPassword(env, s, token, password, draw);
      ResetPasswordEffect(env, s, t, token, password, reply)
  {
    var hash := env.hashToken(token);
    if hash in s.resets {
      var userId := s.resets[hash].userId;
      ReplacingStores(env, s.users, userId, password, draw);
      UsingUses(s.resets, userId, s.now);
      RevokingCuts(s.sessions, userId, None, s.now);
    }
  }

  lemma ChangePasswordDoes(
    env: Env, s: State, userId: string, token: string, current: Bytes, password: Bytes, draw: Draw)
    requires Reliable(env)
    ensures
      var (t, reply) := DoChangePassword(env, s, userId, token, current, password, draw);
      ChangePasswordEffect(env, s, t, userId, token, current, password, reply)
  {
    ReplacingStores(env, s.users, userId, password, draw);
    UsingUses(s.resets, userId, s.now);
    RevokingCuts(s.sessions, userId, Some(env.hashToken(token)), s.now);
  }

  /** Everybody else stays logged in: a token of another user's session authenticates as before. */
  lemma OthersStayLoggedIn(
    env: Env, s: State, t: State, userId: string, kept: Option<string>, password: Bytes, reply: Reply, token: string)
    requires NewPasswordEffect(env, s, t, userId, kept, password, reply)
    requires env.hashToken(token) in s.sessions && s.sessions[env.hashToken(token)].userId != userId
    ensures DoAuthenticate(env, t, token) == DoAuthenticate(env, s, token)
  {
  }

  /** So does the session that the password was changed from. */
  lemma OwnSessionStays(
    env: Env, s: State, t: State, userId: string, password: Bytes, reply: Reply, token: string)
    requires NewPasswordEffect(env, s, t, userId, Some(env.hashToken(token)), password, reply)
    ensures DoAuthenticate(env, t, token) == DoAuthenticate(env, s, token)
  {
  }

  // ----- RequestPasswordReset -----

  const ONE_MINUTE: Time := 60_000_000

  /** A live token of the user, less than a minute old. */
  predicate RecentToken(resets: Resets, userId: string, now: Time) {
    exists h :: h in resets && resets[h].userId == userId && resets[h].usedAt == None
                && now < resets[h].expiresAt && now < resets[h].createdAt + ONE_MINUTE
  }

  /** The user's older tokens are used and one new one stands. */
  ghost predicate TokenIssued(env: Env, before: Resets, after: Resets, userId: string, hash: string, now: Time) {
    && hash !in before && after.Keys == before.Keys + {hash}
    && after[hash] == ResetRow(userId, now, now + env.resetTtl, None)
    && TokensUsed(before, after - {hash}, userId, now)
  }

  ghost predicate RequestResetEffect(env: Env, s: State, t: State, input: Bytes, draw: Draw, reply: Reply) {
    var email, hash := env.normalizeEmail(input), env.hashToken(draw.token);
    && t == s.(resets := t.resets)
    && if !Addressable(env, email) || !exists id :: ActiveUser(s.users, id) && s.users[id].lookup == env.lookup(email)
       then t == s && reply == Done
       else
         forall id :: ActiveUser(s.users, id) && s.users[id].lookup == env.lookup(email) ==>
           if RecentToken(s.resets, id, s.now) then t == s && reply == Done
           else if hash in s.resets then t == s && reply == Failed(Internal)
           else TokenIssued(env, s.resets, t.resets, id, hash, s.now) && reply == Done
  }

  lemma RecentIsRecent(resets: Resets, userId: string, now: Time)
    ensures RecentToken(resets, userId, now) == RecentlyRequested(resets, userId, now)
  {
  }

  lemma IssueDoes(env: Env, now: Time, resets: Resets, userId: string, draw: Draw)
    requires !RecentToken(resets, userId, now) && env.hashToken(draw.token) !in resets
    ensures
      var (after, reply) := IssueReset(env, now, resets, Some(userId), draw);
      TokenIssued(env, resets, after, userId, env.hashToken(draw.token), now) && reply == Done
  {
    RecentIsRecent(resets, userId, now);
    var used, hash := UseResets(resets, userId, now), env.hashToken(draw.token);
    UsingUses(resets, userId, now);
    assert used[hash := ResetRow(userId, now, now + env.resetTtl, None)] - {hash} == used;
  }

  lemma RequestResetDoes(env: Env, s: State, input: Bytes, draw: Draw)
    requires UniqueLookups(s.users)
    ensures
      var (t, reply) := DoRequestReset(env, s, input, draw);
      RequestResetEffect(env, s, t, input, draw, reply)
  {
    var email, hash := env.normalizeEmail(input), env.hashToken(draw.token);
    var found := FindUser(s.users, env.lookup(email));
    forall id | ActiveUser(s.users, id) && s.users[id].lookup == env.lookup(email)
      ensures found == Some(id)
    {
      assert FoundBy(s.users, id, env.lookup(email));
    }
    if found.Some? {
      RecentIsRecent(s.resets, found.value, s.now);
      if !RecentToken(s.resets, found.value, s.now) && hash !in s.resets {
        IssueDoes(env, s.now, s.resets, found.value, draw);
      }
    }
  }

  /** A failed mail takes back that token and nothing else. */
  ghost predicate MailFailedEffect(env: Env, s: State, t: State, token: string) {
    && t == s.(resets := t.resets) && t.resets.Keys == s.resets.Keys - {env.hashToken(token)}
    && forall h :: h in t.resets ==> t.resets[h] == s.resets[h]
  }

  lemma MailFailedDoes(env: Env, s: State, token: string)
    ensures MailFailedEffect(env, s, DoMailFailed(env, s, token), token)
  {
  }

  /** The whole call, with its mail: a token whose mail fails is issued and taken back. */
  ghost predicate RequestEffect(
    env: Env, s: State, t: State, input: Bytes, sent: bool, draw: Draw, reply: Reply)
  {
    if sent || env.hashToken(draw.token) in s.resets then RequestResetEffect(env, s, t, input, draw, reply)
    else
      exists issued: State, first: Reply ::
        && RequestResetEffect(env, s, issued, input, draw, first)
        && if env.hashToken(draw.token) in issued.resets
           then MailFailedEffect(env, issued, t, draw.token) && reply == Failed(Internal)
           else t == issued && reply == first
  }

  /** Both outcomes of the mail, and the foreign keys. */
  lemma RequestDoes(env: Env, s: State, input: Bytes, sent: bool, draw: Draw)
    requires Consistent(s)
    ensures
      var (issued, reply) := DoRequestReset(env, s, input, draw);
      var failed := DoMailFailed(env, issued, draw.token);
      && Consistent(issued) && Consistent(failed)
      && (if sent || !MailDue(env, s, input, draw) then RequestEffect(env, s, issued, input, sent, draw, reply)
          else RequestEffect(env, s, failed, input, sent, draw, Failed(Internal)))
  {
    var (issued, reply) := DoRequestReset(env, s, input, draw);
    RequestResetDoes(env, s, input, draw);
    RequestResetConsistent(env, s, input, draw);
    MailFailedDoes(env, issued, draw.token);
  }
}
