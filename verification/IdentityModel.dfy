/**
 Accounts, sessions, reset tokens and login attempts as PostgreSQL tables. Each call is one atomic step:
 it reads the clock and the tables, and returns the new tables and the reply. Randomness, hashing,
 encryption and the Unicode-aware checks are parameters of the step.
 */
module IdentityModel {
  import opened Common
  import DataProtector
  import PasswordHash
  import Text
  import Throttle

  // ----- Surroundings -----

  /** The primitives, the operations built from them, and the checks of libraries outside this model. */
  datatype Env = Env(
    aead: DataProtector.Aead,
    argon: PasswordHash.Argon,
    encrypt: (DataProtector.Nonce, Bytes, string) -> string,
    decrypt: (string, string) -> Option<Bytes>,
    hashPassword: (Bytes, PasswordHash.Salt) -> string,
    verify: (Bytes, string) -> bool,
    lookup: Bytes -> Bytes,
    hashToken: string -> string,
    normalizeEmail: Bytes -> Bytes,
    trim: Bytes -> Bytes,
    isAddress: Bytes -> bool,
    runeCount: Bytes -> nat,
    normalizeIp: string -> string,
    dummyHash: string,
    sessionTtl: Time,
    resetTtl: Time)
  {
    /** The four operations are those of modules DataProtector and PasswordHash; a parse error verifies nothing. */
    ghost predicate Implemented() {
      && (forall n: DataProtector.Nonce, v: Bytes, f: string :: encrypt(n, v, f) == DataProtector.Encrypt(aead, n, v, f))
      && (forall c: string, f: string :: decrypt(c, f) == DataProtector.Decrypt(aead, c, f))
      && (forall pw: Bytes, salt: PasswordHash.Salt ::
            hashPassword(pw, salt) == PasswordHash.HashPassword(argon, pw, salt))
      && (forall pw: Bytes, h: string :: verify(pw, h) == (PasswordHash.VerifyPassword(argon, pw, h) == Some(true)))
    }

    /** The laws assumed of the primitives, and the reset TTL that NewService insists on. */
    ghost predicate Lawful() {
      && Implemented()
      && aead.Lawful()
      && PasswordHash.Lawful(argon)
      && (forall a: Bytes, b: Bytes :: ValidEmail(a) && ValidEmail(b) && lookup(a) == lookup(b) ==> a == b)
      && (forall s: Bytes :: runeCount(s) <= |s|)
      && resetTtl > 0
    }

    predicate ValidName(name: Bytes) { 1 <= runeCount(name) <= 80 }

    predicate ValidEmail(email: Bytes) { |email| <= 254 && 13 !in email && 10 !in email && isAddress(email) }

    predicate ValidPassword(password: Bytes) { 12 <= runeCount(password) <= 128 }

    /** The byte-length check on passwords that are to be verified. */
    predicate Presentable(password: Bytes) { 0 < |password| <= 128 }
  }

  /** What one call draws at random. */
  datatype Draw = Draw(
    id: string,
    token: string,
    salt: PasswordHash.Salt,
    emailNonce: DataProtector.Nonce,
    firstNameNonce: DataProtector.Nonce,
    lastNameNonce: DataProtector.Nonce,
    phoneNonce: DataProtector.Nonce)

  // ----- What the laws give, one fact at a time -----

  ghost predicate SelfVerifying(env: Env) {
    forall pw: Bytes, salt: PasswordHash.Salt :: env.verify(pw, env.hashPassword(pw, salt))
  }

  lemma LawfulVerifiesItself(env: Env)
    requires env.Lawful()
    ensures SelfVerifying(env)
  {
    forall pw: Bytes, salt: PasswordHash.Salt
      ensures env.verify(pw, env.hashPassword(pw, salt))
    {
      PasswordHash.HashRoundTrip(env.argon, pw, salt);
    }
  }

  // ----- Tables -----

  datatype UserRow = UserRow(
    email: string,
    lookup: Bytes,
    passwordHash: string,
    firstName: string,
    lastName: string,
    phone: Option<string>,
    role: string,
    active: bool,
    deleted: bool)
  {
    predicate Live() { active && !deleted }
  }

  datatype SessionRow = SessionRow(userId: string, expiresAt: Time, revokedAt: Option<Time>)

  datatype ResetRow = ResetRow(userId: string, createdAt: Time, expiresAt: Time, usedAt: Option<Time>)

  type Users = map<string, UserRow>
  type Sessions = map<string, SessionRow>
  type Resets = map<string, ResetRow>
  type Attempts = map<Throttle.Key, Throttle.Attempt>

  datatype State = State(now: Time, users: Users, sessions: Sessions, resets: Resets, attempts: Attempts)

  function Empty(now: Time): State {
    State(now, map[], map[], map[], map[])
  }

  // ----- Calls and replies -----

  datatype User = User(id: string, email: Bytes, firstName: Bytes, lastName: Bytes, phone: Bytes, role: string)

  datatype Fault =
    | InvalidInput | EmailAlreadyExists | InvalidCredentials | TooManyAttempts
    | Unauthorized | InvalidResetToken | InvalidCurrentPassword | Internal

  datatype Reply =
    | Done
    | SignedIn(user: User, token: string, expiresAt: Time)
    | Profile(user: User)
    | Failed(fault: Fault)

  datatype Registration = Registration(firstName: Bytes, lastName: Bytes, email: Bytes, phone: Bytes, password: Bytes)

  datatype Credentials = Credentials(email: Bytes, password: Bytes, ip: string)

  datatype ProfileUpdate = ProfileUpdate(firstName: Bytes, lastName: Bytes, phone: Bytes)

  datatype Call =
    | Wait(delay: nat)
    | Register(registration: Registration, draw: Draw)
    | Login(credentials: Credentials, work: nat, draw: Draw)  // work: time spent verifying the password
    | Authenticate(token: string)
    | UpdateProfile(userId: string, profile: ProfileUpdate, draw: Draw)
    | Logout(token: string)
    | RequestReset(email: Bytes, draw: Draw)                  // up to the commit of the new token
    | MailFailed(token: string)                               // sending failed: the token row is deleted
    | ResetPassword(token: string, password: Bytes, draw: Draw)
    | ChangePassword(userId: string, sessionToken: string, current: Bytes, password: Bytes, draw: Draw)
    | ChangeEmail(userId: string, current: Bytes, email: Bytes, draw: Draw)

  // ----- Statements -----

  predicate UsesLookup(users: Users, id: string, lookup: Bytes) {
    id in users && users[id].lookup == lookup && !users[id].deleted
  }

  /** The unique index refuses a lookup that another row than `own` holds. */
  predicate LookupTaken(users: Users, lookup: Bytes, own: Option<string>) {
    exists id :: id in users && own != Some(id) && UsesLookup(users, id, lookup)
  }

  /** The unique index over the lookups of users that are not deleted. */
  predicate UniqueLookups(users: Users) {
    forall a, b ::
      (a in users && b in users && !users[a].deleted && !users[b].deleted && users[a].lookup == users[b].lookup)
      ==> a == b
  }

  predicate FoundBy(users: Users, id: string, lookup: Bytes) {
    UsesLookup(users, id, lookup) && users[id].active
  }

  ghost function FindUser(users: Users, lookup: Bytes): (r: Option<string>)
    ensures match r case Some(id) => FoundBy(users, id, lookup) case None => forall id :: !FoundBy(users, id, lookup)
  {
    if exists id :: FoundBy(users, id, lookup) then
      var id :| FoundBy(users, id, lookup);
      Some(id)
    else None
  }

  function RevokeSessions(sessions: Sessions, userId: string, kept: Option<string>, now: Time): Sessions {
    map h | h in sessions ::
      if sessions[h].userId == userId && kept != Some(h) && sessions[h].revokedAt.None?
      then sessions[h].(revokedAt := Some(now)) else sessions[h]
  }

  function UseResets(resets: Resets, userId: string, now: Time): Resets {
    map h | h in resets ::
      if resets[h].userId == userId && resets[h].usedAt.None?
      then resets[h].(usedAt := Some(now)) else resets[h]
  }

  const COOLDOWN: Time := MINUTE

  predicate RecentlyRequested(resets: Resets, userId: string, now: Time) {
    exists h :: h in resets && resets[h].userId == userId && resets[h].usedAt.None?
                && resets[h].expiresAt > now && resets[h].createdAt > now - COOLDOWN
  }

  predicate Redeemable(resets: Resets, hash: string, now: Time) {
    hash in resets && resets[hash].usedAt.None? && resets[hash].expiresAt > now
  }

  function EncryptOptional(env: Env, nonce: DataProtector.Nonce, value: Bytes, field: string): Option<string> {
    if value == [] then None else Some(env.encrypt(nonce, value, field))
  }

  function DecryptUser(env: Env, id: string, row: UserRow): Option<User> {
    var email := env.decrypt(row.email, "users.email");
    var firstName := env.decrypt(row.firstName, "users.first_name");
    var lastName := env.decrypt(row.lastName, "users.last_name");
    var phone := if row.phone.None? then Some([]) else env.decrypt(row.phone.value, "users.phone");
    if email.None? || firstName.None? || lastName.None? || phone.None? then None
    else Some(User(id, email.value, firstName.value, lastName.value, phone.value, row.role))
  }

  function ProfileReply(env: Env, id: string, row: UserRow): Reply {
    match DecryptUser(env, id, row)
    case None => Failed(Internal)
    case Some(user) => Profile(user)
  }

  // ----- Calls -----

  function TrimmedRegistration(env: Env, r: Registration): Registration {
    Registration(env.trim(r.firstName), env.trim(r.lastName), env.normalizeEmail(r.email), env.trim(r.phone), r.password)
  }

  predicate ValidRegistration(env: Env, r: Registration) {
    && env.ValidName(r.firstName) && env.ValidName(r.lastName) && env.ValidEmail(r.email)
    && env.ValidPassword(r.password) && env.runeCount(r.phone) <= 40
  }

  function NewUserRow(env: Env, r: Registration, draw: Draw): UserRow {
    UserRow(
      env.encrypt(draw.emailNonce, r.email, "users.email"),
      env.lookup(r.email),
      env.hashPassword(r.password, draw.salt),
      env.encrypt(draw.firstNameNonce, r.firstName, "users.first_name"),
      env.encrypt(draw.lastNameNonce, r.lastName, "users.last_name"),
      EncryptOptional(env, draw.phoneNonce, r.phone, "users.phone"),
      "customer", true, false)
  }

  function DoRegister(env: Env, s: State, input: Registration, draw: Draw): (State, Reply) {
    var r := TrimmedRegistration(env, input);
    var hash := env.hashToken(draw.token);
    if !ValidRegistration(env, r) then (s, Failed(InvalidInput))
    else if draw.id in s.users || LookupTaken(s.users, env.lookup(r.email), None) then
      (s, Failed(EmailAlreadyExists))
    else if hash in s.sessions then (s, Failed(Internal))
    else
      (s.(users := s.users[draw.id := NewUserRow(env, r, draw)],
          sessions := s.sessions[hash := SessionRow(draw.id, s.now + env.sessionTtl, None)]),
       SignedIn(User(draw.id, r.email, r.firstName, r.lastName, r.phone, "customer"), draw.token, s.now + env.sessionTtl))
  }

  function LoginKey(env: Env, c: Credentials): Throttle.Key {
    (env.lookup(env.normalizeEmail(c.email)), env.normalizeIp(c.ip))
  }

  predicate WellFormed(env: Env, c: Credentials) {
    env.ValidEmail(env.normalizeEmail(c.email)) && env.Presentable(c.password)
  }

  predicate Gated(env: Env, s: State, c: Credentials) {
    Throttle.Blocked(Lookup(s.attempts, LoginKey(env, c)), s.now)
  }

  /** A login past the gate; the clock has moved on by the time the password is verified. */
  function DoVerify(env: Env, s: State, key: Throttle.Key, found: Option<string>, password: Bytes, work: nat, draw: Draw)
    : (State, Reply)
    requires found.Some? ==> found.value in s.users
  {
    var hash := env.hashToken(draw.token);
    var t := s.(now := s.now + work);
    if !env.verify(password, if found.Some? then s.users[found.value].passwordHash else env.dummyHash) || found.None? then
      (t.(attempts := s.attempts[key := Throttle.Recorded(Lookup(s.attempts, key), t.now)]), Failed(InvalidCredentials))
    else
      match DecryptUser(env, found.value, s.users[found.value])
      case None => (t, Failed(Internal))
      case Some(user) =>
        if hash in s.sessions then (t, Failed(Internal))
        else
          (t.(attempts := s.attempts - {key},
              sessions := s.sessions[hash := SessionRow(user.id, t.now + env.sessionTtl, None)]),
           SignedIn(user, draw.token, t.now + env.sessionTtl))
  }

  ghost function DoLogin(env: Env, s: State, c: Credentials, work: nat, draw: Draw): (State, Reply) {
    var key := LoginKey(env, c);
    if !WellFormed(env, c) then (s, Failed(InvalidCredentials))
    else if Gated(env, s, c) then (s, Failed(TooManyAttempts))
    else DoVerify(env, s, key, FindUser(s.users, key.0), c.password, work, draw)
  }

  predicate LiveUser(s: State, id: string) {
    id in s.users && s.users[id].Live()
  }

  predicate LiveSession(s: State, hash: string) {
    && hash in s.sessions && s.sessions[hash].revokedAt.None? && s.sessions[hash].expiresAt > s.now
    && LiveUser(s, s.sessions[hash].userId)
  }

  function DoAuthenticate(env: Env, s: State, token: string): Reply {
    var hash := env.hashToken(token);
    if token == "" || !LiveSession(s, hash) then Failed(Unauthorized)
    else ProfileReply(env, s.sessions[hash].userId, s.users[s.sessions[hash].userId])
  }

  function TrimmedProfile(env: Env, p: ProfileUpdate): ProfileUpdate {
    ProfileUpdate(env.trim(p.firstName), env.trim(p.lastName), env.trim(p.phone))
  }

  predicate ValidProfile(env: Env, p: ProfileUpdate) {
    env.ValidName(p.firstName) && env.ValidName(p.lastName) && env.runeCount(p.phone) <= 40
  }

  function WithProfile(env: Env, row: UserRow, p: ProfileUpdate, draw: Draw): UserRow {
    row.(firstName := env.encrypt(draw.firstNameNonce, p.firstName, "users.first_name"),
         lastName := env.encrypt(draw.lastNameNonce, p.lastName, "users.last_name"),
         phone := EncryptOptional(env, draw.phoneNonce, p.phone, "users.phone"))
  }

  function DoUpdateProfile(env: Env, s: State, userId: string, input: ProfileUpdate, draw: Draw): (State, Reply) {
    var p := TrimmedProfile(env, input);
    if userId == "" || !ValidProfile(env, p) then (s, Failed(InvalidInput))
    else if !LiveUser(s, userId) then (s, Failed(Unauthorized))
    else
      var row := WithProfile(env, s.users[userId], p, draw);
      (s.(users := s.users[userId := row]), ProfileReply(env, userId, row))
  }

  function DoLogout(env: Env, s: State, token: string): State {
    var hash := env.hashToken(token);
    if token == "" || hash !in s.sessions || s.sessions[hash].revokedAt.Some? then s
    else s.(sessions := s.sessions[hash := s.sessions[hash].(revokedAt := Some(s.now))])
  }

  /** The transaction behind a reset request, once the account is looked up. */
  function IssueReset(env: Env, now: Time, resets: Resets, found: Option<string>, draw: Draw): (Resets, Reply) {
    var hash := env.hashToken(draw.token);
    if found.None? || RecentlyRequested(resets, found.value, now) then (resets, Done)
    else if hash in resets then (resets, Failed(Internal))
    else
      (UseResets(resets, found.value, now)[hash := ResetRow(found.value, now, now + env.resetTtl, None)], Done)
  }

  ghost function DoRequestReset(env: Env, s: State, input: Bytes, draw: Draw): (State, Reply) {
    var email := env.normalizeEmail(input);
    if !env.ValidEmail(email) then (s, Done)
    else
      var (resets, reply) := IssueReset(env, s.now, s.resets, FindUser(s.users, env.lookup(email)), draw);
      (s.(resets := resets), reply)
  }

  /** The request got as far as storing a new token, so that a mail is due. */
  ghost predicate MailDue(env: Env, s: State, input: Bytes, draw: Draw) {
    env.hashToken(draw.token) !in s.resets && env.hashToken(draw.token) in DoRequestReset(env, s, input, draw).0.resets
  }

  function DoMailFailed(env: Env, s: State, token: string): State {
    s.(resets := s.resets - {env.hashToken(token)})
  }

  function DoResetPassword(env: Env, s: State, token: string, password: Bytes, draw: Draw): (State, Reply) {
    var hash := env.hashToken(token);
    if Text.ByteLength(token) < 32 then (s, Failed(InvalidResetToken))
    else if !env.ValidPassword(password) then (s, Failed(InvalidInput))
    else if !Redeemable(s.resets, hash, s.now) then (s, Failed(InvalidResetToken))
    else
      var userId := s.resets[hash].userId;
      (s.(users := WithPassword(env, s.users, userId, password, draw),
          resets := UseResets(s.resets, userId, s.now),
          sessions := RevokeSessions(s.sessions, userId, None, s.now)),
       Done)
  }

  function WithPassword(env: Env, users: Users, userId: string, password: Bytes, draw: Draw): Users {
    if userId in users
    then users[userId := users[userId].(passwordHash := env.hashPassword(password, draw.salt))]
    else users
  }

  function DoChangePassword(
    env: Env, s: State, userId: string, sessionToken: string, current: Bytes, password: Bytes, draw: Draw): (State, Reply)
  {
    if userId == "" || sessionToken == "" || !env.Presentable(current) || !env.ValidPassword(password) then
      (s, Failed(InvalidInput))
    else if !LiveUser(s, userId) then (s, Failed(Unauthorized))
    else if !env.verify(current, s.users[userId].passwordHash) then (s, Failed(InvalidCurrentPassword))
    else
      (s.(users := WithPassword(env, s.users, userId, password, draw),
          resets := UseResets(s.resets, userId, s.now),
          sessions := RevokeSessions(s.sessions, userId, Some(env.hashToken(sessionToken)), s.now)),
       Done)
  }

  function DoChangeEmail(env: Env, s: State, userId: string, current: Bytes, input: Bytes, draw: Draw): (State, Reply) {
    var email := env.normalizeEmail(input);
    if userId == "" || !env.ValidEmail(email) || !env.Presentable(current) then (s, Failed(InvalidInput))
    else if !LiveUser(s, userId) then (s, Failed(Unauthorized))
    else if !env.verify(current, s.users[userId].passwordHash) then (s, Failed(InvalidCurrentPassword))
    else if LookupTaken(s.users, env.lookup(email), Some(userId)) then
      (s, Failed(EmailAlreadyExists))
    else
      var row := s.users[userId].(
        email := env.encrypt(draw.emailNonce, email, "users.email"), lookup := env.lookup(email));
      (s.(users := s.users[userId := row]), ProfileReply(env, userId, row))
  }

  // ----- The machine -----

  ghost function Step(env: Env, s: State, call: Call): (State, Reply) {
    match call
    case Wait(delay) => (s.(now := s.now + delay), Done)
    case Register(registration, draw) => DoRegister(env, s, registration, draw)
    case Login(credentials, work, draw) => DoLogin(env, s, credentials, work, draw)
    case Authenticate(token) => (s, DoAuthenticate(env, s, token))
    case UpdateProfile(userId, profile, draw) => DoUpdateProfile(env, s, userId, profile, draw)
    case Logout(token) => (DoLogout(env, s, token), Done)
    case RequestReset(email, draw) => DoRequestReset(env, s, email, draw)
    case MailFailed(token) => (DoMailFailed(env, s, token), Failed(Internal))
    case ResetPassword(token, password, draw) => DoResetPassword(env, s, token, password, draw)
    case ChangePassword(userId, sessionToken, current, password, draw) =>
      DoChangePassword(env, s, userId, sessionToken, current, password, draw)
    case ChangeEmail(userId, current, email, draw) => DoChangeEmail(env, s, userId, current, email, draw)
  }

  ghost function Run(env: Env, s: State, calls: seq<Call>): State
    decreases |calls|
  {
    if calls == [] then s else Run(env, Step(env, s, calls[0]).0, calls[1..])
  }

  ghost function Replies(env: Env, s: State, calls: seq<Call>): seq<Reply>
    decreases |calls|
  {
    if calls == [] then []
    else [Step(env, s, calls[0]).1] + Replies(env, Step(env, s, calls[0]).0, calls[1..])
  }

  // ----- What the database keeps -----

  /** The unique index, the foreign keys and the clock. */
  ghost predicate Consistent(s: State) {
    UniqueLookups(s.users) && OwnersExist(s)
  }

  ghost predicate OwnersExist(s: State) {
    && (forall h :: h in s.sessions ==> s.sessions[h].userId in s.users)
    && (forall h :: h in s.resets ==> s.resets[h].userId in s.users && s.resets[h].createdAt <= s.now)
  }

  lemma RegisterConsistent(env: Env, s: State, input: Registration, draw: Draw)
    requires Consistent(s)
    ensures Consistent(DoRegister(env, s, input, draw).0)
  {
  }

  lemma VerifyConsistent(
    env: Env, s: State, key: Throttle.Key, found: Option<string>, password: Bytes, work: nat, draw: Draw)
    requires Consistent(s) && (found.Some? ==> found.value in s.users)
    ensures Consistent(DoVerify(env, s, key, found, password, work, draw).0)
  {
  }

  lemma LoginConsistent(env: Env, s: State, c: Credentials, work: nat, draw: Draw)
    requires Consistent(s)
    ensures Consistent(DoLogin(env, s, c, work, draw).0)
  {
    var key := LoginKey(env, c);
    VerifyConsistent(env, s, key, FindUser(s.users, key.0), c.password, work, draw);
  }

  lemma RequestResetConsistent(env: Env, s: State, input: Bytes, draw: Draw)
    requires Consistent(s)
    ensures Consistent(DoRequestReset(env, s, input, draw).0)
  {
  }

  lemma NewPasswordConsistent(env: Env, s: State, userId: string, password: Bytes, draw: Draw)
    requires Consistent(s)
    ensures Consistent(s.(users := WithPassword(env, s.users, userId, password, draw)))
  {
  }

  lemma RevokingConsistent(s: State, userId: string, kept: Option<string>)
    requires Consistent(s)
    ensures Consistent(s.(resets := UseResets(s.resets, userId, s.now),
                          sessions := RevokeSessions(s.sessions, userId, kept, s.now)))
  {
  }

  lemma ResetPasswordConsistent(env: Env, s: State, token: string, password: Bytes, draw: Draw)
    requires Consistent(s)
    ensures Consistent(DoResetPassword(env, s, token, password, draw).0)
  {
    var hash := env.hashToken(token);
    if hash in s.resets {
      var userId := s.resets[hash].userId;
      NewPasswordConsistent(env, s, userId, password, draw);
      RevokingConsistent(s.(users := WithPassword(env, s.users, userId, password, draw)), userId, None);
    }
  }

  lemma ChangePasswordConsistent(
    env: Env, s: State, userId: string, sessionToken: string, current: Bytes, password: Bytes, draw: Draw)
    requires Consistent(s)
    ensures Consistent(DoChangePassword(env, s, userId, sessionToken, current, password, draw).0)
  {
    NewPasswordConsistent(env, s, userId, password, draw);
    RevokingConsistent(s.(users := WithPassword(env, s.users, userId, password, draw)),
                       userId, Some(env.hashToken(sessionToken)));
  }

  lemma LogoutConsistent(env: Env, s: State, token: string)
    requires Consistent(s)
    ensures Consistent(DoLogout(env, s, token))
  {
  }

  lemma ChangeEmailConsistent(env: Env, s: State, userId: string, current: Bytes, input: Bytes, draw: Draw)
    requires Consistent(s)
    ensures Consistent(DoChangeEmail(env, s, userId, current, input, draw).0)
  {
  }

  lemma UpdateProfileConsistent(env: Env, s: State, userId: string, input: ProfileUpdate, draw: Draw)
    requires Consistent(s)
    ensures Consistent(DoUpdateProfile(env, s, userId, input, draw).0)
  {
  }

  lemma StepConsistent(env: Env, s: State, call: Call)
    requires Consistent(s)
    ensures Consistent(Step(env, s, call).0)
    ensures s.now <= Step(env, s, call).0.now
  {
    StepAdvances(env, s, call);
    StepKeepsConsistency(env, s, call);
  }

  lemma StepAdvances(env: Env, s: State, call: Call)
    ensures s.now <= Step(env, s, call).0.now
    ensures !call.Wait? && !call.Login? ==> Step(env, s, call).0.now == s.now
  {
  }

  lemma StepKeepsConsistency(env: Env, s: State, call: Call)
    requires Consistent(s)
    ensures Consistent(Step(env, s, call).0)
  {
    match call
    case Wait(delay) =>
    case Register(registration, draw) => RegisterConsistent(env, s, registration, draw);
    case Login(credentials, work, draw) => LoginConsistent(env, s, credentials, work, draw);
    case Authenticate(token) =>
    case UpdateProfile(userId, profile, draw) => UpdateProfileConsistent(env, s, userId, profile, draw);
    case Logout(token) => LogoutConsistent(env, s, token);
    case RequestReset(email, draw) => RequestResetConsistent(env, s, email, draw);
    case MailFailed(token) =>
    case ResetPassword(token, password, draw) => ResetPasswordConsistent(env, s, token, password, draw);
    case ChangePassword(userId, sessionToken, current, password, draw) =>
      ChangePasswordConsistent(env, s, userId, sessionToken, current, password, draw);
    case ChangeEmail(userId, current, email, draw) => ChangeEmailConsistent(env, s, userId, current, email, draw);
  }

  lemma {:induction false} RunAdvances(env: Env, s: State, calls: seq<Call>)
    ensures s.now <= Run(env, s, calls).now
    decreases |calls|
  {
    if calls != [] {
      StepAdvances(env, s, calls[0]);
      RunAdvances(env, Step(env, s, calls[0]).0, calls[1..]);
    }
  }

  lemma {:induction false} RunConsistent(env: Env, s: State, calls: seq<Call>)
    requires Consistent(s)
    ensures Consistent(Run(env, s, calls))
    ensures s.now <= Run(env, s, calls).now
    decreases |calls|
  {
    if calls != [] {
      StepConsistent(env, s, calls[0]);
      RunConsistent(env, Step(env, s, calls[0]).0, calls[1..]);
    }
  }
}
