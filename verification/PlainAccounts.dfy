/**
 The account store a reader has in mind: e-mails, names and passwords in the clear, accounts found by
 e-mail, throttling per (e-mail, IP). It knows no ciphertext, no blind index and no hash string.
 */
module PlainAccounts {
  import opened Common
  import opened IdentityModel
  import PasswordHash
  import Text
  import Throttle

  datatype Account = Account(
    email: Bytes,
    firstName: Bytes,
    lastName: Bytes,
    phone: Bytes,
    role: string,
    active: bool,
    deleted: bool,
    password: Bytes,
    salt: PasswordHash.Salt)
  {
    predicate Live() { active && !deleted }
  }

  type Accounts = map<string, Account>

  datatype Plain = Plain(now: Time, accounts: Accounts, sessions: Sessions, resets: Resets, attempts: Attempts)

  function EmptyPlain(now: Time): Plain {
    Plain(now, map[], map[], map[], map[])
  }

  function Digest(env: Env, password: Bytes, salt: PasswordHash.Salt): Bytes {
    env.argon(password, salt, PasswordHash.ITERATIONS, PasswordHash.MEMORY, PasswordHash.PARALLELISM, PasswordHash.KEY_LENGTH)
  }

  predicate Accepts(env: Env, account: Account, password: Bytes) {
    Digest(env, password, account.salt) == Digest(env, account.password, account.salt)
  }

  predicate HasEmail(accounts: Accounts, id: string, email: Bytes) {
    id in accounts && accounts[id].email == email && !accounts[id].deleted
  }

  predicate EmailTaken(accounts: Accounts, email: Bytes, own: Option<string>) {
    exists id :: id in accounts && own != Some(id) && HasEmail(accounts, id, email)
  }

  /** No two accounts share an e-mail. */
  ghost predicate UniqueEmails(accounts: Accounts) {
    forall a, b ::
      (a in accounts && b in accounts && !accounts[a].deleted && !accounts[b].deleted
       && accounts[a].email == accounts[b].email) ==> a == b
  }

  predicate KnownBy(accounts: Accounts, id: string, email: Bytes) {
    HasEmail(accounts, id, email) && accounts[id].active
  }

  ghost function FindAccount(accounts: Accounts, email: Bytes): (r: Option<string>)
    ensures match r case Some(id) => KnownBy(accounts, id, email) case None => forall id :: !KnownBy(accounts, id, email)
  {
    if exists id :: KnownBy(accounts, id, email) then
      var id :| KnownBy(accounts, id, email);
      Some(id)
    else None
  }

  function UserOf(id: string, a: Account): User {
    User(id, a.email, a.firstName, a.lastName, a.phone, a.role)
  }

  predicate LiveAccount(p: Plain, id: string) {
    id in p.accounts && p.accounts[id].Live()
  }

  function PlainRegister(env: Env, p: Plain, input: Registration, draw: Draw): (Plain, Reply) {
    var r := TrimmedRegistration(env, input);
    var hash := env.hashToken(draw.token);
    var account :=
      Account(r.email, r.firstName, r.lastName, r.phone, "customer", true, false, r.password, draw.salt);
    if !ValidRegistration(env, r) then (p, Failed(InvalidInput))
    else if draw.id in p.accounts || EmailTaken(p.accounts, r.email, None) then
      (p, Failed(EmailAlreadyExists))
    else if hash in p.sessions then (p, Failed(Internal))
    else
      (p.(accounts := p.accounts[draw.id := account],
          sessions := p.sessions[hash := SessionRow(draw.id, p.now + env.sessionTtl, None)]),
       SignedIn(UserOf(draw.id, account), draw.token, p.now + env.sessionTtl))
  }

  function PlainKey(env: Env, c: Credentials): Throttle.Key {
    (env.normalizeEmail(c.email), env.normalizeIp(c.ip))
  }

  ghost function PlainLogin(env: Env, p: Plain, c: Credentials, work: nat, draw: Draw): (Plain, Reply) {
    var key := PlainKey(env, c);
    var hash := env.hashToken(draw.token);
    if !WellFormed(env, c) then (p, Failed(InvalidCredentials))
    else if Throttle.Blocked(Lookup(p.attempts, key), p.now) then (p, Failed(TooManyAttempts))
    else
      var found := FindAccount(p.accounts, key.0);
      var q := p.(now := p.now + work);
      if found.None? || !Accepts(env, p.accounts[found.value], c.password) then
        (q.(attempts := p.attempts[key := Throttle.Recorded(Lookup(p.attempts, key), q.now)]), Failed(InvalidCredentials))
      else if hash in p.sessions then (q, Failed(Internal))
      else
        (q.(attempts := p.attempts - {key},
            sessions := p.sessions[hash := SessionRow(found.value, q.now + env.sessionTtl, None)]),
         SignedIn(UserOf(found.value, p.accounts[found.value]), draw.token, q.now + env.sessionTtl))
  }

  function PlainAuthenticate(env: Env, p: Plain, token: string): Reply {
    var hash := env.hashToken(token);
    if token == "" || hash !in p.sessions || p.sessions[hash].revokedAt.Some? || p.sessions[hash].expiresAt <= p.now
       || !LiveAccount(p, p.sessions[hash].userId) then Failed(Unauthorized)
    else Profile(UserOf(p.sessions[hash].userId, p.accounts[p.sessions[hash].userId]))
  }

  function PlainUpdateProfile(env: Env, p: Plain, userId: string, input: ProfileUpdate): (Plain, Reply) {
    var u := TrimmedProfile(env, input);
    if userId == "" || !ValidProfile(env, u) then (p, Failed(InvalidInput))
    else if !LiveAccount(p, userId) then (p, Failed(Unauthorized))
    else
      var account := p.accounts[userId].(firstName := u.firstName, lastName := u.lastName, phone := u.phone);
      (p.(accounts := p.accounts[userId := account]), Profile(UserOf(userId, account)))
  }

  function PlainLogout(env: Env, p: Plain, token: string): Plain {
    var hash := env.hashToken(token);
    if token == "" || hash !in p.sessions || p.sessions[hash].revokedAt.Some? then p
    else p.(sessions := p.sessions[hash := p.sessions[hash].(revokedAt := Some(p.now))])
  }

  ghost function PlainRequestReset(env: Env, p: Plain, input: Bytes, draw: Draw): (Plain, Reply) {
    var email := env.normalizeEmail(input);
    if !env.ValidEmail(email) then (p, Done)
    else
      var (resets, reply) := IssueReset(env, p.now, p.resets, FindAccount(p.accounts, email), draw);
      (p.(resets := resets), reply)
  }

  function NewPassword(accounts: Accounts, userId: string, password: Bytes, draw: Draw): Accounts {
    if userId in accounts then accounts[userId := accounts[userId].(password := password, salt := draw.salt)]
    else accounts
  }

  function PlainResetPassword(env: Env, p: Plain, token: string, password: Bytes, draw: Draw): (Plain, Reply) {
    var hash := env.hashToken(token);
    if Text.ByteLength(token) < 32 then (p, Failed(InvalidResetToken))
    else if !env.ValidPassword(password) then (p, Failed(InvalidInput))
    else if !Redeemable(p.resets, hash, p.now) then (p, Failed(InvalidResetToken))
    else
      var userId := p.resets[hash].userId;
      (p.(accounts := NewPassword(p.accounts, userId, password, draw),
          resets := UseResets(p.resets, userId, p.now),
          sessions := RevokeSessions(p.sessions, userId, None, p.now)),
       Done)
  }

  function PlainChangePassword(
    env: Env, p: Plain, userId: string, sessionToken: string, current: Bytes, password: Bytes, draw: Draw): (Plain, Reply)
  {
    if userId == "" || sessionToken == "" || !env.Presentable(current) || !env.ValidPassword(password) then
      (p, Failed(InvalidInput))
    else if !LiveAccount(p, userId) then (p, Failed(Unauthorized))
    else if !Accepts(env, p.accounts[userId], current) then (p, Failed(InvalidCurrentPassword))
    else
      (p.(accounts := NewPassword(p.accounts, userId, password, draw),
          resets := UseResets(p.resets, userId, p.now),
          sessions := RevokeSessions(p.sessions, userId, Some(env.hashToken(sessionToken)), p.now)),
       Done)
  }

  function PlainChangeEmail(env: Env, p: Plain, userId: string, current: Bytes, input: Bytes): (Plain, Reply) {
    var email := env.normalizeEmail(input);
    if userId == "" || !env.ValidEmail(email) || !env.Presentable(current) then (p, Failed(InvalidInput))
    else if !LiveAccount(p, userId) then (p, Failed(Unauthorized))
    else if !Accepts(env, p.accounts[userId], current) then (p, Failed(InvalidCurrentPassword))
    else if EmailTaken(p.accounts, email, Some(userId)) then
      (p, Failed(EmailAlreadyExists))
    else
      var account := p.accounts[userId].(email := email);
      (p.(accounts := p.accounts[userId := account]), Profile(UserOf(userId, account)))
  }

  ghost function PlainStep(env: Env, p: Plain, call: Call): (Plain, Reply) {
    match call
    case Wait(delay) => (p.(now := p.now + delay), Done)
    case Register(registration, draw) => PlainRegister(env, p, registration, draw)
    case Login(credentials, work, draw) => PlainLogin(env, p, credentials, work, draw)
    case Authenticate(token) => (p, PlainAuthenticate(env, p, token))
    case UpdateProfile(userId, profile, draw) => PlainUpdateProfile(env, p, userId, profile)
    case Logout(token) => (PlainLogout(env, p, token), Done)
    case RequestReset(email, draw) => PlainRequestReset(env, p, email, draw)
    case MailFailed(token) => (p.(resets := p.resets - {env.hashToken(token)}), Failed(Internal))
    case ResetPassword(token, password, draw) => PlainResetPassword(env, p, token, password, draw)
    case ChangePassword(userId, sessionToken, current, password, draw) =>
      PlainChangePassword(env, p, userId, sessionToken, current, password, draw)
    case ChangeEmail(userId, current, email, draw) => PlainChangeEmail(env, p, userId, current, email)
  }

  ghost function PlainRun(env: Env, p: Plain, calls: seq<Call>): Plain
    decreases |calls|
  {
    if calls == [] then p else PlainRun(env, PlainStep(env, p, calls[0]).0, calls[1..])
  }

  ghost function PlainReplies(env: Env, p: Plain, calls: seq<Call>): seq<Reply>
    decreases |calls|
  {
    if calls == [] then []
    else [PlainStep(env, p, calls[0]).1] + PlainReplies(env, PlainStep(env, p, calls[0]).0, calls[1..])
  }
}
