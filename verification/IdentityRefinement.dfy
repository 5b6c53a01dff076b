/** The encrypted, blind-indexed tables behave exactly like the plain account store, on every serial run. */
module IdentityRefinement {
  import opened Common
  import opened IdentityModel
  import opened PlainAccounts
  import DataProtector
  import PasswordHash
  import Throttle

  // ----- What the laws give -----

  ghost predicate Undoes(env: Env) {
    forall n: DataProtector.Nonce, v: Bytes, f: string :: env.decrypt(env.encrypt(n, v, f), f) == Some(v)
  }

  ghost predicate ComparesDigests(env: Env) {
    forall pw: Bytes, salt: PasswordHash.Salt, candidate: Bytes ::
      env.verify(candidate, env.hashPassword(pw, salt)) == (Digest(env, candidate, salt) == Digest(env, pw, salt))
  }

  ghost predicate Separates(env: Env) {
    forall a: Bytes, b: Bytes :: env.ValidEmail(a) && env.ValidEmail(b) && env.lookup(a) == env.lookup(b) ==> a == b
  }

  ghost predicate Faithful(env: Env) {
    Undoes(env) && ComparesDigests(env) && Separates(env)
  }

  lemma LawfulIsFaithful(env: Env)
    requires env.Lawful()
    ensures Faithful(env)
  {
    forall n: DataProtector.Nonce, v: Bytes, f: string
      ensures env.decrypt(env.encrypt(n, v, f), f) == Some(v)
    {
      DataProtector.RoundTrip(env.aead, n, v, f);
    }
    forall pw: Bytes, salt: PasswordHash.Salt, candidate: Bytes
      ensures env.verify(candidate, env.hashPassword(pw, salt)) == (Digest(env, candidate, salt) == Digest(env, pw, salt))
    {
      PasswordHash.VerifyAgainstFreshHash(env.argon, pw, salt, candidate);
    }
  }

  // ----- The relation -----

  /** The row decrypts to the account, is indexed under its e-mail and accepts exactly its password. */
  ghost predicate RowStandsFor(env: Env, id: string, row: UserRow, a: Account) {
    && DecryptUser(env, id, row) == Some(UserOf(id, a))
    && env.ValidEmail(a.email) && row.lookup == env.lookup(a.email)
    && row.passwordHash == env.hashPassword(a.password, a.salt)
    && row.role == a.role && row.active == a.active && row.deleted == a.deleted
  }

  ghost predicate UsersStandFor(env: Env, users: Users, accounts: Accounts) {
    && users.Keys == accounts.Keys
    && forall id :: id in users ==> RowStandsFor(env, id, users[id], accounts[id])
  }

  ghost predicate AttemptsStandFor(env: Env, attempts: Attempts, plain: Attempts) {
    forall email: Bytes, ip: string :: env.ValidEmail(email) ==>
      Lookup(attempts, (env.lookup(email), ip)) == Lookup(plain, (email, ip))
  }

  ghost predicate StandsFor(env: Env, s: State, p: Plain) {
    && s.now == p.now && s.sessions == p.sessions && s.resets == p.resets
    && UsersStandFor(env, s.users, p.accounts)
    && AttemptsStandFor(env, s.attempts, p.attempts)
    && UniqueEmails(p.accounts)
  }

  /** One call keeps the relation and gives the same reply on both sides. */
  ghost predicate Agree(env: Env, concrete: (State, Reply), plain: (Plain, Reply)) {
    concrete.1 == plain.1 && StandsFor(env, concrete.0, plain.0)
  }

  // ----- The blind index finds the right account -----

  lemma IndexAgrees(env: Env, users: Users, accounts: Accounts, id: string, email: Bytes)
    requires Separates(env) && UsersStandFor(env, users, accounts) && env.ValidEmail(email)
    ensures UsesLookup(users, id, env.lookup(email)) <==> HasEmail(accounts, id, email)
    ensures FoundBy(users, id, env.lookup(email)) <==> KnownBy(accounts, id, email)
  {
  }

  lemma FindAgrees(env: Env, users: Users, accounts: Accounts, email: Bytes)
    requires Separates(env) && UsersStandFor(env, users, accounts) && UniqueEmails(accounts) && env.ValidEmail(email)
    ensures FindUser(users, env.lookup(email)) == FindAccount(accounts, email)
  {
    var u, a := FindUser(users, env.lookup(email)), FindAccount(accounts, email);
    if u.Some? {
      IndexAgrees(env, users, accounts, u.value, email);
    }
    if a.Some? {
      IndexAgrees(env, users, accounts, a.value, email);
    }
  }

  lemma ConflictAgrees(env: Env, users: Users, accounts: Accounts, email: Bytes, own: Option<string>)
    requires Separates(env) && UsersStandFor(env, users, accounts) && env.ValidEmail(email)
    ensures LookupTaken(users, env.lookup(email), own) == EmailTaken(accounts, email, own)
  {
    forall id
      ensures UsesLookup(users, id, env.lookup(email)) <==> HasEmail(accounts, id, email)
    {
      IndexAgrees(env, users, accounts, id, email);
    }
  }

  lemma RecordAgrees(env: Env, attempts: Attempts, plain: Attempts, email: Bytes, ip: string, row: Throttle.Attempt)
    requires Separates(env) && AttemptsStandFor(env, attempts, plain) && env.ValidEmail(email)
    ensures AttemptsStandFor(env, attempts[(env.lookup(email), ip) := row], plain[(email, ip) := row])
    ensures AttemptsStandFor(env, attempts - {(env.lookup(email), ip)}, plain - {(email, ip)})
  {
    forall e: Bytes, i: string | env.ValidEmail(e)
      ensures
        Lookup(attempts[(env.lookup(email), ip) := row], (env.lookup(e), i)) == Lookup(plain[(email, ip) := row], (e, i))
      ensures
        Lookup(attempts - {(env.lookup(email), ip)}, (env.lookup(e), i)) == Lookup(plain - {(email, ip)}, (e, i))
    {
      assert Lookup(attempts, (env.lookup(e), i)) == Lookup(plain, (e, i));
    }
  }

  // ----- Call by call -----

  lemma NewRowStands(env: Env, r: Registration, draw: Draw)
    requires Undoes(env) && env.ValidEmail(r.email)
    ensures
      RowStandsFor(env, draw.id, NewUserRow(env, r, draw),
        Account(r.email, r.firstName, r.lastName, r.phone, "customer", true, false, r.password, draw.salt))
  {
  }

  /** Writing one row on both sides keeps the relation, unless the e-mail is taken by another account. */
  lemma WriteStands(env: Env, users: Users, accounts: Accounts, id: string, row: UserRow, a: Account)
    requires UsersStandFor(env, users, accounts) && UniqueEmails(accounts)
    requires RowStandsFor(env, id, row, a)
    requires !EmailTaken(accounts, a.email, Some(id)) || HasEmail(accounts, id, a.email)
    ensures UsersStandFor(env, users[id := row], accounts[id := a])
    ensures UniqueEmails(accounts[id := a])
  {
    forall other | other in accounts && other != id && !accounts[other].deleted
      ensures accounts[other].email != a.email
    {
      assert !HasEmail(accounts, other, a.email);
    }
  }

  /** Accounts untouched, the other tables replaced on both sides. */
  lemma OtherTablesStand(
    env: Env, s: State, p: Plain, now: Time, sessions: Sessions, resets: Resets, attempts: Attempts, plain: Attempts)
    requires StandsFor(env, s, p) && AttemptsStandFor(env, attempts, plain)
    ensures
      StandsFor(env, s.(now := now, sessions := sessions, resets := resets, attempts := attempts),
                p.(now := now, sessions := sessions, resets := resets, attempts := plain))
  {
  }

  lemma RegisterAgrees(env: Env, s: State, p: Plain, input: Registration, draw: Draw)
    requires Undoes(env) && Separates(env) && StandsFor(env, s, p)
    ensures Agree(env, DoRegister(env, s, input, draw), PlainRegister(env, p, input, draw))
  {
    var r := TrimmedRegistration(env, input);
    var row := NewUserRow(env, r, draw);
    var a := Account(r.email, r.firstName, r.lastName, r.phone, "customer", true, false, r.password, draw.salt);
    if !ValidRegistration(env, r) {
      return;
    }
    NewRowStands(env, r, draw);
    ConflictAgrees(env, s.users, p.accounts, r.email, None);
    RegisterRepliesAgree(env, s, p, input, draw);
    RegisterOutcomesAgree(env, s, p, input, draw, row, a);
    var sessions := s.sessions[env.hashToken(draw.token) := SessionRow(draw.id, s.now + env.sessionTtl, None)];
    if draw.id !in s.users && !EmailTaken(p.accounts, r.email, None) {
      WriteStands(env, s.users, p.accounts, draw.id, row, a);
      OtherTablesStand(env, s.(users := s.users[draw.id := row]), p.(accounts := p.accounts[draw.id := a]),
                       s.now, sessions, s.resets, s.attempts, p.attempts);
    }
  }

  lemma RegisterRepliesAgree(env: Env, s: State, p: Plain, input: Registration, draw: Draw)
    requires s.now == p.now && s.sessions == p.sessions && s.users.Keys == p.accounts.Keys
    requires
      var email := TrimmedRegistration(env, input).email;
      LookupTaken(s.users, env.lookup(email), None) == EmailTaken(p.accounts, email, None)
    ensures DoRegister(env, s, input, draw).1 == PlainRegister(env, p, input, draw).1
  {
  }

  lemma RegisterOutcomesAgree(env: Env, s: State, p: Plain, input: Registration, draw: Draw, row: UserRow, a: Account)
    requires s.now == p.now && s.sessions == p.sessions && s.users.Keys == p.accounts.Keys
    requires
      var r := TrimmedRegistration(env, input);
      && row == NewUserRow(env, r, draw)
      && a == Account(r.email, r.firstName, r.lastName, r.phone, "customer", true, false, r.password, draw.salt)
      && LookupTaken(s.users, env.lookup(r.email), None) == EmailTaken(p.accounts, r.email, None)
    ensures
      var r := TrimmedRegistration(env, input);
      var sessions := s.sessions[env.hashToken(draw.token) := SessionRow(draw.id, s.now + env.sessionTtl, None)];
      var x, y := DoRegister(env, s, input, draw), PlainRegister(env, p, input, draw);
      || (x.0 == s && y.0 == p)
      || (draw.id !in s.users && !EmailTaken(p.accounts, r.email, None)
          && x.0 == s.(users := s.users[draw.id := row], sessions := sessions)
          && y.0 == p.(accounts := p.accounts[draw.id := a], sessions := sessions))
  {
    assert draw.id in s.users <==> draw.id in s.users.Keys;
    assert draw.id in p.accounts <==> draw.id in p.accounts.Keys;
  }

  /** The row and the account read the same and accept the same password. */
  ghost predicate SameLogin(env: Env, s: State, p: Plain, c: Credentials, id: string)
    requires id in s.users && id in p.accounts
  {
    && DecryptUser(env, id, s.users[id]) == Some(UserOf(id, p.accounts[id]))
    && env.verify(c.password, s.users[id].passwordHash) == Accepts(env, p.accounts[id], c.password)
  }

  /** Both sides find the same attempt row and the same account. */
  ghost predicate SameChecks(env: Env, s: State, p: Plain, c: Credentials) {
    && s.now == p.now && s.sessions == p.sessions
    && Gated(env, s, c) == Throttle.Blocked(Lookup(p.attempts, PlainKey(env, c)), p.now)
    && Lookup(s.attempts, LoginKey(env, c)) == Lookup(p.attempts, PlainKey(env, c))
    && FindUser(s.users, LoginKey(env, c).0) == FindAccount(p.accounts, PlainKey(env, c).0)
    && var found := FindAccount(p.accounts, PlainKey(env, c).0);
       found.Some? ==> SameLogin(env, s, p, c, found.value)
  }

  lemma LoginChecksAgree(env: Env, s: State, p: Plain, c: Credentials)
    requires Faithful(env) && StandsFor(env, s, p) && env.ValidEmail(env.normalizeEmail(c.email))
    ensures SameChecks(env, s, p, c)
  {
    assert Lookup(s.attempts, (env.lookup(env.normalizeEmail(c.email)), env.normalizeIp(c.ip)))
        == Lookup(p.attempts, (env.normalizeEmail(c.email), env.normalizeIp(c.ip)));
    FindAgrees(env, s.users, p.accounts, env.normalizeEmail(c.email));
    var found := FindAccount(p.accounts, PlainKey(env, c).0);
    if found.Some? {
      PasswordCheckAgrees(env, s, p, found.value, c.password);
    }
  }

  lemma LoginRepliesAgree(env: Env, s: State, p: Plain, c: Credentials, work: nat, draw: Draw)
    requires SameChecks(env, s, p, c)
    ensures DoLogin(env, s, c, work, draw).1 == PlainLogin(env, p, c, work, draw).1
  {
  }

  // The reply of a login tells what it did to each table, on both sides.

  function SessionsAfter(env: Env, sessions: Sessions, token: string, reply: Reply): Sessions {
    if reply.SignedIn? then sessions[env.hashToken(token) := SessionRow(reply.user.id, reply.expiresAt, None)]
    else sessions
  }

  function AttemptsAfter(attempts: Attempts, key: Throttle.Key, wellFormed: bool, at: Time, reply: Reply): Attempts {
    if reply.SignedIn? then attempts - {key}
    else if wellFormed && reply == Failed(InvalidCredentials) then
      attempts[key := Throttle.Recorded(Lookup(attempts, key), at)]
    else attempts
  }

  function NowAfter(now: Time, wellFormed: bool, work: nat, reply: Reply): Time {
    if wellFormed && reply != Failed(TooManyAttempts) then now + work else now
  }

  lemma LoginOpensItsSession(env: Env, s: State, c: Credentials, work: nat, draw: Draw)
    ensures
      var (t, reply) := DoLogin(env, s, c, work, draw);
      t.sessions == SessionsAfter(env, s.sessions, draw.token, reply)
  {
  }

  lemma LoginCountsItsFailure(env: Env, s: State, c: Credentials, work: nat, draw: Draw)
    ensures
      var (t, reply) := DoLogin(env, s, c, work, draw);
      t.attempts == AttemptsAfter(s.attempts, LoginKey(env, c), WellFormed(env, c), s.now + work, reply)
  {
  }

  lemma LoginLeavesTheRest(env: Env, s: State, c: Credentials, work: nat, draw: Draw)
    ensures
      var (t, reply) := DoLogin(env, s, c, work, draw);
      t.users == s.users && t.resets == s.resets && t.now == NowAfter(s.now, WellFormed(env, c), work, reply)
  {
  }

  ghost predicate ByReply(
    env: Env, s: State, key: Throttle.Key, wellFormed: bool, work: nat, token: string, t: State, reply: Reply)
  {
    && t.sessions == SessionsAfter(env, s.sessions, token, reply)
    && t.attempts == AttemptsAfter(s.attempts, key, wellFormed, s.now + work, reply)
    && t.users == s.users && t.resets == s.resets && t.now == NowAfter(s.now, wellFormed, work, reply)
  }

  ghost predicate PlainByReply(
    env: Env, p: Plain, key: Throttle.Key, wellFormed: bool, work: nat, token: string, q: Plain, reply: Reply)
  {
    && q.sessions == SessionsAfter(env, p.sessions, token, reply)
    && q.attempts == AttemptsAfter(p.attempts, key, wellFormed, p.now + work, reply)
    && q.accounts == p.accounts && q.resets == p.resets && q.now == NowAfter(p.now, wellFormed, work, reply)
  }

  lemma LoginByReply(env: Env, s: State, c: Credentials, work: nat, draw: Draw)
    ensures
      var (t, reply) := DoLogin(env, s, c, work, draw);
      ByReply(env, s, LoginKey(env, c), WellFormed(env, c), work, draw.token, t, reply)
  {
    LoginOpensItsSession(env, s, c, work, draw);
    LoginCountsItsFailure(env, s, c, work, draw);
    LoginLeavesTheRest(env, s, c, work, draw);
  }

  lemma PlainLoginOpensItsSession(env: Env, p: Plain, c: Credentials, work: nat, draw: Draw)
    ensures
      var (q, reply) := PlainLogin(env, p, c, work, draw);
      q.sessions == SessionsAfter(env, p.sessions, draw.token, reply)
  {
  }

  lemma PlainLoginLeavesTheRest(env: Env, p: Plain, c: Credentials, work: nat, draw: Draw)
    ensures
      var (q, reply) := PlainLogin(env, p, c, work, draw);
      && q.attempts == AttemptsAfter(p.attempts, PlainKey(env, c), WellFormed(env, c), p.now + work, reply)
      && q.accounts == p.accounts && q.resets == p.resets
      && q.now == NowAfter(p.now, WellFormed(env, c), work, reply)
  {
  }

  lemma PlainLoginByReply(env: Env, p: Plain, c: Credentials, work: nat, draw: Draw)
    ensures
      var (q, reply) := PlainLogin(env, p, c, work, draw);
      PlainByReply(env, p, PlainKey(env, c), WellFormed(env, c), work, draw.token, q, reply)
  {
    PlainLoginOpensItsSession(env, p, c, work, draw);
    PlainLoginLeavesTheRest(env, p, c, work, draw);
  }

  lemma AttemptsAfterStand(
    env: Env, attempts: Attempts, plain: Attempts, email: Bytes, ip: string, wellFormed: bool, at: Time, reply: Reply)
    requires Separates(env) && AttemptsStandFor(env, attempts, plain) && env.ValidEmail(email)
    ensures
      AttemptsStandFor(env, AttemptsAfter(attempts, (env.lookup(email), ip), wellFormed, at, reply),
                       AttemptsAfter(plain, (email, ip), wellFormed, at, reply))
  {
    assert Lookup(attempts, (env.lookup(email), ip)) == Lookup(plain, (email, ip));
    RecordAgrees(env, attempts, plain, email, ip, Throttle.Recorded(Lookup(plain, (email, ip)), at));
  }

  lemma SameReplySameTables(
    env: Env, s: State, p: Plain, email: Bytes, ip: string, wellFormed: bool, work: nat, token: string,
    t: State, q: Plain, reply: Reply)
    requires Separates(env) && StandsFor(env, s, p) && env.ValidEmail(email)
    requires ByReply(env, s, (env.lookup(email), ip), wellFormed, work, token, t, reply)
    requires PlainByReply(env, p, (email, ip), wellFormed, work, token, q, reply)
    ensures StandsFor(env, t, q)
  {
    AttemptsAfterStand(env, s.attempts, p.attempts, email, ip, wellFormed, s.now + work, reply);
  }

  lemma LoginAgrees(env: Env, s: State, p: Plain, c: Credentials, work: nat, draw: Draw)
    requires Faithful(env) && StandsFor(env, s, p)
    ensures Agree(env, DoLogin(env, s, c, work, draw), PlainLogin(env, p, c, work, draw))
  {
    if !WellFormed(env, c) {
      return;
    }
    var x, y := DoLogin(env, s, c, work, draw), PlainLogin(env, p, c, work, draw);
    LoginChecksAgree(env, s, p, c);
    LoginRepliesAgree(env, s, p, c, work, draw);
    LoginByReply(env, s, c, work, draw);
    PlainLoginByReply(env, p, c, work, draw);
    SameReplySameTables(
      env, s, p, env.normalizeEmail(c.email), env.normalizeIp(c.ip), WellFormed(env, c), work, draw.token, x.0, y.0, x.1);
  }

  lemma UpdateProfileAgrees(env: Env, s: State, p: Plain, userId: string, input: ProfileUpdate, draw: Draw)
    requires Undoes(env) && StandsFor(env, s, p)
    ensures Agree(env, DoUpdateProfile(env, s, userId, input, draw), PlainUpdateProfile(env, p, userId, input))
  {
    if userId in s.users && s.users[userId].Live() {
      var u := TrimmedProfile(env, input);
      NewProfileStands(env, userId, s.users[userId], p.accounts[userId], u, draw);
      assert HasEmail(p.accounts, userId, p.accounts[userId].email);
      WriteStands(env, s.users, p.accounts, userId, WithProfile(env, s.users[userId], u, draw),
                  p.accounts[userId].(firstName := u.firstName, lastName := u.lastName, phone := u.phone));
    }
  }

  lemma NewProfileStands(env: Env, id: string, row: UserRow, a: Account, u: ProfileUpdate, draw: Draw)
    requires Undoes(env) && RowStandsFor(env, id, row, a)
    ensures
      RowStandsFor(env, id, WithProfile(env, row, u, draw),
                   a.(firstName := u.firstName, lastName := u.lastName, phone := u.phone))
  {
  }

  lemma RequestResetAgrees(env: Env, s: State, p: Plain, input: Bytes, draw: Draw)
    requires Separates(env) && StandsFor(env, s, p)
    ensures Agree(env, DoRequestReset(env, s, input, draw), PlainRequestReset(env, p, input, draw))
  {
    var email := env.normalizeEmail(input);
    if !env.ValidEmail(email) {
      return;
    }
    FindAgrees(env, s.users, p.accounts, email);
    var issued := IssueReset(env, s.now, s.resets, FindAccount(p.accounts, email), draw);
    OtherTablesStand(env, s, p, s.now, s.sessions, issued.0, s.attempts, p.attempts);
  }

  lemma NewPasswordStands(env: Env, users: Users, accounts: Accounts, userId: string, password: Bytes, draw: Draw)
    requires UsersStandFor(env, users, accounts) && UniqueEmails(accounts)
    ensures UsersStandFor(env, WithPassword(env, users, userId, password, draw), NewPassword(accounts, userId, password, draw))
    ensures UniqueEmails(NewPassword(accounts, userId, password, draw))
  {
    if userId in users {
      assert RowStandsFor(env, userId, users[userId], accounts[userId]);
    }
  }

  lemma ResetPasswordAgrees(env: Env, s: State, p: Plain, token: string, password: Bytes, draw: Draw)
    requires StandsFor(env, s, p)
    ensures Agree(env, DoResetPassword(env, s, token, password, draw), PlainResetPassword(env, p, token, password, draw))
  {
    var hash := env.hashToken(token);
    if hash in s.resets {
      NewPasswordStands(env, s.users, p.accounts, s.resets[hash].userId, password, draw);
    }
  }

  lemma PasswordCheckAgrees(env: Env, s: State, p: Plain, userId: string, current: Bytes)
    requires Faithful(env) && StandsFor(env, s, p) && userId in s.users
    ensures LiveUser(s, userId) == LiveAccount(p, userId)
    ensures env.verify(current, s.users[userId].passwordHash) == Accepts(env, p.accounts[userId], current)
  {
    assert RowStandsFor(env, userId, s.users[userId], p.accounts[userId]);
  }

  lemma ChangePasswordAgrees(
    env: Env, s: State, p: Plain, userId: string, sessionToken: string, current: Bytes, password: Bytes, draw: Draw)
    requires Faithful(env) && StandsFor(env, s, p)
    ensures
      Agree(env, DoChangePassword(env, s, userId, sessionToken, current, password, draw),
            PlainChangePassword(env, p, userId, sessionToken, current, password, draw))
  {
    if userId in s.users {
      PasswordCheckAgrees(env, s, p, userId, current);
    }
    NewPasswordStands(env, s.users, p.accounts, userId, password, draw);
  }

  lemma NewEmailStands(env: Env, id: string, row: UserRow, a: Account, email: Bytes, draw: Draw)
    requires Undoes(env) && RowStandsFor(env, id, row, a) && env.ValidEmail(email)
    ensures
      RowStandsFor(env, id, row.(email := env.encrypt(draw.emailNonce, email, "users.email"), lookup := env.lookup(email)),
                   a.(email := email))
  {
  }

  lemma ChangeEmailAgrees(env: Env, s: State, p: Plain, userId: string, current: Bytes, input: Bytes, draw: Draw)
    requires Faithful(env) && StandsFor(env, s, p)
    ensures
      Agree(env, DoChangeEmail(env, s, userId, current, input, draw), PlainChangeEmail(env, p, userId, current, input))
  {
    var email := env.normalizeEmail(input);
    if !env.ValidEmail(email) {
      return;
    }
    ConflictAgrees(env, s.users, p.accounts, email, Some(userId));
    if userId in s.users {
      PasswordCheckAgrees(env, s, p, userId, current);
      var row := s.users[userId].(
        email := env.encrypt(draw.emailNonce, email, "users.email"), lookup := env.lookup(email));
      NewEmailStands(env, userId, s.users[userId], p.accounts[userId], email, draw);
      if !EmailTaken(p.accounts, email, Some(userId)) {
        WriteStands(env, s.users, p.accounts, userId, row, p.accounts[userId].(email := email));
      }
      ChangeEmailConcludes(env, s, p, userId, current, input, draw, row, p.accounts[userId].(email := email));
    }
  }

  lemma ChangeEmailConcludes(
    env: Env, s: State, p: Plain, userId: string, current: Bytes, input: Bytes, draw: Draw, row: UserRow, a: Account)
    requires StandsFor(env, s, p) && userId in s.users
    requires
      var email := env.normalizeEmail(input);
      && row == s.users[userId].(
           email := env.encrypt(draw.emailNonce, email, "users.email"), lookup := env.lookup(email))
      && a == p.accounts[userId].(email := email)
      && LiveUser(s, userId) == LiveAccount(p, userId)
      && env.verify(current, s.users[userId].passwordHash) == Accepts(env, p.accounts[userId], current)
      && LookupTaken(s.users, env.lookup(email), Some(userId)) == EmailTaken(p.accounts, email, Some(userId))
      && RowStandsFor(env, userId, row, a)
      && (!EmailTaken(p.accounts, email, Some(userId)) ==>
            UsersStandFor(env, s.users[userId := row], p.accounts[userId := a])
            && UniqueEmails(p.accounts[userId := a]))
    ensures
      Agree(env, DoChangeEmail(env, s, userId, current, input, draw), PlainChangeEmail(env, p, userId, current, input))
  {
  }

  lemma AuthenticateAgrees(env: Env, s: State, p: Plain, token: string)
    requires StandsFor(env, s, p)
    ensures DoAuthenticate(env, s, token) == PlainAuthenticate(env, p, token)
  {
  }

  lemma StepAgrees(env: Env, s: State, p: Plain, call: Call)
    requires Faithful(env) && StandsFor(env, s, p)
    ensures Agree(env, Step(env, s, call), PlainStep(env, p, call))
  {
    match call
    case Wait(_) =>
    case Register(registration, draw) => RegisterAgrees(env, s, p, registration, draw);
    case Login(credentials, work, draw) => LoginAgrees(env, s, p, credentials, work, draw);
    case Authenticate(token) => AuthenticateAgrees(env, s, p, token);
    case UpdateProfile(userId, profile, draw) => UpdateProfileAgrees(env, s, p, userId, profile, draw);
    case Logout(_) =>
    case RequestReset(email, draw) => RequestResetAgrees(env, s, p, email, draw);
    case MailFailed(_) =>
    case ResetPassword(token, password, draw) => ResetPasswordAgrees(env, s, p, token, password, draw);
    case ChangePassword(userId, sessionToken, current, password, draw) =>
      ChangePasswordAgrees(env, s, p, userId, sessionToken, current, password, draw);
    case ChangeEmail(userId, current, email, draw) => ChangeEmailAgrees(env, s, p, userId, current, email, draw);
  }

  lemma {:induction false} RunAgrees(env: Env, s: State, p: Plain, calls: seq<Call>)
    requires Faithful(env) && StandsFor(env, s, p)
    ensures StandsFor(env, Run(env, s, calls), PlainRun(env, p, calls))
    ensures Replies(env, s, calls) == PlainReplies(env, p, calls)
    decreases |calls|
  {
    if calls != [] {
      StepAgrees(env, s, p, calls[0]);
      RunAgrees(env, Step(env, s, calls[0]).0, PlainStep(env, p, calls[0]).0, calls[1..]);
    }
  }

  /** From empty tables every serial run gives reply by reply what the plain store gives. */
  lemma EncryptedStoreRefinesPlain(env: Env, start: Time, calls: seq<Call>)
    requires env.Lawful()
    ensures Replies(env, Empty(start), calls) == PlainReplies(env, EmptyPlain(start), calls)
    ensures UniqueEmails(PlainRun(env, EmptyPlain(start), calls).accounts)
    ensures
      var s, p := Run(env, Empty(start), calls), PlainRun(env, EmptyPlain(start), calls);
      forall id :: id in s.users ==>
        && id in p.accounts
        && DecryptUser(env, id, s.users[id]) == Some(UserOf(id, p.accounts[id]))
        && s.users[id].lookup == env.lookup(DecryptUser(env, id, s.users[id]).value.email)
  {
    LawfulIsFaithful(env);
    RunAgrees(env, Empty(start), EmptyPlain(start), calls);
  }
}
