/** Who can log in: the exact conditions, and the passwords that register but never log in. */
module IdentityAccess {
  import opened Common
  import opened IdentityModel
  import opened PlainAccounts
  import opened IdentityRefinement

  /** Against a live account a login succeeds exactly under these four conditions, as that account. */
  lemma LoginSucceedsExactlyWhen(
    env: Env, s: State, p: Plain, id: string, c: Credentials, work: nat, draw: Draw)
    requires Faithful(env) && StandsFor(env, s, p)
    requires LiveAccount(p, id) && p.accounts[id].email == env.normalizeEmail(c.email)
    ensures
      DoLogin(env, s, c, work, draw).1.SignedIn?
      <==> && WellFormed(env, c)
           && !Gated(env, s, c)
           && Accepts(env, p.accounts[id], c.password)
           && env.hashToken(draw.token) !in s.sessions
    ensures
      DoLogin(env, s, c, work, draw).1.SignedIn?
      ==> DoLogin(env, s, c, work, draw).1.user == UserOf(id, p.accounts[id])
  {
    LoginChecksAgree(env, s, p, c);
    assert KnownBy(p.accounts, id, env.normalizeEmail(c.email));
    assert FindAccount(p.accounts, PlainKey(env, c).0) == Some(id);
  }

  /** Registration leaves a live account with the normalised e-mail and the given password. */
  lemma RegistrationCreatesAccount(env: Env, p: Plain, r: Registration, draw: Draw)
    requires PlainRegister(env, p, r, draw).1.SignedIn?
    ensures
      var q := PlainRegister(env, p, r, draw).0;
      && LiveAccount(q, draw.id)
      && q.accounts[draw.id].email == env.normalizeEmail(r.email)
      && q.accounts[draw.id].password == r.password
    ensures env.ValidEmail(env.normalizeEmail(r.email)) && env.ValidPassword(r.password)
  {
  }

  /** A rune takes at least one byte. */
  ghost predicate RunesFitBytes(env: Env) {
    forall s: Bytes :: env.runeCount(s) <= |s|
  }

  /** Every lawful environment meets the conditions of this module. */
  lemma LawfulSuffices(env: Env)
    requires env.Lawful()
    ensures Faithful(env) && RunesFitBytes(env)
  {
    LawfulIsFaithful(env);
  }

  lemma RegisteredUserLogsInFrom(
    env: Env, s0: State, p0: Plain, r: Registration, first: Draw, pause: nat, ip: string, work: nat, second: Draw)
    requires Faithful(env) && StandsFor(env, s0, p0)
    requires env.runeCount(r.password) <= |r.password|
    requires DoRegister(env, s0, r, first).1.SignedIn?
    requires env.hashToken(second.token) !in DoRegister(env, s0, r, first).0.sessions
    ensures
      var s := DoRegister(env, s0, r, first).0;
      var t := s.(now := s.now + pause);
      var c := Credentials(r.email, r.password, ip);
      DoLogin(env, t, c, work, second).1.SignedIn? <==> |r.password| <= 128 && !Gated(env, t, c)
  {
    RegisterAgrees(env, s0, p0, r, first);
    RegistrationCreatesAccount(env, p0, r, first);
    var s, p := DoRegister(env, s0, r, first).0, PlainRegister(env, p0, r, first).0;
    LoginAfterPause(env, s, p, first.id, r, pause, ip, work, second);
  }

  lemma LoginAfterPause(
    env: Env, s: State, p: Plain, id: string, r: Registration, pause: nat, ip: string, work: nat, draw: Draw)
    requires Faithful(env) && StandsFor(env, s, p)
    requires LiveAccount(p, id) && p.accounts[id].email == env.normalizeEmail(r.email)
    requires p.accounts[id].password == r.password
    requires env.ValidEmail(env.normalizeEmail(r.email)) && |r.password| > 0
    requires env.hashToken(draw.token) !in s.sessions
    ensures
      var t := s.(now := s.now + pause);
      var c := Credentials(r.email, r.password, ip);
      DoLogin(env, t, c, work, draw).1.SignedIn? <==> |r.password| <= 128 && !Gated(env, t, c)
  {
    var t, q := s.(now := s.now + pause), p.(now := p.now + pause);
    OtherTablesStand(env, s, p, t.now, s.sessions, s.resets, s.attempts, p.attempts);
    LoginSucceedsExactlyWhen(env, t, q, id, Credentials(r.email, r.password, ip), work, draw);
  }

  ghost predicate Reachable(env: Env, s: State) {
    exists start: Time, calls: seq<Call> :: s == Run(env, Empty(start), calls)
  }

  lemma ReachableStandsForPlain(env: Env, s: State) returns (p: Plain)
    requires Faithful(env) && Reachable(env, s)
    ensures StandsFor(env, s, p)
  {
    var start: Time, calls: seq<Call> :| s == Run(env, Empty(start), calls);
    RunAgrees(env, Empty(start), EmptyPlain(start), calls);
    p := PlainRun(env, EmptyPlain(start), calls);
  }

  /**
   After a registration and a pause the same e-mail and password log in exactly when the password has at
   most 128 bytes and the pair is not blocked: registration counts runes, login counts bytes.
   */
  lemma RegisteredUserLogsIn(
    env: Env, s0: State, r: Registration, first: Draw, pause: nat, ip: string, work: nat, second: Draw)
    requires env.Lawful() && Reachable(env, s0)
    requires DoRegister(env, s0, r, first).1.SignedIn?
    requires env.hashToken(second.token) !in DoRegister(env, s0, r, first).0.sessions
    ensures
      var s := DoRegister(env, s0, r, first).0;
      var t := s.(now := s.now + pause);
      var c := Credentials(r.email, r.password, ip);
      DoLogin(env, t, c, work, second).1.SignedIn? <==> |r.password| <= 128 && !Gated(env, t, c)
  {
    LawfulSuffices(env);
    var p0 := ReachableStandsForPlain(env, s0);
    RegisteredUserLogsInFrom(env, s0, p0, r, first, pause, ip, work, second);
  }

  /** 65 Cyrillic letters in UTF-8: 65 runes, 130 bytes. */
  function LongPassword(): (password: Bytes)
    ensures |password| == 130
  {
    seq(130, i => if i % 2 == 0 then 209 else 143)
  }

  /** Such a password is accepted at registration, and no login with it ever succeeds afterwards. */
  lemma LongPasswordNeverLogsIn(env: Env, s: State, email: Bytes, ip: string, work: nat, draw: Draw)
    requires env.runeCount(LongPassword()) == 65
    ensures env.ValidPassword(LongPassword())
    ensures DoLogin(env, s, Credentials(email, LongPassword(), ip), work, draw) == (s, Failed(InvalidCredentials))
  {
  }
}
