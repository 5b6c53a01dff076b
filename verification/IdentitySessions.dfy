/** Sessions over whole runs: which password stands behind a live session, and that a cut session stays cut. */
module IdentitySessions {
  import opened Common
  import opened IdentityModel

  // ----- The password behind a session -----

  /** For each session, the password it was opened with or last kept under by ChangePassword. */
  type Grounds = map<string, Bytes>

  /** ChangePassword puts the session it is made from on the new password. */
  ghost predicate Regrounds(env: Env, s: State, call: Call, hash: string) {
    && call.ChangePassword? && Step(env, s, call).1.Done?
    && hash == env.hashToken(call.sessionToken) && hash in s.sessions && s.sessions[hash].userId == call.userId
  }

  ghost function NextGrounds(env: Env, s: State, call: Call, grounds: Grounds): Grounds {
    var reply := Step(env, s, call).1;
    match call
    case Register(registration, draw) =>
      if reply.SignedIn? then grounds[env.hashToken(draw.token) := registration.password] else grounds
    case Login(credentials, work, draw) =>
      if reply.SignedIn? then grounds[env.hashToken(draw.token) := credentials.password] else grounds
    case ChangePassword(userId, sessionToken, current, password, draw) =>
      var hash := env.hashToken(sessionToken);
      if Regrounds(env, s, call, hash) then grounds[hash := password] else grounds
    case _ => grounds
  }

  ghost function GroundsAfter(env: Env, s: State, calls: seq<Call>, grounds: Grounds): Grounds
    decreases |calls|
  {
    if calls == [] then grounds
    else GroundsAfter(env, Step(env, s, calls[0]).0, calls[1..], NextGrounds(env, s, calls[0], grounds))
  }

  ghost function NextStale(env: Env, s: State, call: Call, stale: set<string>): set<string> {
    set h | h in stale && !Regrounds(env, s, call, h)
  }

  predicate Unrevoked(s: State, hash: string) {
    hash in s.sessions && s.sessions[hash].revokedAt.None?
  }

  /** The password behind the session verifies against its owner's present hash. */
  ghost predicate Rests(env: Env, s: State, grounds: Grounds, hash: string)
    requires hash in s.sessions
  {
    && hash in grounds && s.sessions[hash].userId in s.users
    && env.verify(grounds[hash], s.users[s.sessions[hash].userId].passwordHash)
  }

  /** Of the sessions that are not revoked, exactly the stale ones rest on a password that no longer verifies. */
  ghost predicate GroundedBut(env: Env, s: State, grounds: Grounds, stale: set<string>) {
    && stale <= s.sessions.Keys
    && forall h :: Unrevoked(s, h) ==> (Rests(env, s, grounds, h) <==> h !in stale)
  }

  lemma RegisterGrounded(env: Env, s: State, input: Registration, draw: Draw, grounds: Grounds, stale: set<string>)
    requires SelfVerifying(env) && Consistent(s) && GroundedBut(env, s, grounds, stale)
    ensures
      GroundedBut(env, DoRegister(env, s, input, draw).0, NextGrounds(env, s, Register(input, draw), grounds), stale)
  {
  }

  lemma LoginGrounded(env: Env, s: State, c: Credentials, work: nat, draw: Draw, grounds: Grounds, stale: set<string>)
    requires GroundedBut(env, s, grounds, stale)
    ensures
      GroundedBut(env, DoLogin(env, s, c, work, draw).0, NextGrounds(env, s, Login(c, work, draw), grounds), stale)
  {
  }

  lemma ResetPasswordGrounded(
    env: Env, s: State, token: string, password: Bytes, draw: Draw, grounds: Grounds, stale: set<string>)
    requires GroundedBut(env, s, grounds, stale)
    ensures GroundedBut(env, DoResetPassword(env, s, token, password, draw).0, grounds, stale)
  {
  }

  lemma ChangePasswordGrounded(
    env: Env, s: State, userId: string, token: string, current: Bytes, password: Bytes, draw: Draw,
    grounds: Grounds, stale: set<string>)
    requires SelfVerifying(env) && GroundedBut(env, s, grounds, stale)
    ensures
      var call := ChangePassword(userId, token, current, password, draw);
      GroundedBut(env, DoChangePassword(env, s, userId, token, current, password, draw).0,
                  NextGrounds(env, s, call, grounds), NextStale(env, s, call, stale))
  {
  }

  /** Revoking sessions, and writing users without touching their hashes, keeps everything grounded. */
  lemma SameHashesGrounded(env: Env, s: State, t: State, grounds: Grounds, stale: set<string>)
    requires GroundedBut(env, s, grounds, stale)
    requires s.users.Keys <= t.users.Keys
    requires forall id :: id in s.users ==> t.users[id].passwordHash == s.users[id].passwordHash
    requires t.sessions.Keys == s.sessions.Keys
    requires forall h :: Unrevoked(t, h) ==> Unrevoked(s, h) && t.sessions[h].userId == s.sessions[h].userId
    requires forall h :: h in s.sessions ==> s.sessions[h].userId in s.users
    ensures GroundedBut(env, t, grounds, stale)
  {
    forall h | Unrevoked(t, h)
      ensures Rests(env, t, grounds, h) <==> Rests(env, s, grounds, h)
    {
    }
  }

  predicate NewSessionOrPassword(call: Call) {
    call.Register? || call.Login? || call.ResetPassword? || call.ChangePassword?
  }

  lemma OthersKeepHashes(env: Env, s: State, call: Call)
    requires !NewSessionOrPassword(call)
    ensures
      var t := Step(env, s, call).0;
      && t.users.Keys == s.users.Keys && t.sessions.Keys == s.sessions.Keys
      && (forall id :: id in s.users ==> t.users[id].passwordHash == s.users[id].passwordHash)
      && (forall h :: Unrevoked(t, h) ==> Unrevoked(s, h) && t.sessions[h].userId == s.sessions[h].userId)
  {
  }

  lemma StepGrounded(env: Env, s: State, call: Call, grounds: Grounds, stale: set<string>)
    requires SelfVerifying(env) && Consistent(s) && GroundedBut(env, s, grounds, stale)
    ensures GroundedBut(env, Step(env, s, call).0, NextGrounds(env, s, call, grounds), NextStale(env, s, call, stale))
  {
    if !call.ChangePassword? {
      assert NextStale(env, s, call, stale) == stale;
    }
    match call
    case Register(registration, draw) => RegisterGrounded(env, s, registration, draw, grounds, stale);
    case Login(credentials, work, draw) => LoginGrounded(env, s, credentials, work, draw, grounds, stale);
    case ResetPassword(token, password, draw) => ResetPasswordGrounded(env, s, token, password, draw, grounds, stale);
    case ChangePassword(userId, token, current, password, draw) =>
      ChangePasswordGrounded(env, s, userId, token, current, password, draw, grounds, stale);
    case _ =>
      OthersKeepHashes(env, s, call);
      SameHashesGrounded(env, s, Step(env, s, call).0, grounds, stale);
  }

  lemma {:induction false} RunGrounded(env: Env, s: State, calls: seq<Call>, grounds: Grounds)
    requires SelfVerifying(env) && Consistent(s) && GroundedBut(env, s, grounds, {})
    ensures GroundedBut(env, Run(env, s, calls), GroundsAfter(env, s, calls, grounds), {})
    decreases |calls|
  {
    if calls != [] {
      StepGrounded(env, s, calls[0], grounds, {});
      assert NextStale(env, s, calls[0], {}) == {};
      StepConsistent(env, s, calls[0]);
      RunGrounded(env, Step(env, s, calls[0]).0, calls[1..], NextGrounds(env, s, calls[0], grounds));
    }
  }

  /** In every state of a serial run, a token that authenticates rests on a password that verifies today. */
  lemma LiveSessionsMatchCurrentPassword(env: Env, start: Time, calls: seq<Call>, token: string)
    requires env.Lawful()
    requires DoAuthenticate(env, Run(env, Empty(start), calls), token).Profile?
    ensures
      var s := Run(env, Empty(start), calls);
      var grounds := GroundsAfter(env, Empty(start), calls, map[]);
      var hash := env.hashToken(token);
      && hash in grounds
      && DoAuthenticate(env, s, token).user.id in s.users
      && env.verify(grounds[hash], s.users[DoAuthenticate(env, s, token).user.id].passwordHash)
  {
    LawfulVerifiesItself(env);
    RunGrounded(env, Empty(start), calls, map[]);
    assert Unrevoked(Run(env, Empty(start), calls), env.hashToken(token));
  }

  // ----- Cut sessions stay cut -----

  ghost predicate Cut(s: State, hash: string) {
    hash in s.sessions && s.sessions[hash].revokedAt.Some?
  }

  /** Sessions are never dropped, never change hands, and a revocation is never undone or redated. */
  ghost predicate SessionsEvolve(before: Sessions, after: Sessions) {
    forall h :: h in before ==>
      && h in after && after[h].userId == before[h].userId && after[h].expiresAt == before[h].expiresAt
      && (before[h].revokedAt.Some? ==> after[h].revokedAt == before[h].revokedAt)
  }

  lemma StepEvolvesSessions(env: Env, s: State, call: Call)
    ensures SessionsEvolve(s.sessions, Step(env, s, call).0.sessions)
  {
    match call
    case Login(c, work, draw) => LoginEvolvesSessions(env, s, c, work, draw);
    case Register(registration, draw) => RegisterEvolvesSessions(env, s, registration, draw);
    case _ =>
  }

  lemma LoginEvolvesSessions(env: Env, s: State, c: Credentials, work: nat, draw: Draw)
    ensures SessionsEvolve(s.sessions, DoLogin(env, s, c, work, draw).0.sessions)
  {
  }

  lemma RegisterEvolvesSessions(env: Env, s: State, input: Registration, draw: Draw)
    ensures SessionsEvolve(s.sessions, DoRegister(env, s, input, draw).0.sessions)
  {
  }

  lemma {:induction false} RunEvolvesSessions(env: Env, s: State, calls: seq<Call>)
    ensures SessionsEvolve(s.sessions, Run(env, s, calls).sessions)
    decreases |calls|
  {
    if calls != [] {
      StepEvolvesSessions(env, s, calls[0]);
      RunEvolvesSessions(env, Step(env, s, calls[0]).0, calls[1..]);
    }
  }

  /** A revoked session never authenticates again, whatever is called afterwards. */
  lemma CutForever(env: Env, s: State, calls: seq<Call>, token: string)
    requires Cut(s, env.hashToken(token))
    ensures DoAuthenticate(env, Run(env, s, calls), token) == Failed(Unauthorized)
  {
    RunEvolvesSessions(env, s, calls);
  }

  /** After a reset no session that the user had at that moment works in any continuation; those of others do as before. */
  lemma ResetEndsAllSessions(
    env: Env, s: State, resetToken: string, password: Bytes, draw: Draw, calls: seq<Call>, token: string)
    requires DoResetPassword(env, s, resetToken, password, draw).1 == Done
    requires env.hashToken(token) in s.sessions
    ensures
      var t := DoResetPassword(env, s, resetToken, password, draw).0;
      if s.sessions[env.hashToken(token)].userId == s.resets[env.hashToken(resetToken)].userId
      then DoAuthenticate(env, Run(env, t, calls), token) == Failed(Unauthorized)
      else t.sessions[env.hashToken(token)] == s.sessions[env.hashToken(token)]
           && DoAuthenticate(env, t, token) == DoAuthenticate(env, s, token)
  {
    if s.sessions[env.hashToken(token)].userId == s.resets[env.hashToken(resetToken)].userId {
      CutForever(env, DoResetPassword(env, s, resetToken, password, draw).0, calls, token);
    }
  }

  /**
   A password change ends every session of the user but the one it was made from. That one and all sessions of
   other users stay as they were, and authenticate as before.
   */
  lemma ChangePasswordEndsOtherSessions(
    env: Env, s: State, userId: string, own: string, current: Bytes, password: Bytes, draw: Draw,
    calls: seq<Call>, token: string)
    requires DoChangePassword(env, s, userId, own, current, password, draw).1 == Done
    requires env.hashToken(token) in s.sessions
    ensures
      var t := DoChangePassword(env, s, userId, own, current, password, draw).0;
      if s.sessions[env.hashToken(token)].userId == userId && env.hashToken(token) != env.hashToken(own)
      then DoAuthenticate(env, Run(env, t, calls), token) == Failed(Unauthorized)
      else t.sessions[env.hashToken(token)] == s.sessions[env.hashToken(token)]
           && DoAuthenticate(env, t, token) == DoAuthenticate(env, s, token)
  {
    var t := DoChangePassword(env, s, userId, own, current, password, draw).0;
    if s.sessions[env.hashToken(token)].userId == userId && env.hashToken(token) != env.hashToken(own) {
      CutForever(env, t, calls, token);
    }
  }
}
