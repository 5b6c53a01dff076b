/**
 Logins that overlap other calls. A login passes the gate, checks the password, and only then records a failure
 or opens a session in a transaction of its own; anything may happen in between. Which sessions outlive their
 password because of that is stated exactly.
 */
module IdentityOverlap {
  import opened Common
  import opened IdentityModel
  import opened IdentitySessions
  import R = IdentityRefinement
  import Throttle

  datatype Verdict = Pending | Accepted(user: User) | Rejected | Broken | Ended

  /** A login past the gate. Ended ones stay listed, so that a flight keeps its number. */
  datatype Flight = Flight(credentials: Credentials, verdict: Verdict)

  datatype Event =
    | Serial(call: Call)           // any call but a login
    | Enter(credentials: Credentials)
    | Check(i: nat)
    | Finish(i: nat, draw: Draw)

  datatype World = World(s: State, flights: seq<Flight>, grounds: Grounds, stale: set<string>)

  function Begin(now: Time): World {
    World(Empty(now), [], map[], {})
  }

  /** What the password check finds; rows that do not decrypt end the call with an error. */
  ghost function VerdictOf(env: Env, s: State, c: Credentials): Verdict {
    var found := FindUser(s.users, LoginKey(env, c).0);
    if found.None? || !env.verify(c.password, s.users[found.value].passwordHash) then Rejected
    else
      match DecryptUser(env, found.value, s.users[found.value])
      case None => Broken
      case Some(user) => Accepted(user)
  }

  /** The end of a login: record the failure, or forget the failures and insert the session. */
  function DoFinish(env: Env, s: State, f: Flight, draw: Draw): (State, Reply) {
    var key, hash := LoginKey(env, f.credentials), env.hashToken(draw.token);
    match f.verdict
    case Accepted(user) =>
      if hash in s.sessions then (s, Failed(Internal))
      else
        (s.(attempts := s.attempts - {key},
            sessions := s.sessions[hash := SessionRow(user.id, s.now + env.sessionTtl, None)]),
         SignedIn(user, draw.token, s.now + env.sessionTtl))
    case Rejected =>
      (s.(attempts := s.attempts[key := Throttle.Recorded(Lookup(s.attempts, key), s.now)]), Failed(InvalidCredentials))
    case _ => (s, Failed(Internal))
  }

  /** The phases put together are the serial login. */
  lemma LoginIsCheckThenFinish(env: Env, s: State, c: Credentials, work: nat, draw: Draw)
    ensures
      DoLogin(env, s, c, work, draw)
      == if !WellFormed(env, c) then (s, Failed(InvalidCredentials))
         else if Gated(env, s, c) then (s, Failed(TooManyAttempts))
         else DoFinish(env, s.(now := s.now + work), Flight(c, VerdictOf(env, s, c)), draw)
  {
  }

  /** The password of the accepted flight still verifies against the user's present hash. */
  predicate UpToDate(env: Env, s: State, f: Flight) {
    && f.verdict.Accepted? && f.verdict.user.id in s.users
    && env.verify(f.credentials.password, s.users[f.verdict.user.id].passwordHash)
  }

  predicate Running(w: World, i: nat) {
    i < |w.flights| && !w.flights[i].verdict.Ended?
  }

  ghost predicate Enabled(env: Env, w: World, e: Event) {
    match e
    case Serial(call) => !call.Login?
    case Enter(c) => WellFormed(env, c) && !Gated(env, w.s, c)
    case Check(i) => Running(w, i) && w.flights[i].verdict.Pending?
    case Finish(i, _) => Running(w, i) && !w.flights[i].verdict.Pending?
  }

  function WithVerdict(w: World, i: nat, verdict: Verdict): seq<Flight>
    requires i < |w.flights|
  {
    w.flights[i := w.flights[i].(verdict := verdict)]
  }

  ghost function Finished(env: Env, w: World, i: nat, draw: Draw): World
    requires i < |w.flights|
  {
    var f, hash := w.flights[i], env.hashToken(draw.token);
    var (s, reply) := DoFinish(env, w.s, f, draw);
    if !reply.SignedIn? then w.(s := s, flights := WithVerdict(w, i, Ended))
    else
      World(s, WithVerdict(w, i, Ended), w.grounds[hash := f.credentials.password],
            if UpToDate(env, w.s, f) then w.stale else w.stale + {hash})
  }

  ghost function Next(env: Env, w: World, e: Event): World
    requires Enabled(env, w, e)
  {
    match e
    case Serial(call) =>
      World(Step(env, w.s, call).0, w.flights,
            NextGrounds(env, w.s, call, w.grounds), NextStale(env, w.s, call, w.stale))
    case Enter(c) => w.(flights := w.flights + [Flight(c, Pending)])
    case Check(i) => w.(flights := WithVerdict(w, i, VerdictOf(env, w.s, w.flights[i].credentials)))
    case Finish(i, draw) => Finished(env, w, i, draw)
  }

  ghost predicate Legal(env: Env, w: World, events: seq<Event>)
    decreases |events|
  {
    events == [] || (Enabled(env, w, events[0]) && Legal(env, Next(env, w, events[0]), events[1..]))
  }

  ghost function Final(env: Env, w: World, events: seq<Event>): World
    requires Legal(env, w, events)
    decreases |events|
  {
    if events == [] then w else Final(env, Next(env, w, events[0]), events[1..])
  }

  // ----- What every event keeps -----

  ghost predicate AcceptedUsersExist(w: World) {
    forall i :: 0 <= i < |w.flights| && w.flights[i].verdict.Accepted? ==> w.flights[i].verdict.user.id in w.s.users
  }

  ghost predicate Sound(env: Env, w: World) {
    Consistent(w.s) && GroundedBut(env, w.s, w.grounds, w.stale) && AcceptedUsersExist(w)
  }

  lemma UsersStay(env: Env, s: State, call: Call)
    ensures s.users.Keys <= Step(env, s, call).0.users.Keys
  {
  }

  lemma FinishConsistent(env: Env, s: State, f: Flight, draw: Draw)
    requires Consistent(s) && (f.verdict.Accepted? ==> f.verdict.user.id in s.users)
    ensures Consistent(DoFinish(env, s, f, draw).0)
  {
  }

  lemma FinishGrounded(env: Env, w: World, i: nat, draw: Draw)
    requires GroundedBut(env, w.s, w.grounds, w.stale) && AcceptedUsersExist(w) && i < |w.flights|
    ensures
      var v := Finished(env, w, i, draw);
      GroundedBut(env, v.s, v.grounds, v.stale)
  {
  }

  lemma AcceptedIsFound(env: Env, s: State, c: Credentials)
    requires VerdictOf(env, s, c).Accepted?
    ensures UpToDate(env, s, Flight(c, VerdictOf(env, s, c)))
  {
  }

  lemma NextSound(env: Env, w: World, e: Event)
    requires SelfVerifying(env) && Sound(env, w) && Enabled(env, w, e)
    ensures Sound(env, Next(env, w, e))
  {
    match e
    case Serial(call) =>
      StepConsistent(env, w.s, call);
      StepGrounded(env, w.s, call, w.grounds, w.stale);
      UsersStay(env, w.s, call);
    case Enter(_) =>
    case Check(i) =>
      var c := w.flights[i].credentials;
      if VerdictOf(env, w.s, c).Accepted? {
        AcceptedIsFound(env, w.s, c);
      }
    case Finish(i, draw) =>
      FinishConsistent(env, w.s, w.flights[i], draw);
      FinishGrounded(env, w, i, draw);
  }

  lemma {:induction false} RunSound(env: Env, w: World, events: seq<Event>)
    requires SelfVerifying(env) && Sound(env, w) && Legal(env, w, events)
    ensures Sound(env, Final(env, w, events))
    decreases |events|
  {
    if events != [] {
      NextSound(env, w, events[0]);
      RunSound(env, Next(env, w, events[0]), events[1..]);
    }
  }

  /** Over any interleaving, a token that authenticates rests on a password that verifies today iff it is not stale. */
  lemma LiveUnlessStale(env: Env, start: Time, events: seq<Event>, token: string)
    requires env.Lawful() && Legal(env, Begin(start), events)
    requires DoAuthenticate(env, Final(env, Begin(start), events).s, token).Profile?
    ensures
      var w := Final(env, Begin(start), events);
      Rests(env, w.s, w.grounds, env.hashToken(token)) <==> env.hashToken(token) !in w.stale
  {
    LawfulVerifiesItself(env);
    RunSound(env, Begin(start), events);
    assert Unrevoked(Final(env, Begin(start), events).s, env.hashToken(token));
  }

  // ----- What happens to a password between check and finish -----

  /** The call sets the user's password. */
  ghost predicate SetsPassword(env: Env, s: State, call: Call, userId: string) {
    && Step(env, s, call).1.Done?
    && match call
       case ResetPassword(token, _, _) => s.resets[env.hashToken(token)].userId == userId
       case ChangePassword(id, _, _, _, _) => id == userId
       case _ => false
  }

  /** The hash that the latest reset or change of the user's password stored, if there was one. */
  ghost function LastSet(env: Env, w: World, events: seq<Event>, userId: string, last: Option<string>): Option<string>
    requires Legal(env, w, events)
    decreases |events|
  {
    if events == [] then last
    else LastSet(env, Next(env, w, events[0]), events[1..], userId, NextSet(env, w, events[0], userId, last))
  }

  ghost function NextSet(env: Env, w: World, e: Event, userId: string, last: Option<string>): Option<string> {
    if e.Serial? && SetsPassword(env, w.s, e.call, userId) then
      Some(env.hashPassword(e.call.password, e.call.draw.salt))
    else last
  }

  function Or(last: Option<string>, first: string): string {
    if last.None? then first else last.value
  }

  lemma StepSetsHash(env: Env, s: State, call: Call, userId: string)
    requires userId in s.users
    ensures
      Step(env, s, call).0.users[userId].passwordHash
      == if SetsPassword(env, s, call, userId) then env.hashPassword(call.password, call.draw.salt)
         else s.users[userId].passwordHash
  {
  }

  /** Over any events the user's hash is the one set last, or the one from before. */
  lemma {:induction false} HashIsLastSet(
    env: Env, w: World, events: seq<Event>, userId: string, last: Option<string>, first: string)
    requires Legal(env, w, events) && userId in w.s.users
    requires w.s.users[userId].passwordHash == Or(last, first)
    ensures
      var v := Final(env, w, events);
      userId in v.s.users && v.s.users[userId].passwordHash == Or(LastSet(env, w, events, userId, last), first)
    decreases |events|
  {
    if events != [] {
      if events[0].Serial? {
        UsersStay(env, w.s, events[0].call);
        StepSetsHash(env, w.s, events[0].call, userId);
      }
      HashIsLastSet(env, Next(env, w, events[0]), events[1..], userId, NextSet(env, w, events[0], userId, last), first);
    }
  }

  /** Over any events a checked flight either stands as it was or has ended. */
  lemma {:induction false} FlightStays(env: Env, w: World, events: seq<Event>, i: nat)
    requires Legal(env, w, events) && i < |w.flights| && !w.flights[i].verdict.Pending?
    ensures
      var v := Final(env, w, events);
      i < |v.flights| && (v.flights[i] == w.flights[i] || v.flights[i].verdict.Ended?)
    decreases |events|
  {
    if events != [] {
      FlightStays(env, Next(env, w, events[0]), events[1..], i);
    }
  }

  /** In between, some reset or change of the user's password succeeded, and the flight's password fails the last one. */
  ghost predicate Outdated(env: Env, w: World, events: seq<Event>, f: Flight)
    requires Legal(env, w, events)
  {
    && f.verdict.Accepted?
    && var last := LastSet(env, w, events, f.verdict.user.id, None);
       last.Some? && !env.verify(f.credentials.password, last.value)
  }

  /** A flight is out of date at its end exactly when its user got a password in between that it does not match. */
  lemma OutdatedExactly(env: Env, w: World, i: nat, events: seq<Event>)
    requires Enabled(env, w, Check(i)) && Legal(env, Next(env, w, Check(i)), events)
    requires Next(env, w, Check(i)).flights[i].verdict.Accepted?
    ensures
      var checked := Next(env, w, Check(i));
      UpToDate(env, Final(env, checked, events).s, checked.flights[i])
      <==> !Outdated(env, checked, events, checked.flights[i])
  {
    var checked := Next(env, w, Check(i));
    var id := checked.flights[i].verdict.user.id;
    AcceptedIsFound(env, w.s, w.flights[i].credentials);
    HashIsLastSet(env, checked, events, id, None, w.s.users[id].passwordHash);
  }

  // ----- The sessions that outlive their password -----

  ghost predicate RegroundedIn(env: Env, w: World, events: seq<Event>, hash: string)
    requires Legal(env, w, events)
    decreases |events|
  {
    events != [] &&
      ((events[0].Serial? && Regrounds(env, w.s, events[0].call, hash))
       || RegroundedIn(env, Next(env, w, events[0]), events[1..], hash))
  }

  lemma SessionsStay(env: Env, w: World, e: Event, hash: string)
    requires Enabled(env, w, e) && hash in w.s.sessions
    ensures hash in Next(env, w, e).s.sessions
  {
    if e.Serial? {
      StepEvolvesSessions(env, w.s, e.call);
    }
  }

  /** A session is stale until ChangePassword takes it along, and no session becomes stale later. */
  lemma {:induction false} StaleUntilRegrounded(env: Env, w: World, events: seq<Event>, hash: string)
    requires Legal(env, w, events) && hash in w.s.sessions
    ensures hash in Final(env, w, events).stale <==> hash in w.stale && !RegroundedIn(env, w, events, hash)
    decreases |events|
  {
    if events != [] {
      SessionsStay(env, w, events[0], hash);
      StaleUntilRegrounded(env, Next(env, w, events[0]), events[1..], hash);
    }
  }

  lemma OpensStaleExactly(env: Env, w: World, i: nat, mid: seq<Event>, draw: Draw)
    requires Enabled(env, w, Check(i)) && Legal(env, Next(env, w, Check(i)), mid)
    requires
      var v := Final(env, Next(env, w, Check(i)), mid);
      && Enabled(env, v, Finish(i, draw)) && DoFinish(env, v.s, v.flights[i], draw).1.SignedIn?
      && v.stale <= v.s.sessions.Keys
    ensures
      var checked := Next(env, w, Check(i));
      var signed := Next(env, Final(env, checked, mid), Finish(i, draw));
      && env.hashToken(draw.token) in signed.s.sessions
      && (env.hashToken(draw.token) in signed.stale <==> Outdated(env, checked, mid, checked.flights[i]))
  {
    FlightStays(env, Next(env, w, Check(i)), mid, i);
    OutdatedExactly(env, w, i, mid);
  }

  lemma EndsStaleExactly(env: Env, w: World, events: seq<Event>, token: string)
    requires SelfVerifying(env) && Sound(env, w) && Legal(env, w, events)
    requires env.hashToken(token) in w.s.sessions
    requires DoAuthenticate(env, Final(env, w, events).s, token).Profile?
    ensures
      var end, hash := Final(env, w, events), env.hashToken(token);
      && hash in end.s.sessions
      && (!Rests(env, end.s, end.grounds, hash) <==> hash in w.stale && !RegroundedIn(env, w, events, hash))
  {
    RunSound(env, w, events);
    StaleUntilRegrounded(env, w, events, env.hashToken(token));
    assert Unrevoked(Final(env, w, events).s, env.hashToken(token));
  }

  lemma CheckedRunSound(env: Env, start: Time, before: seq<Event>, i: nat, mid: seq<Event>)
    requires SelfVerifying(env) && Legal(env, Begin(start), before)
    requires Enabled(env, Final(env, Begin(start), before), Check(i))
    requires Legal(env, Next(env, Final(env, Begin(start), before), Check(i)), mid)
    ensures Sound(env, Final(env, Next(env, Final(env, Begin(start), before), Check(i)), mid))
  {
    RunSound(env, Begin(start), before);
    NextSound(env, Final(env, Begin(start), before), Check(i));
    RunSound(env, Next(env, Final(env, Begin(start), before), Check(i)), mid);
  }

  /**
   Over any legal run in which login i checks its password, and later opens a session: a token of that session
   that authenticates in the end rests on a password that no longer verifies exactly when, between check and
   finish, resets or changes of the user's password succeeded, the last of them to a password that the login's
   does not match, and no ChangePassword has been made from the session since.
   */
  lemma OverlappingSessionsExactly(
    env: Env, start: Time, before: seq<Event>, i: nat, mid: seq<Event>, draw: Draw, after: seq<Event>)
    requires env.Lawful() && Legal(env, Begin(start), before)
    requires
      var w := Final(env, Begin(start), before);
      Enabled(env, w, Check(i)) && Legal(env, Next(env, w, Check(i)), mid)
    requires
      var v := Final(env, Next(env, Final(env, Begin(start), before), Check(i)), mid);
      && Enabled(env, v, Finish(i, draw)) && DoFinish(env, v.s, v.flights[i], draw).1.SignedIn?
      && Legal(env, Next(env, v, Finish(i, draw)), after)
      && DoAuthenticate(env, Final(env, Next(env, v, Finish(i, draw)), after).s, draw.token).Profile?
    ensures
      var checked := Next(env, Final(env, Begin(start), before), Check(i));
      var signed := Next(env, Final(env, checked, mid), Finish(i, draw));
      var end, hash := Final(env, signed, after), env.hashToken(draw.token);
      && hash in end.s.sessions
      && (!Rests(env, end.s, end.grounds, hash)
          <==> Outdated(env, checked, mid, checked.flights[i]) && !RegroundedIn(env, signed, after, hash))
  {
    var w := Final(env, Begin(start), before);
    var v := Final(env, Next(env, w, Check(i)), mid);
    LawfulVerifiesItself(env);
    CheckedRunSound(env, start, before, i, mid);
    OpensStaleExactly(env, w, i, mid, draw);
    NextSound(env, v, Finish(i, draw));
    EndsStaleExactly(env, Next(env, v, Finish(i, draw)), after, draw.token);
  }

  // ----- It does happen -----

  lemma FirstEvent(env: Env, w: World, e: Event, rest: seq<Event>)
    ensures Legal(env, w, [e] + rest) <==> Enabled(env, w, e) && Legal(env, Next(env, w, e), rest)
    ensures Legal(env, w, [e] + rest) ==> Final(env, w, [e] + rest) == Final(env, Next(env, w, e), rest)
  {
    assert ([e] + rest)[0] == e && ([e] + rest)[1..] == rest;
  }

  /** A registration, a login up to its password check, a password change from the first session, the login's end. */
  function StraddlingRun(
    r: Registration, first: Draw, ip: string, password: Bytes, change: Draw, second: Draw): seq<Event>
  {
    [Serial(Register(r, first)), Enter(Credentials(r.email, r.password, ip)), Check(0),
     Serial(ChangePassword(first.id, first.token, r.password, password, change)), Finish(0, second)]
  }

  /** Any valid registration and any new password that the old one does not match will do. */
  predicate Straddles(env: Env, r: Registration, first: Draw, password: Bytes, change: Draw, second: Draw) {
    && ValidRegistration(env, TrimmedRegistration(env, r)) && env.Presentable(r.password)
    && env.ValidPassword(password) && !env.verify(r.password, env.hashPassword(password, change.salt))
    && first.id != "" && first.token != "" && second.token != ""
    && env.hashToken(first.token) != env.hashToken(second.token) && env.sessionTtl > 0
  }

  function Registered(env: Env, r: Registration, first: Draw): User {
    var t := TrimmedRegistration(env, r);
    User(first.id, t.email, t.firstName, t.lastName, t.phone, "customer")
  }

  lemma NewUserIsAccepted(env: Env, start: Time, r: Registration, first: Draw, c: Credentials)
    requires R.Undoes(env) && SelfVerifying(env)
    requires ValidRegistration(env, TrimmedRegistration(env, r))
    requires c.email == r.email && c.password == r.password
    ensures
      var s := DoRegister(env, Empty(start), r, first).0;
      && s.users == map[first.id := NewUserRow(env, TrimmedRegistration(env, r), first)]
      && s.sessions == map[env.hashToken(first.token) := SessionRow(first.id, start + env.sessionTtl, None)]
      && s.now == start && s.attempts == map[]
      && VerdictOf(env, s, c) == Accepted(Registered(env, r, first))
  {
    var s := DoRegister(env, Empty(start), r, first).0;
    R.NewRowStands(env, TrimmedRegistration(env, r), first);
    assert FoundBy(s.users, first.id, LoginKey(env, c).0);
  }

  lemma ChangedPassword(
    env: Env, s: State, r: Registration, first: Draw, password: Bytes, change: Draw, second: Draw)
    requires SelfVerifying(env) && Straddles(env, r, first, password, change, second)
    requires s.users == map[first.id := NewUserRow(env, TrimmedRegistration(env, r), first)]
    ensures
      var (t, reply) := DoChangePassword(env, s, first.id, first.token, r.password, password, change);
      && reply == Done && t.now == s.now
      && t.users == s.users[first.id := s.users[first.id].(passwordHash := env.hashPassword(password, change.salt))]
      && t.sessions.Keys == s.sessions.Keys
  {
  }

  lemma FinishAuthenticates(env: Env, s: State, f: Flight, draw: Draw)
    requires f.verdict.Accepted? && LiveUser(s, f.verdict.user.id)
    requires DecryptUser(env, f.verdict.user.id, s.users[f.verdict.user.id]) == Some(f.verdict.user)
    requires draw.token != "" && env.hashToken(draw.token) !in s.sessions && env.sessionTtl > 0
    ensures DoAuthenticate(env, DoFinish(env, s, f, draw).0, draw.token) == Profile(f.verdict.user)
    ensures DoFinish(env, s, f, draw).0.users == s.users
  {
  }

  lemma WholeRun(env: Env, w0: World, e0: Event, e1: Event, e2: Event, e3: Event, e4: Event)
    requires Enabled(env, w0, e0) && Enabled(env, Next(env, w0, e0), e1)
    requires Enabled(env, Next(env, Next(env, w0, e0), e1), e2)
    requires Enabled(env, Next(env, Next(env, Next(env, w0, e0), e1), e2), e3)
    requires Enabled(env, Next(env, Next(env, Next(env, Next(env, w0, e0), e1), e2), e3), e4)
    ensures Legal(env, w0, [e0, e1, e2, e3, e4])
    ensures
      Final(env, w0, [e0, e1, e2, e3, e4])
      == Next(env, Next(env, Next(env, Next(env, Next(env, w0, e0), e1), e2), e3), e4)
  {
    var w1 := Next(env, w0, e0);
    var w2 := Next(env, w1, e1);
    var w3 := Next(env, w2, e2);
    var w4 := Next(env, w3, e3);
    assert [e0, e1, e2, e3, e4] == [e0] + [e1, e2, e3, e4] && [e1, e2, e3, e4] == [e1] + [e2, e3, e4];
    assert [e2, e3, e4] == [e2] + [e3, e4] && [e3, e4] == [e3] + [e4] && [e4] == [e4] + [];
    FirstEvent(env, w4, e4, []);
    FirstEvent(env, w3, e3, [e4]);
    FirstEvent(env, w2, e2, [e3, e4]);
    FirstEvent(env, w1, e1, [e2, e3, e4]);
    FirstEvent(env, w0, e0, [e1, e2, e3, e4]);
  }

  /** From empty tables: the login that straddles the change ends in a token that works without a valid password. */
  lemma StraddlingLoginAuthenticates(
    env: Env, start: Time, r: Registration, first: Draw, ip: string, password: Bytes, change: Draw, second: Draw)
    requires env.Lawful() && Straddles(env, r, first, password, change, second)
    ensures Legal(env, Begin(start), StraddlingRun(r, first, ip, password, change, second))
    ensures
      var w := Final(env, Begin(start), StraddlingRun(r, first, ip, password, change, second));
      && DoAuthenticate(env, w.s, second.token) == Profile(Registered(env, r, first))
      && first.id in w.s.users && !env.verify(r.password, w.s.users[first.id].passwordHash)
  {
    R.LawfulIsFaithful(env);
    LawfulVerifiesItself(env);
    StraddlingSteps(env, start, r, first, ip, password, change, second);
  }

  /** After the first three events the login is accepted and nothing else has happened since the registration. */
  lemma UpToTheCheck(env: Env, start: Time, r: Registration, first: Draw, c: Credentials)
    requires R.Undoes(env) && SelfVerifying(env)
    requires ValidRegistration(env, TrimmedRegistration(env, r)) && WellFormed(env, c)
    requires c.email == r.email && c.password == r.password
    ensures
      var w1 := Next(env, Begin(start), Serial(Register(r, first)));
      && Enabled(env, w1, Enter(c)) && Enabled(env, Next(env, w1, Enter(c)), Check(0))
      && var w3 := Next(env, Next(env, w1, Enter(c)), Check(0));
         w3.s == DoRegister(env, Empty(start), r, first).0 && w3.flights == [Flight(c, Accepted(Registered(env, r, first)))]
  {
    NewUserIsAccepted(env, start, r, first, c);
  }

  lemma NewRowReads(env: Env, r: Registration, first: Draw, hash: string)
    requires R.Undoes(env) && ValidRegistration(env, TrimmedRegistration(env, r))
    ensures
      var row := NewUserRow(env, TrimmedRegistration(env, r), first).(passwordHash := hash);
      row.Live() && DecryptUser(env, first.id, row) == Some(Registered(env, r, first))
  {
    R.NewRowStands(env, TrimmedRegistration(env, r), first);
  }

  /** From the check on: the change commits, and then the login opens a session that authenticates. */
  lemma FromTheCheck(
    env: Env, w: World, r: Registration, first: Draw, c: Credentials, password: Bytes, change: Draw, second: Draw)
    requires R.Undoes(env) && SelfVerifying(env) && Straddles(env, r, first, password, change, second)
    requires w.flights == [Flight(c, Accepted(Registered(env, r, first)))]
    requires w.s.users == map[first.id := NewUserRow(env, TrimmedRegistration(env, r), first)]
    requires env.hashToken(second.token) !in w.s.sessions
    ensures
      var e3 := Serial(ChangePassword(first.id, first.token, r.password, password, change));
      && Enabled(env, w, e3) && Enabled(env, Next(env, w, e3), Finish(0, second))
      && var v := Next(env, Next(env, w, e3), Finish(0, second));
         && DoAuthenticate(env, v.s, second.token) == Profile(Registered(env, r, first))
         && first.id in v.s.users && !env.verify(r.password, v.s.users[first.id].passwordHash)
  {
    ChangedPassword(env, w.s, r, first, password, change, second);
    NewRowReads(env, r, first, env.hashPassword(password, change.salt));
    var t := DoChangePassword(env, w.s, first.id, first.token, r.password, password, change).0;
    FinishAuthenticates(env, t, w.flights[0], second);
  }

  lemma StraddlingSteps(
    env: Env, start: Time, r: Registration, first: Draw, ip: string, password: Bytes, change: Draw, second: Draw)
    requires R.Undoes(env) && SelfVerifying(env) && Straddles(env, r, first, password, change, second)
    ensures Legal(env, Begin(start), StraddlingRun(r, first, ip, password, change, second))
    ensures
      var w := Final(env, Begin(start), StraddlingRun(r, first, ip, password, change, second));
      && DoAuthenticate(env, w.s, second.token) == Profile(Registered(env, r, first))
      && first.id in w.s.users && !env.verify(r.password, w.s.users[first.id].passwordHash)
  {
    var c := Credentials(r.email, r.password, ip);
    var e0, e3 := Serial(Register(r, first)), Serial(ChangePassword(first.id, first.token, r.password, password, change));
    UpToTheCheck(env, start, r, first, c);
    var w3 := Next(env, Next(env, Next(env, Begin(start), e0), Enter(c)), Check(0));
    assert w3.s.users == map[first.id := NewUserRow(env, TrimmedRegistration(env, r), first)]
        && env.hashToken(second.token) !in w3.s.sessions
    by {
      NewUserIsAccepted(env, start, r, first, c);
    }
    FromTheCheck(env, w3, r, first, c, password, change, second);
    WholeRun(env, Begin(start), e0, Enter(c), Check(0), e3, Finish(0, second));
  }
}
