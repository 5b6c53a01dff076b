/** The throttle as the accounts use it: serial calls drive the timed automaton, and blocks are honoured. */
module IdentityThrottle {
  import opened Common
  import opened IdentityModel
  import opened Windows
  import Throttle

  // ----- Serial calls are runs of the automaton with at most one call in flight -----

  /** What one login does to the login-attempt table, as steps of the automaton. */
  ghost function LoginSteps(env: Env, s: State, c: Credentials, work: nat, draw: Draw): seq<Throttle.Step> {
    var key, reply := LoginKey(env, c), DoLogin(env, s, c, work, draw).1;
    if !WellFormed(env, c) then []
    else if Gated(env, s, c) then [Throttle.Gate(key)]
    else
      [Throttle.Gate(key), Throttle.Tick(work),
       if reply == Failed(InvalidCredentials) then Throttle.Fail(key)
       else if reply.SignedIn? then Throttle.Succeed(key) else Throttle.Abandon(key)]
  }

  ghost function StepsOf(env: Env, s: State, call: Call): seq<Throttle.Step> {
    match call
    case Wait(delay) => [Throttle.Tick(delay)]
    case Login(c, work, draw) => LoginSteps(env, s, c, work, draw)
    case _ => []
  }

  ghost function RunSteps(env: Env, s: State, calls: seq<Call>): seq<Throttle.Step>
    decreases |calls|
  {
    if calls == [] then []
    else StepsOf(env, s, calls[0]) + RunSteps(env, Step(env, s, calls[0]).0, calls[1..])
  }

  predicate Mirrors(s: State, t: Throttle.State) {
    t.now == s.now && t.rows == s.attempts && t.inFlight == multiset{}
  }

  lemma ThreeSteps(k: nat, key: Throttle.Key, t: Throttle.State, a: Throttle.Step, b: Throttle.Step, c: Throttle.Step)
    ensures
      Throttle.Final(t, [a, b, c]) == Throttle.Apply(Throttle.Apply(Throttle.Apply(t, a), b), c)
    ensures
      Throttle.Legal(k, key, t, [a, b, c])
      <==> && Throttle.Enabled(k, key, t, a)
           && Throttle.Enabled(k, key, Throttle.Apply(t, a), b)
           && Throttle.Enabled(k, key, Throttle.Apply(Throttle.Apply(t, a), b), c)
  {
    assert [a, b, c] == [a] + ([b] + [c]);
    var t1 := Throttle.Apply(t, a);
    var t2 := Throttle.Apply(t1, b);
    Throttle.OneStep(k, key, t, a);
    Throttle.OneStep(k, key, t1, b);
    Throttle.OneStep(k, key, t2, c);
    Throttle.RunsCompose(k, key, t1, [b], [c]);
    Throttle.RunsCompose(k, key, t, [a], [b] + [c]);
  }

  lemma LoginMirrored(env: Env, s: State, c: Credentials, work: nat, draw: Draw, t: Throttle.State, any: Throttle.Key)
    requires Mirrors(s, t)
    ensures Throttle.Legal(1, any, t, LoginSteps(env, s, c, work, draw))
    ensures Mirrors(DoLogin(env, s, c, work, draw).0, Throttle.Final(t, LoginSteps(env, s, c, work, draw)))
  {
    var key := LoginKey(env, c);
    if WellFormed(env, c) {
      if Gated(env, s, c) {
        Throttle.OneStep(1, any, t, Throttle.Gate(key));
      } else {
        var reply := DoLogin(env, s, c, work, draw).1;
        var last := if reply == Failed(InvalidCredentials) then Throttle.Fail(key)
                    else if reply.SignedIn? then Throttle.Succeed(key) else Throttle.Abandon(key);
        ThreeSteps(1, any, t, Throttle.Gate(key), Throttle.Tick(work), last);
        assert multiset{} + multiset{key} - multiset{key} == multiset{};
      }
    }
  }

  lemma StepMirrored(env: Env, s: State, call: Call, t: Throttle.State, any: Throttle.Key)
    requires Mirrors(s, t)
    ensures Throttle.Legal(1, any, t, StepsOf(env, s, call))
    ensures Mirrors(Step(env, s, call).0, Throttle.Final(t, StepsOf(env, s, call)))
  {
    match call
    case Wait(delay) => Throttle.OneStep(1, any, t, Throttle.Tick(delay));
    case Login(c, work, draw) => LoginMirrored(env, s, c, work, draw, t, any);
    case _ => OthersLeaveAttempts(env, s, call);
  }

  lemma OthersLeaveAttempts(env: Env, s: State, call: Call)
    requires !call.Wait? && !call.Login?
    ensures Step(env, s, call).0.attempts == s.attempts && Step(env, s, call).0.now == s.now
  {
  }

  lemma {:induction false} RunMirrored(env: Env, s: State, calls: seq<Call>, t: Throttle.State, any: Throttle.Key)
    requires Mirrors(s, t)
    ensures Throttle.Legal(1, any, t, RunSteps(env, s, calls))
    ensures Mirrors(Run(env, s, calls), Throttle.Final(t, RunSteps(env, s, calls)))
    decreases |calls|
  {
    if calls != [] {
      var here := StepsOf(env, s, calls[0]);
      StepMirrored(env, s, calls[0], t, any);
      RunMirrored(env, Step(env, s, calls[0]).0, calls[1..], Throttle.Final(t, here), any);
      Throttle.RunsCompose(1, any, t, here, RunSteps(env, Step(env, s, calls[0]).0, calls[1..]));
    }
  }

  /**
   In every state that serial calls reach, a row counts at most 6 failures, carries a block exactly from
   the fifth on, and any 15 minutes without a successful login saw at most 8 failed verifications.
   */
  lemma SerialLoginBounds(env: Env, start: Time, calls: seq<Call>, key: Throttle.Key, from: Time)
    ensures
      var s := Run(env, Empty(start), calls);
      var failures := Throttle.FailuresOf(Throttle.Final(Throttle.Init(start), RunSteps(env, Empty(start), calls)), key);
      && Throttle.RowMatchesLog(Lookup(s.attempts, key), failures, s.now)
      && (key in s.attempts ==> s.attempts[key].failureCount <= 6)
      && CountIn(failures, from, from + Throttle.WINDOW) <= 8
  {
    var steps := RunSteps(env, Empty(start), calls);
    RunMirrored(env, Empty(start), calls, Throttle.Init(start), key);
    Throttle.RowInvariant(1, key, Throttle.Init(start), steps, key);
    Throttle.InterleavedBound(1, key, start, steps);
    Throttle.SlidingWindowBound(key, start, steps, from);
  }

  // ----- A block is honoured -----

  ghost predicate BlockedUntil(s: State, key: Throttle.Key, until: Time) {
    key in s.attempts && s.attempts[key].blockedUntil == Some(until)
  }

  /** Before the block ends a well-formed login is refused, whatever the password, and changes nothing. */
  lemma BlockedLoginChangesNothing(env: Env, s: State, c: Credentials, work: nat, draw: Draw, until: Time)
    requires BlockedUntil(s, LoginKey(env, c), until)
    requires WellFormed(env, c)
    ensures DoLogin(env, s, c, work, draw) == (s, Failed(TooManyAttempts)) <==> s.now < until
  {
  }

  lemma LoginKeepsBlock(env: Env, s: State, c: Credentials, work: nat, draw: Draw, key: Throttle.Key, until: Time)
    requires BlockedUntil(s, key, until) && s.now < until
    ensures Lookup(DoLogin(env, s, c, work, draw).0.attempts, key) == Some(s.attempts[key])
  {
  }

  lemma StepKeepsBlock(env: Env, s: State, call: Call, key: Throttle.Key, until: Time)
    requires BlockedUntil(s, key, until) && s.now < until
    ensures Lookup(Step(env, s, call).0.attempts, key) == Some(s.attempts[key])
  {
    match call
    case Wait(_) =>
    case Login(c, work, draw) => LoginKeepsBlock(env, s, c, work, draw, key, until);
    case _ => OthersLeaveAttempts(env, s, call);
  }

  /** No sequence of calls lifts or moves a block before its time. */
  lemma {:induction false} BlockHolds(env: Env, s: State, calls: seq<Call>, key: Throttle.Key, until: Time)
    requires BlockedUntil(s, key, until)
    requires Run(env, s, calls).now < until
    ensures Lookup(Run(env, s, calls).attempts, key) == Some(s.attempts[key])
    decreases |calls|
  {
    if calls != [] {
      StepAdvances(env, s, calls[0]);
      RunAdvances(env, Step(env, s, calls[0]).0, calls[1..]);
      StepKeepsBlock(env, s, calls[0], key, until);
      BlockHolds(env, Step(env, s, calls[0]).0, calls[1..], key, until);
    }
  }

  /** Hence every well-formed login for the pair fails until the block ends, in every continuation. */
  lemma BlockRefusesLogins(
    env: Env, s: State, calls: seq<Call>, c: Credentials, work: nat, draw: Draw, until: Time)
    requires BlockedUntil(s, LoginKey(env, c), until) && WellFormed(env, c)
    requires Run(env, s, calls).now < until
    ensures
      DoLogin(env, Run(env, s, calls), c, work, draw) == (Run(env, s, calls), Failed(TooManyAttempts))
  {
    BlockHolds(env, s, calls, LoginKey(env, c), until);
    BlockedLoginChangesNothing(env, Run(env, s, calls), c, work, draw, until);
  }
}
