/** Overlapping logins are runs of the throttle's automaton, and reach its bound. */
module OverlapThrottle {
  import opened Common
  import opened IdentityModel
  import opened IdentityOverlap
  import Throttle

  // ----- Events as steps of the automaton -----

  /** How many logins for the pair are past the gate. */
  function InFlight(env: Env, flights: seq<Flight>, key: Throttle.Key): nat {
    if flights == [] then 0
    else
      var n := |flights| - 1;
      InFlight(env, flights[..n], key)
      + if !flights[n].verdict.Ended? && LoginKey(env, flights[n].credentials) == key then 1 else 0
  }

  function StepsOf(env: Env, w: World, e: Event): seq<Throttle.Step> {
    match e
    case Serial(call) => if call.Wait? then [Throttle.Tick(call.delay)] else []
    case Enter(c) => [Throttle.Gate(LoginKey(env, c))]
    case Check(_) => []
    case Finish(i, draw) => if i < |w.flights| then [FinishStep(env, w.s, w.flights[i], draw)] else []
  }

  function FinishStep(env: Env, s: State, f: Flight, draw: Draw): Throttle.Step {
    var key := LoginKey(env, f.credentials);
    if f.verdict.Rejected? then Throttle.Fail(key)
    else if DoFinish(env, s, f, draw).1.SignedIn? then Throttle.Succeed(key)
    else Throttle.Abandon(key)
  }

  ghost function RunSteps(env: Env, w: World, events: seq<Event>): seq<Throttle.Step>
    requires Legal(env, w, events)
    decreases |events|
  {
    if events == [] then [] else StepsOf(env, w, events[0]) + RunSteps(env, Next(env, w, events[0]), events[1..])
  }

  ghost predicate Mirrors(env: Env, w: World, t: Throttle.State) {
    t.now == w.s.now && t.rows == w.s.attempts && forall q :: t.inFlight[q] == InFlight(env, w.flights, q)
  }

  /** At most k logins for the pair are past the gate at once. */
  ghost predicate AtMost(env: Env, k: nat, key: Throttle.Key, w: World, events: seq<Event>)
    requires Legal(env, w, events)
    decreases |events|
  {
    events != [] ==>
      && (events[0].Enter? && LoginKey(env, events[0].credentials) == key ==> InFlight(env, w.flights, key) < k)
      && AtMost(env, k, key, Next(env, w, events[0]), events[1..])
  }

  lemma EnterCounts(env: Env, flights: seq<Flight>, f: Flight)
    requires !f.verdict.Ended?
    ensures forall q ::
      InFlight(env, flights + [f], q)
      == InFlight(env, flights, q) + if q == LoginKey(env, f.credentials) then 1 else 0
  {
    assert (flights + [f])[..|flights|] == flights;
  }

  /** A new verdict leaves the count alone, and the end of a flight takes one away. */
  lemma {:induction false} VerdictCounts(env: Env, flights: seq<Flight>, i: nat, verdict: Verdict, q: Throttle.Key)
    requires i < |flights| && !flights[i].verdict.Ended?
    ensures
      var here := if LoginKey(env, flights[i].credentials) == q then 1 else 0;
      && InFlight(env, flights, q) >= here
      && InFlight(env, flights[i := flights[i].(verdict := verdict)], q)
         == InFlight(env, flights, q) - if verdict.Ended? then here else 0
    decreases |flights|
  {
    var n, changed := |flights| - 1, flights[i := flights[i].(verdict := verdict)];
    if i == n {
      assert changed[..n] == flights[..n];
    } else {
      assert changed[..n] == flights[..n][i := flights[i].(verdict := verdict)];
      VerdictCounts(env, flights[..n], i, verdict, q);
    }
  }

  lemma AllVerdictCounts(env: Env, flights: seq<Flight>, i: nat, verdict: Verdict)
    requires i < |flights| && !flights[i].verdict.Ended?
    ensures InFlight(env, flights, LoginKey(env, flights[i].credentials)) > 0
    ensures forall q ::
      InFlight(env, flights[i := flights[i].(verdict := verdict)], q)
      == InFlight(env, flights, q) - if verdict.Ended? && q == LoginKey(env, flights[i].credentials) then 1 else 0
  {
    forall q
      ensures InFlight(env, flights[i := flights[i].(verdict := verdict)], q)
        == InFlight(env, flights, q) - if verdict.Ended? && q == LoginKey(env, flights[i].credentials) then 1 else 0
    {
      VerdictCounts(env, flights, i, verdict, q);
    }
    VerdictCounts(env, flights, i, verdict, LoginKey(env, flights[i].credentials));
  }

  lemma SerialMirrored(env: Env, k: nat, key: Throttle.Key, w: World, call: Call, t: Throttle.State)
    requires Mirrors(env, w, t) && !call.Login?
    ensures Throttle.Legal(k, key, t, StepsOf(env, w, Serial(call)))
    ensures
      Mirrors(env, w.(s := Step(env, w.s, call).0), Throttle.Final(t, StepsOf(env, w, Serial(call))))
  {
    if call.Wait? {
      Throttle.OneStep(k, key, t, Throttle.Tick(call.delay));
    } else {
      OthersLeaveThrottle(env, w.s, call);
    }
  }

  lemma OthersLeaveThrottle(env: Env, s: State, call: Call)
    requires !call.Wait? && !call.Login?
    ensures Step(env, s, call).0.attempts == s.attempts && Step(env, s, call).0.now == s.now
  {
  }

  lemma FinishRowsMirrored(env: Env, w: World, i: nat, draw: Draw, t: Throttle.State)
    requires t.now == w.s.now && t.rows == w.s.attempts && Enabled(env, w, Finish(i, draw))
    ensures
      var u, v := Throttle.Apply(t, FinishStep(env, w.s, w.flights[i], draw)), Next(env, w, Finish(i, draw));
      u.now == v.s.now && u.rows == v.s.attempts
  {
  }

  lemma FinishMirrored(env: Env, k: nat, key: Throttle.Key, w: World, i: nat, draw: Draw, t: Throttle.State)
    requires Mirrors(env, w, t) && Enabled(env, w, Finish(i, draw))
    ensures
      var step := FinishStep(env, w.s, w.flights[i], draw);
      && Throttle.Enabled(k, key, t, step)
      && Mirrors(env, Next(env, w, Finish(i, draw)), Throttle.Apply(t, step))
  {
    FinishRowsMirrored(env, w, i, draw, t);
    AllVerdictCounts(env, w.flights, i, Ended);
    EndedFlights(env, w, i, draw);
    var f := w.flights[i];
    assert t.inFlight[LoginKey(env, f.credentials)] > 0;
    EndingCounts(t, FinishStep(env, w.s, f, draw), LoginKey(env, f.credentials));
  }

  lemma EndedFlights(env: Env, w: World, i: nat, draw: Draw)
    requires Enabled(env, w, Finish(i, draw))
    ensures Next(env, w, Finish(i, draw)).flights == w.flights[i := w.flights[i].(verdict := Ended)]
  {
  }

  lemma EndingCounts(t: Throttle.State, step: Throttle.Step, key: Throttle.Key)
    requires step == Throttle.Fail(key) || step == Throttle.Succeed(key) || step == Throttle.Abandon(key)
    requires t.inFlight[key] > 0
    ensures forall q :: Throttle.Apply(t, step).inFlight[q] == t.inFlight[q] - if q == key then 1 else 0
  {
  }

  lemma EnterMirrored(env: Env, k: nat, key: Throttle.Key, w: World, c: Credentials, t: Throttle.State)
    requires Mirrors(env, w, t) && Enabled(env, w, Enter(c))
    requires LoginKey(env, c) == key ==> InFlight(env, w.flights, key) < k
    ensures Throttle.Enabled(k, key, t, Throttle.Gate(LoginKey(env, c)))
    ensures Mirrors(env, Next(env, w, Enter(c)), Throttle.Apply(t, Throttle.Gate(LoginKey(env, c))))
  {
    EnterCounts(env, w.flights, Flight(c, Pending));
  }

  lemma EventMirrored(env: Env, k: nat, key: Throttle.Key, w: World, e: Event, t: Throttle.State)
    requires Mirrors(env, w, t) && Enabled(env, w, e)
    requires e.Enter? && LoginKey(env, e.credentials) == key ==> InFlight(env, w.flights, key) < k
    ensures Throttle.Legal(k, key, t, StepsOf(env, w, e))
    ensures Mirrors(env, Next(env, w, e), Throttle.Final(t, StepsOf(env, w, e)))
  {
    match e
    case Serial(call) => SerialMirrored(env, k, key, w, call, t);
    case Enter(c) =>
      EnterMirrored(env, k, key, w, c, t);
      Throttle.OneStep(k, key, t, Throttle.Gate(LoginKey(env, c)));
    case Check(i) => CheckMirrored(env, w, i, t);
    case Finish(i, draw) =>
      FinishMirrored(env, k, key, w, i, draw, t);
      Throttle.OneStep(k, key, t, FinishStep(env, w.s, w.flights[i], draw));
  }

  lemma CheckMirrored(env: Env, w: World, i: nat, t: Throttle.State)
    requires Mirrors(env, w, t) && Enabled(env, w, Check(i))
    ensures Mirrors(env, Next(env, w, Check(i)), t)
  {
    var verdict := VerdictOf(env, w.s, w.flights[i].credentials);
    assert !verdict.Ended?;
    AllVerdictCounts(env, w.flights, i, verdict);
  }

  lemma {:induction false} EventsMirrored(
    env: Env, k: nat, key: Throttle.Key, w: World, events: seq<Event>, t: Throttle.State)
    requires Mirrors(env, w, t) && Legal(env, w, events) && AtMost(env, k, key, w, events)
    ensures Throttle.Legal(k, key, t, RunSteps(env, w, events))
    ensures Mirrors(env, Final(env, w, events), Throttle.Final(t, RunSteps(env, w, events)))
    decreases |events|
  {
    if events != [] {
      var here, v := StepsOf(env, w, events[0]), Next(env, w, events[0]);
      EventMirrored(env, k, key, w, events[0], t);
      EventsMirrored(env, k, key, v, events[1..], Throttle.Final(t, here));
      Throttle.RunsCompose(k, key, t, here, RunSteps(env, v, events[1..]));
    }
  }

  /** With at most k logins for a pair past the gate at once, no run of accounts stores more than 4 + 2k failures for it. */
  lemma OverlappingLoginsBound(env: Env, start: Time, events: seq<Event>, k: nat, key: Throttle.Key)
    requires Legal(env, Begin(start), events) && AtMost(env, k, key, Begin(start), events)
    ensures
      var s := Final(env, Begin(start), events).s;
      key in s.attempts ==>
        && s.attempts[key].failureCount <= 4 + 2 * k
        && (s.attempts[key].blockedUntil.Some? <==> s.attempts[key].failureCount >= Throttle.LIMIT)
  {
    var steps := RunSteps(env, Begin(start), events);
    EventsMirrored(env, k, key, Begin(start), events, Throttle.Init(start));
    Throttle.RowInvariant(k, key, Throttle.Init(start), steps, key);
    Throttle.InterleavedBound(k, key, start, steps);
  }

  // ----- The bound is reached -----

  /** Only gates, failures and pauses, as in the automaton's fullest run. */
  predicate Failing(steps: seq<Throttle.Step>, key: Throttle.Key) {
    forall i :: 0 <= i < |steps| ==> steps[i].Tick? || steps[i] == Throttle.Gate(key) || steps[i] == Throttle.Fail(key)
  }

  /** Nobody has the e-mail, and every login under way is a rejected one for it. */
  ghost predicate AllRejected(env: Env, w: World, c: Credentials) {
    && FindUser(w.s.users, LoginKey(env, c).0).None?
    && forall i :: 0 <= i < |w.flights| ==> w.flights[i].verdict.Ended? || w.flights[i] == Flight(c, Rejected)
  }

  lemma {:induction false} SomeFlight(env: Env, flights: seq<Flight>, key: Throttle.Key) returns (i: nat)
    requires InFlight(env, flights, key) > 0
    ensures i < |flights| && !flights[i].verdict.Ended? && LoginKey(env, flights[i].credentials) == key
    decreases |flights|
  {
    var n := |flights| - 1;
    if !flights[n].verdict.Ended? && LoginKey(env, flights[n].credentials) == key {
      i := n;
    } else {
      i := SomeFlight(env, flights[..n], key);
    }
  }

  lemma {:induction false} EventsCompose(
    env: Env, k: nat, key: Throttle.Key, w: World, first: seq<Event>, second: seq<Event>)
    requires Legal(env, w, first) && AtMost(env, k, key, w, first)
    requires Legal(env, Final(env, w, first), second) && AtMost(env, k, key, Final(env, w, first), second)
    ensures Legal(env, w, first + second) && AtMost(env, k, key, w, first + second)
    ensures Final(env, w, first + second) == Final(env, Final(env, w, first), second)
    decreases |first|
  {
    if first == [] {
      assert first + second == second;
    } else {
      assert (first + second)[0] == first[0] && (first + second)[1..] == first[1..] + second;
      EventsCompose(env, k, key, Next(env, w, first[0]), first[1..], second);
    }
  }

  lemma OneEvent(env: Env, k: nat, key: Throttle.Key, w: World, e: Event)
    requires Enabled(env, w, e)
    requires e.Enter? && LoginKey(env, e.credentials) == key ==> InFlight(env, w.flights, key) < k
    ensures Legal(env, w, [e]) && Final(env, w, [e]) == Next(env, w, e) && AtMost(env, k, key, w, [e])
  {
    assert [e][1..] == [];
  }

  /** One step of the automaton, done by logins with an unknown e-mail. */
  lemma StepRealized(
    env: Env, k: nat, w: World, c: Credentials, step: Throttle.Step, t: Throttle.State, draw: Draw)
    returns (events: seq<Event>)
    requires WellFormed(env, c) && AllRejected(env, w, c) && Mirrors(env, w, t)
    requires Failing([step], LoginKey(env, c)) && Throttle.Enabled(k, LoginKey(env, c), t, step)
    ensures Legal(env, w, events) && AtMost(env, k, LoginKey(env, c), w, events)
    ensures AllRejected(env, Final(env, w, events), c) && Mirrors(env, Final(env, w, events), Throttle.Apply(t, step))
  {
    var key := LoginKey(env, c);
    assert step == [step][0];
    match step
    case Tick(delay) =>
      events := [Serial(Wait(delay))];
      OneEvent(env, k, key, w, Serial(Wait(delay)));
    case Gate(_) =>
      if Throttle.Passes(t, key) {
        events := GateRealized(env, k, w, c, t);
      } else {
        events := [];
      }
    case Fail(_) =>
      var i := SomeFlight(env, w.flights, key);
      events := [Finish(i, draw)];
      OneEvent(env, k, key, w, Finish(i, draw));
      FinishMirrored(env, k, key, w, i, draw, t);
  }

  lemma GateRealized(env: Env, k: nat, w: World, c: Credentials, t: Throttle.State) returns (events: seq<Event>)
    requires WellFormed(env, c) && AllRejected(env, w, c) && Mirrors(env, w, t)
    requires Throttle.Passes(t, LoginKey(env, c)) && t.inFlight[LoginKey(env, c)] < k
    ensures Legal(env, w, events) && AtMost(env, k, LoginKey(env, c), w, events)
    ensures AllRejected(env, Final(env, w, events), c)
    ensures Mirrors(env, Final(env, w, events), Throttle.Apply(t, Throttle.Gate(LoginKey(env, c))))
  {
    var key, n := LoginKey(env, c), |w.flights|;
    OneEvent(env, k, key, w, Enter(c));
    EnterMirrored(env, k, key, w, c, t);
    var v := Next(env, w, Enter(c));
    OneEvent(env, k, key, v, Check(n));
    CheckMirrored(env, v, n, Throttle.Apply(t, Throttle.Gate(key)));
    EventsCompose(env, k, key, w, [Enter(c)], [Check(n)]);
    events := [Enter(c)] + [Check(n)];
  }

  lemma {:induction false} RunRealized(
    env: Env, k: nat, w: World, c: Credentials, steps: seq<Throttle.Step>, t: Throttle.State, draw: Draw)
    returns (events: seq<Event>)
    requires WellFormed(env, c) && AllRejected(env, w, c) && Mirrors(env, w, t)
    requires Failing(steps, LoginKey(env, c)) && Throttle.Legal(k, LoginKey(env, c), t, steps)
    ensures Legal(env, w, events) && AtMost(env, k, LoginKey(env, c), w, events)
    ensures Mirrors(env, Final(env, w, events), Throttle.Final(t, steps))
    decreases |steps|
  {
    if steps == [] {
      events := [];
    } else {
      var first := StepRealized(env, k, w, c, steps[0], t, draw);
      var rest := RunRealized(env, k, Final(env, w, first), c, steps[1..], Throttle.Apply(t, steps[0]), draw);
      EventsCompose(env, k, LoginKey(env, c), w, first, rest);
      events := first + rest;
    }
  }

  lemma {:induction false} SerialRoundsFail(key: Throttle.Key, n: nat)
    ensures Failing(Throttle.SerialRounds(key, n), key)
  {
    if n > 0 {
      SerialRoundsFail(key, n - 1);
    }
  }

  /** For every k, a legal run of logins from empty tables stores 4 + 2k failures for a pair. */
  lemma OverlappingLoginsBoundReached(env: Env, start: Time, c: Credentials, k: nat, draw: Draw)
    returns (events: seq<Event>)
    requires k >= 1 && WellFormed(env, c)
    ensures Legal(env, Begin(start), events) && AtMost(env, k, LoginKey(env, c), Begin(start), events)
    ensures
      var s := Final(env, Begin(start), events).s;
      LoginKey(env, c) in s.attempts && s.attempts[LoginKey(env, c)].failureCount == 4 + 2 * k
  {
    var key := LoginKey(env, c);
    Throttle.InterleavedBoundReached(k, key, start);
    SerialRoundsFail(key, 3);
    events := RunRealized(env, k, Begin(start), c, Throttle.FullestRun(key, k), Throttle.Init(start), draw);
  }
}
