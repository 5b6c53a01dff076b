/** Reset tokens over whole runs: single use, superseding, and the one-minute cooldown. */
module IdentityResets {
  import opened Common
  import opened IdentityModel
  import opened Windows

  // ----- At most one unused token per user -----

  ghost predicate OneUnused(resets: Resets) {
    forall a, b :: (a in resets && b in resets && resets[a].usedAt.None? && resets[b].usedAt.None?
                    && resets[a].userId == resets[b].userId) ==> a == b
  }

  /** How one call changes the token table. */
  ghost predicate ResetsEvolve(before: Resets, after: Resets, added: Option<string>) {
    && (forall h :: h in after ==> h in before || added == Some(h))
    && (forall h, k ::
          (k in after && k !in before && h in before && h in after && before[h].userId == after[k].userId)
          ==> after[h].usedAt.Some?)
    && (forall h :: h in before && h in after ==>
          && after[h].userId == before[h].userId
          && after[h].createdAt == before[h].createdAt && after[h].expiresAt == before[h].expiresAt
          && (before[h].usedAt.Some? ==> after[h].usedAt == before[h].usedAt))
  }

  function Added(env: Env, call: Call): Option<string> {
    if call.RequestReset? then Some(env.hashToken(call.draw.token)) else None
  }

  lemma RequestResetEvolves(env: Env, s: State, email: Bytes, draw: Draw)
    ensures ResetsEvolve(s.resets, DoRequestReset(env, s, email, draw).0.resets, Some(env.hashToken(draw.token)))
  {
  }

  /** Only RequestReset adds a token, using up its predecessors; used_at, once set, never changes. */
  lemma StepEvolvesResets(env: Env, s: State, call: Call)
    ensures ResetsEvolve(s.resets, Step(env, s, call).0.resets, Added(env, call))
  {
    match call
    case RequestReset(email, draw) => RequestResetEvolves(env, s, email, draw);
    case MailFailed(_) =>
    case ResetPassword(token, password, draw) =>
      if env.hashToken(token) in s.resets {
        UsingEvolves(s.resets, s.resets[env.hashToken(token)].userId, s.now);
      }
    case ChangePassword(userId, _, _, _, _) => UsingEvolves(s.resets, userId, s.now);
    case _ => OthersLeaveResets(env, s, call);
  }

  lemma UsingEvolves(resets: Resets, userId: string, now: Time)
    ensures ResetsEvolve(resets, UseResets(resets, userId, now), None)
    ensures ResetsEvolve(resets, resets, None)
  {
  }

  lemma OthersLeaveResets(env: Env, s: State, call: Call)
    requires !call.RequestReset? && !call.MailFailed? && !call.ResetPassword? && !call.ChangePassword?
    ensures Step(env, s, call).0.resets == s.resets
  {
  }

  lemma RequestKeepsOneUnused(env: Env, s: State, email: Bytes, draw: Draw)
    requires OneUnused(s.resets)
    ensures OneUnused(DoRequestReset(env, s, email, draw).0.resets)
  {
  }

  lemma StepKeepsOneUnused(env: Env, s: State, call: Call)
    requires OneUnused(s.resets)
    ensures OneUnused(Step(env, s, call).0.resets)
  {
    if call.RequestReset? {
      RequestKeepsOneUnused(env, s, call.email, call.draw);
    } else {
      StepEvolvesResets(env, s, call);
    }
  }

  /** In every reachable state each user has at most one unused reset token; a repeated hash is rolled back. */
  lemma {:induction false} RunKeepsOneUnused(env: Env, s: State, calls: seq<Call>)
    requires OneUnused(s.resets)
    ensures OneUnused(Run(env, s, calls).resets)
    decreases |calls|
  {
    if calls != [] {
      StepKeepsOneUnused(env, s, calls[0]);
      RunKeepsOneUnused(env, Step(env, s, calls[0]).0, calls[1..]);
    }
  }

  // ----- Legal runs draw tokens whose hash was never issued before -----

  type Issued = set<string>

  function NextIssued(env: Env, call: Call, issued: Issued): Issued {
    if call.RequestReset? then issued + {env.hashToken(call.draw.token)} else issued
  }

  predicate Fresh(env: Env, call: Call, issued: Issued) {
    call.RequestReset? ==> env.hashToken(call.draw.token) !in issued
  }

  predicate Legal(env: Env, calls: seq<Call>, issued: Issued) {
    calls == [] || (Fresh(env, calls[0], issued) && Legal(env, calls[1..], NextIssued(env, calls[0], issued)))
  }

  ghost predicate AllIssued(s: State, issued: Issued) {
    s.resets.Keys <= issued
  }

  // ----- Every token is redeemed at most once -----

  predicate Redeems(env: Env, s: State, call: Call, hash: string) {
    && call.ResetPassword? && env.hashToken(call.token) == hash
    && DoResetPassword(env, s, call.token, call.password, call.draw).1.Done?
  }

  /** The number of successful resets with one token over a run. */
  ghost function Redeemed(env: Env, s: State, calls: seq<Call>, hash: string): nat
    decreases |calls|
  {
    if calls == [] then 0
    else (if Redeems(env, s, calls[0], hash) then 1 else 0) + Redeemed(env, Step(env, s, calls[0]).0, calls[1..], hash)
  }

  /** An issued token that is used, or gone because its mail failed. */
  ghost predicate Dead(s: State, hash: string, issued: Issued) {
    hash in issued && (hash !in s.resets || s.resets[hash].usedAt.Some?)
  }

  lemma StepKeepsDead(env: Env, s: State, call: Call, hash: string, issued: Issued)
    requires Dead(s, hash, issued) && Fresh(env, call, issued)
    ensures Dead(Step(env, s, call).0, hash, NextIssued(env, call, issued))
    ensures !Redeems(env, s, call, hash)
  {
    StepEvolvesResets(env, s, call);
  }

  lemma {:induction false} DeadIsNeverRedeemed(env: Env, s: State, calls: seq<Call>, hash: string, issued: Issued)
    requires Dead(s, hash, issued) && Legal(env, calls, issued)
    ensures Redeemed(env, s, calls, hash) == 0
    decreases |calls|
  {
    if calls != [] {
      StepKeepsDead(env, s, calls[0], hash, issued);
      DeadIsNeverRedeemed(env, Step(env, s, calls[0]).0, calls[1..], hash, NextIssued(env, calls[0], issued));
    }
  }

  /** Each token yields at most one successful password reset. */
  lemma {:induction false} RedeemedAtMostOnce(env: Env, s: State, calls: seq<Call>, hash: string, issued: Issued)
    requires AllIssued(s, issued) && Legal(env, calls, issued)
    ensures Redeemed(env, s, calls, hash) <= 1
    decreases |calls|
  {
    if calls != [] {
      var t, rest, issued' := Step(env, s, calls[0]).0, calls[1..], NextIssued(env, calls[0], issued);
      StepEvolvesResets(env, s, calls[0]);
      if Redeems(env, s, calls[0], hash) {
        DeadIsNeverRedeemed(env, t, rest, hash, issued');
      } else {
        RedeemedAtMostOnce(env, t, rest, hash, issued');
      }
    }
  }

  /** A successful reset kills every token its user was issued before it. */
  lemma ResetKillsTokens(
    env: Env, s: State, token: string, password: Bytes, draw: Draw, hash: string, calls: seq<Call>, issued: Issued)
    requires DoResetPassword(env, s, token, password, draw).1 == Done
    requires AllIssued(s, issued) && hash in issued && Legal(env, calls, issued)
    requires hash !in s.resets || s.resets[hash].userId == s.resets[env.hashToken(token)].userId
    ensures Redeemed(env, DoResetPassword(env, s, token, password, draw).0, calls, hash) == 0
  {
    DeadIsNeverRedeemed(env, DoResetPassword(env, s, token, password, draw).0, calls, hash, issued);
  }

  /** So does a successful password change. */
  lemma ChangePasswordKillsTokens(
    env: Env, s: State, userId: string, own: string, current: Bytes, password: Bytes, draw: Draw,
    hash: string, calls: seq<Call>, issued: Issued)
    requires DoChangePassword(env, s, userId, own, current, password, draw).1 == Done
    requires AllIssued(s, issued) && hash in issued && Legal(env, calls, issued)
    requires hash !in s.resets || s.resets[hash].userId == userId
    ensures Redeemed(env, DoChangePassword(env, s, userId, own, current, password, draw).0, calls, hash) == 0
  {
    DeadIsNeverRedeemed(env, DoChangePassword(env, s, userId, own, current, password, draw).0, calls, hash, issued);
  }

  /** A newly issued token supersedes every earlier one of the same user. */
  lemma NewTokenSupersedes(env: Env, s: State, email: Bytes, draw: Draw, hash: string, calls: seq<Call>, issued: Issued)
    requires AllIssued(s, issued) && Legal(env, [RequestReset(email, draw)] + calls, issued)
    requires hash in s.resets
    requires
      var t := DoRequestReset(env, s, email, draw).0;
      env.hashToken(draw.token) in t.resets && t.resets[env.hashToken(draw.token)].userId == s.resets[hash].userId
    ensures Redeemed(env, DoRequestReset(env, s, email, draw).0, calls, hash) == 0
  {
    var call := RequestReset(email, draw);
    assert ([call] + calls)[0] == call && ([call] + calls)[1..] == calls;
    RequestResetEvolves(env, s, email, draw);
    DeadIsNeverRedeemed(env, DoRequestReset(env, s, email, draw).0, calls, hash, NextIssued(env, call, issued));
  }

  // ----- A token lives for its TTL -----

  ghost predicate Dated(env: Env, s: State) {
    forall h :: h in s.resets ==>
      s.resets[h].expiresAt == s.resets[h].createdAt + env.resetTtl && s.resets[h].createdAt <= s.now
  }

  lemma StepKeepsDated(env: Env, s: State, call: Call)
    requires Dated(env, s)
    ensures Dated(env, Step(env, s, call).0)
  {
    StepAdvances(env, s, call);
    StepEvolvesResets(env, s, call);
    if call.RequestReset? {
      RequestKeepsDated(env, s, call.email, call.draw);
    }
  }

  lemma RequestKeepsDated(env: Env, s: State, email: Bytes, draw: Draw)
    requires Dated(env, s)
    ensures Dated(env, DoRequestReset(env, s, email, draw).0)
  {
  }

  /** Every redemption falls into the half-open TTL after the issue of its token. */
  lemma {:induction false} RedeemedWithinTtl(env: Env, s: State, calls: seq<Call>, call: Call, hash: string)
    requires Dated(env, s)
    requires Redeems(env, Run(env, s, calls), call, hash)
    ensures
      var t := Run(env, s, calls);
      hash in t.resets && t.resets[hash].createdAt <= t.now < t.resets[hash].createdAt + env.resetTtl
    decreases |calls|
  {
    if calls != [] {
      StepKeepsDated(env, s, calls[0]);
      RedeemedWithinTtl(env, Step(env, s, calls[0]).0, calls[1..], call, hash);
    }
  }

  // ----- The cooldown -----

  /** The call consumes the user's unused token, or deletes it after a failed send. */
  predicate Releases(env: Env, s: State, call: Call, userId: string) {
    match call
    case ResetPassword(token, password, draw) =>
      DoResetPassword(env, s, token, password, draw).1.Done? && s.resets[env.hashToken(token)].userId == userId
    case ChangePassword(id, sessionToken, current, password, draw) =>
      DoChangePassword(env, s, id, sessionToken, current, password, draw).1.Done? && id == userId
    case MailFailed(token) =>
      var hash := env.hashToken(token);
      hash in s.resets && s.resets[hash].userId == userId && s.resets[hash].usedAt.None?
    case _ => false
  }

  ghost predicate IssuesTo(env: Env, s: State, call: Call, userId: string) {
    && call.RequestReset?
    && var hash := env.hashToken(call.draw.token);
       var t := DoRequestReset(env, s, call.email, call.draw).0;
       hash !in s.resets && hash in t.resets && t.resets[hash].userId == userId
  }

  /** When tokens were issued to the user since one was last consumed or deleted. */
  ghost function NextIssues(env: Env, s: State, call: Call, userId: string, issues: seq<Time>): seq<Time> {
    if Releases(env, s, call, userId) then []
    else if IssuesTo(env, s, call, userId) then issues + [s.now]
    else issues
  }

  ghost function IssuesAfter(env: Env, s: State, calls: seq<Call>, userId: string, issues: seq<Time>): seq<Time>
    decreases |calls|
  {
    if calls == [] then issues
    else IssuesAfter(env, Step(env, s, calls[0]).0, calls[1..], userId, NextIssues(env, s, calls[0], userId, issues))
  }

  /** The issues are a minute apart, and the latest one still stands unused in the table. */
  ghost predicate Paced(env: Env, s: State, userId: string, issues: seq<Time>) {
    && Ordered(issues) && Spread(issues, 1, COOLDOWN)
    && (issues != [] ==> exists h :: Standing(env, s.resets, userId, h, Latest(issues)))
    && (issues != [] ==> Latest(issues) <= s.now)
  }

  function Latest(issues: seq<Time>): Time
    requires issues != []
  {
    issues[|issues| - 1]
  }

  ghost predicate Standing(env: Env, resets: Resets, userId: string, h: string, at: Time) {
    h in resets && resets[h] == ResetRow(userId, at, at + env.resetTtl, None)
  }

  lemma StandingStays(env: Env, s: State, call: Call, userId: string, h: string, at: Time)
    requires Standing(env, s.resets, userId, h, at)
    requires !Releases(env, s, call, userId) && !IssuesTo(env, s, call, userId)
    ensures Standing(env, Step(env, s, call).0.resets, userId, h, at)
  {
    match call
    case RequestReset(email, draw) => RequestStands(env, s, email, draw, userId, h, at);
    case MailFailed(_) =>
    case ResetPassword(_, _, _) =>
    case ChangePassword(_, _, _, _, _) =>
    case _ => OthersLeaveResets(env, s, call);
  }

  lemma RequestStands(env: Env, s: State, email: Bytes, draw: Draw, userId: string, h: string, at: Time)
    requires Standing(env, s.resets, userId, h, at)
    requires !IssuesTo(env, s, RequestReset(email, draw), userId)
    ensures Standing(env, DoRequestReset(env, s, email, draw).0.resets, userId, h, at)
  {
  }

  lemma IssueStands(env: Env, s: State, email: Bytes, draw: Draw, userId: string)
    requires IssuesTo(env, s, RequestReset(email, draw), userId)
    ensures
      Standing(env, DoRequestReset(env, s, email, draw).0.resets, userId, env.hashToken(draw.token), s.now)
    ensures !RecentlyRequested(s.resets, userId, s.now)
  {
  }

  lemma StepPaced(env: Env, s: State, call: Call, userId: string, issues: seq<Time>)
    requires env.resetTtl >= COOLDOWN
    requires Paced(env, s, userId, issues)
    ensures Paced(env, Step(env, s, call).0, userId, NextIssues(env, s, call, userId, issues))
  {
    StepAdvances(env, s, call);
    if Releases(env, s, call, userId) {
    } else if IssuesTo(env, s, call, userId) {
      IssueStands(env, s, call.email, call.draw, userId);
      assert Latest(issues + [s.now]) == s.now;
      if issues != [] {
        var h :| Standing(env, s.resets, userId, h, Latest(issues));
        assert Latest(issues) + COOLDOWN <= s.now;
      }
    } else if issues != [] {
      var h :| Standing(env, s.resets, userId, h, Latest(issues));
      StandingStays(env, s, call, userId, h, Latest(issues));
    }
  }

  lemma {:induction false} RunPaced(env: Env, s: State, calls: seq<Call>, userId: string, issues: seq<Time>)
    requires env.resetTtl >= COOLDOWN
    requires Paced(env, s, userId, issues)
    ensures Paced(env, Run(env, s, calls), userId, IssuesAfter(env, s, calls, userId, issues))
    decreases |calls|
  {
    if calls != [] {
      StepPaced(env, s, calls[0], userId, issues);
      RunPaced(env, Step(env, s, calls[0]).0, calls[1..], userId, NextIssues(env, s, calls[0], userId, issues));
    }
  }

  lemma SpacedIssuesAreFew(issues: seq<Time>, from: Time, n: nat)
    requires Ordered(issues) && Spread(issues, 1, COOLDOWN)
    ensures CountIn(issues, from, from + n * COOLDOWN) <= n
  {
    GapsAddUp(issues, COOLDOWN, n);
    SpreadBoundsCount(issues, n, n * COOLDOWN, from);
  }

  /** Any n minutes see at most n tokens issued to one user, unless one was consumed or deleted in between. */
  lemma CooldownRate(env: Env, s: State, calls: seq<Call>, userId: string, from: Time, n: nat)
    requires env.resetTtl >= COOLDOWN
    ensures CountIn(IssuesAfter(env, s, calls, userId, []), from, from + n * COOLDOWN) <= n
  {
    RunPaced(env, s, calls, userId, []);
    SpacedIssuesAreFew(IssuesAfter(env, s, calls, userId, []), from, n);
  }

  /** A request that finds its user, is past the cooldown and draws a new token issues it. */
  lemma RequestIssues(env: Env, s: State, email: Bytes, draw: Draw, userId: string)
    requires env.ValidEmail(env.normalizeEmail(email))
    requires FindUser(s.users, env.lookup(env.normalizeEmail(email))) == Some(userId)
    requires env.hashToken(draw.token) !in s.resets
    ensures IssuesTo(env, s, RequestReset(email, draw), userId) <==> !RecentlyRequested(s.resets, userId, s.now)
  {
  }

  /** The user's tokens are all used, expired, or at least a minute old. */
  ghost predicate NoneRecent(resets: Resets, userId: string, now: Time) {
    forall h :: h in resets && resets[h].userId == userId && resets[h].usedAt.None? ==>
      resets[h].expiresAt <= now || resets[h].createdAt + 60_000_000 <= now
  }

  /** The cooldown holds back a request exactly while a live token of the user is less than a minute old. */
  lemma IssuesExactlyWhen(env: Env, s: State, email: Bytes, draw: Draw, userId: string)
    requires env.ValidEmail(env.normalizeEmail(email))
    requires FindUser(s.users, env.lookup(env.normalizeEmail(email))) == Some(userId)
    requires env.hashToken(draw.token) !in s.resets
    ensures IssuesTo(env, s, RequestReset(email, draw), userId) <==> NoneRecent(s.resets, userId, s.now)
  {
    RequestIssues(env, s, email, draw, userId);
  }

  lemma OlderAfterIssue(env: Env, s: State, email: Bytes, draw: Draw, userId: string, delay: nat)
    requires NoneRecent(s.resets, userId, s.now) && delay >= 60_000_000
    ensures NoneRecent(DoRequestReset(env, s, email, draw).0.resets, userId, s.now + delay)
  {
  }

  /** Two requests a minute or more apart, with fresh tokens, both issue, however long the tokens live. */
  lemma MinuteApartBothIssue(
    env: Env, s: State, email: Bytes, userId: string, first: Draw, delay: nat, second: Draw)
    requires env.ValidEmail(env.normalizeEmail(email))
    requires FindUser(s.users, env.lookup(env.normalizeEmail(email))) == Some(userId)
    requires NoneRecent(s.resets, userId, s.now) && delay >= 60_000_000
    requires env.hashToken(first.token) !in s.resets && env.hashToken(second.token) !in s.resets
    requires env.hashToken(first.token) != env.hashToken(second.token)
    ensures
      var t := Run(env, s, [RequestReset(email, first), Wait(delay)]);
      && IssuesTo(env, s, RequestReset(email, first), userId)
      && t.now == s.now + delay && IssuesTo(env, t, RequestReset(email, second), userId)
  {
    var c0, c1 := RequestReset(email, first), Wait(delay);
    IssuesExactlyWhen(env, s, email, first, userId);
    OlderAfterIssue(env, s, email, first, userId, delay);
    var s1 := Step(env, s, c0).0;
    var s2 := Step(env, s1, c1).0;
    TwoCalls(env, s, c0, c1);
    AfterRequest(env, s, email, first);
    IssuesExactlyWhen(env, s2, email, second, userId);
  }

  lemma AfterRequest(env: Env, s: State, email: Bytes, draw: Draw)
    ensures
      var t := DoRequestReset(env, s, email, draw).0;
      && t.users == s.users && t.now == s.now
      && forall h :: h in t.resets ==> h in s.resets || h == env.hashToken(draw.token)
  {
  }

  lemma TwoCalls(env: Env, s: State, c0: Call, c1: Call)
    ensures Run(env, s, [c0, c1]) == Step(env, Step(env, s, c0).0, c1).0
  {
    assert [c0, c1][1..] == [c1] && [c1][1..] == [];
    assert Run(env, Step(env, s, c0).0, [c1]) == Run(env, Step(env, Step(env, s, c0).0, c1).0, []);
  }

  /** With a TTL under a minute the cooldown does not hold: the token expires and the next one follows at once. */
  lemma ShortTtlDefeatsCooldown(env: Env, s: State, email: Bytes, userId: string, first: Draw, second: Draw)
    requires 0 < env.resetTtl < COOLDOWN
    requires env.ValidEmail(env.normalizeEmail(email))
    requires FindUser(s.users, env.lookup(env.normalizeEmail(email))) == Some(userId)
    requires s.resets == map[] && env.hashToken(first.token) != env.hashToken(second.token)
    ensures
      var calls := [RequestReset(email, first), Wait(env.resetTtl), RequestReset(email, second)];
      && IssuesAfter(env, s, calls, userId, []) == [s.now, s.now + env.resetTtl]
      && CountIn(IssuesAfter(env, s, calls, userId, []), s.now, s.now + COOLDOWN) == 2
  {
    var c0, c1, c2 := RequestReset(email, first), Wait(env.resetTtl), RequestReset(email, second);
    IssuedTwice(env, s, email, userId, first, second);
    ThreeCalls(env, s, c0, c1, c2, userId);
    CountPair(s.now, s.now + env.resetTtl, s.now + COOLDOWN);
  }

  lemma IssuedTwice(env: Env, s: State, email: Bytes, userId: string, first: Draw, second: Draw)
    requires env.resetTtl > 0
    requires env.ValidEmail(env.normalizeEmail(email))
    requires FindUser(s.users, env.lookup(env.normalizeEmail(email))) == Some(userId)
    requires s.resets == map[] && env.hashToken(first.token) != env.hashToken(second.token)
    ensures IssuesTo(env, s, RequestReset(email, first), userId)
    ensures
      var s1 := Step(env, s, RequestReset(email, first)).0;
      var s2 := Step(env, s1, Wait(env.resetTtl)).0;
      s2.now == s.now + env.resetTtl && IssuesTo(env, s2, RequestReset(email, second), userId)
  {
    RequestIssues(env, s, email, first, userId);
    ExpiredIsNotRecent(env, s, email, first, userId);
    var s1 := Step(env, s, RequestReset(email, first)).0;
    RequestIssues(env, Step(env, s1, Wait(env.resetTtl)).0, email, second, userId);
  }

  lemma OneMoreCall(env: Env, s: State, call: Call, rest: seq<Call>, userId: string, issues: seq<Time>)
    ensures
      IssuesAfter(env, s, [call] + rest, userId, issues)
      == IssuesAfter(env, Step(env, s, call).0, rest, userId, NextIssues(env, s, call, userId, issues))
  {
    assert ([call] + rest)[0] == call && ([call] + rest)[1..] == rest;
  }

  lemma ThreeCalls(env: Env, s: State, c0: Call, c1: Call, c2: Call, userId: string)
    ensures
      var s1 := Step(env, s, c0).0;
      var s2 := Step(env, s1, c1).0;
      IssuesAfter(env, s, [c0, c1, c2], userId, [])
      == NextIssues(env, s2, c2, userId, NextIssues(env, s1, c1, userId, NextIssues(env, s, c0, userId, [])))
  {
    var s1 := Step(env, s, c0).0;
    var s2 := Step(env, s1, c1).0;
    var h1 := NextIssues(env, s, c0, userId, []);
    assert [c0, c1, c2] == [c0] + [c1, c2] && [c1, c2] == [c1] + [c2] && [c2] == [c2] + [];
    OneMoreCall(env, s, c0, [c1, c2], userId, []);
    OneMoreCall(env, s1, c1, [c2], userId, h1);
    OneMoreCall(env, s2, c2, [], userId, NextIssues(env, s1, c1, userId, h1));
  }

  lemma CountPair(a: Time, b: Time, end: Time)
    requires a <= b < end
    ensures CountIn([a, b], a, end) == 2
  {
    assert [a, b][..1] == [a] && [a][..0] == [];
    assert CountIn([a], a, end) == 1;
  }

  lemma ExpiredIsNotRecent(env: Env, s: State, email: Bytes, draw: Draw, userId: string)
    requires s.resets == map[] && env.resetTtl > 0
    requires IssuesTo(env, s, RequestReset(email, draw), userId)
    ensures
      var t := DoRequestReset(env, s, email, draw).0;
      && !RecentlyRequested(t.resets, userId, t.now + env.resetTtl)
      && t.users == s.users && t.now == s.now && t.resets.Keys == {env.hashToken(draw.token)}
  {
  }
}
