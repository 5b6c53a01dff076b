/**
 Issuing transactions that overlap. One reads the cooldown, later marks the tokens it sees unused, and marks and
 new token show when it commits. With at most k of them in flight for a user, the user has at most k unused tokens.
 */
module ResetOverlap {
  import opened Common
  import opened IdentityModel
  import opened IdentityResets

  /** A transaction past its UPDATE: now() is its start throughout, and `marked` are the rows it uses up. */
  datatype Tx = Tx(startedAt: Time, marked: set<string>)

  /** The transactions of one user; `open` lists those past their UPDATE in the order of those statements. */
  datatype World = World(s: State, checked: seq<Time>, open: seq<Tx>, issued: Issued)

  datatype Event =
    | Serial(call: Call)         // any call that issues no token to the user
    | Start(email: Bytes)        // the SELECT finds no recent token
    | GiveUp(i: nat)
    | Supersede(i: nat)          // the UPDATE
    | Commit(i: nat, draw: Draw)
    | Rollback(i: nat)

  function Begin(s: State): World {
    World(s, [], [], s.resets.Keys)
  }

  function Unused(resets: Resets, userId: string): set<string> {
    set h | h in resets && resets[h].userId == userId && resets[h].usedAt.None?
  }

  function Marked(resets: Resets, tx: Tx): Resets {
    map h | h in resets ::
      if h in tx.marked && resets[h].usedAt.None? then resets[h].(usedAt := Some(tx.startedAt)) else resets[h]
  }

  /** The INSERT and the commit; a taken hash rolls the marks back. */
  function DoCommit(env: Env, now: Time, resets: Resets, userId: string, tx: Tx, draw: Draw): (Resets, Reply) {
    var hash := env.hashToken(draw.token);
    if hash in resets then (resets, Failed(Internal))
    else (Marked(resets, tx)[hash := ResetRow(userId, tx.startedAt, now + env.resetTtl, None)], Done)
  }

  /** Done at one instant, the statements are the atomic issue. */
  lemma IssueIsSupersedeThenCommit(env: Env, now: Time, resets: Resets, userId: string, draw: Draw)
    requires !RecentlyRequested(resets, userId, now)
    ensures
      IssueReset(env, now, resets, Some(userId), draw)
      == DoCommit(env, now, resets, userId, Tx(now, Unused(resets, userId)), draw)
  {
    assert Marked(resets, Tx(now, Unused(resets, userId))) == UseResets(resets, userId, now);
  }

  function Without<T>(items: seq<T>, i: nat): seq<T>
    requires i < |items|
  {
    items[..i] + items[i + 1..]
  }

  /** Tokens are drawn whose hash was never issued before, unless it still stands in the table. */
  ghost predicate Enabled(env: Env, userId: string, w: World, e: Event) {
    match e
    case Serial(call) => !IssuesTo(env, w.s, call, userId) && Fresh(env, call, w.issued)
    case Start(email) =>
      && env.ValidEmail(env.normalizeEmail(email))
      && FindUser(w.s.users, env.lookup(env.normalizeEmail(email))) == Some(userId)
      && !RecentlyRequested(w.s.resets, userId, w.s.now)
    case GiveUp(i) => i < |w.checked|
    case Supersede(i) => i < |w.checked|
    case Commit(i, draw) =>
      i < |w.open| && (env.hashToken(draw.token) in w.s.resets || env.hashToken(draw.token) !in w.issued)
    case Rollback(i) => i < |w.open|
  }

  ghost function Next(env: Env, userId: string, w: World, e: Event): World
    requires Enabled(env, userId, w, e)
  {
    match e
    case Serial(call) => w.(s := Step(env, w.s, call).0, issued := NextIssued(env, call, w.issued))
    case Start(_) => w.(checked := w.checked + [w.s.now])
    case GiveUp(i) => w.(checked := Without(w.checked, i))
    case Supersede(i) =>
      w.(checked := Without(w.checked, i), open := w.open + [Tx(w.checked[i], Unused(w.s.resets, userId))])
    case Commit(i, draw) =>
      var resets := DoCommit(env, w.s.now, w.s.resets, userId, w.open[i], draw).0;
      World(w.s.(resets := resets), w.checked, Without(w.open, i), w.issued + {env.hashToken(draw.token)})
    case Rollback(i) => w.(open := Without(w.open, i))
  }

  ghost predicate Legal(env: Env, userId: string, k: nat, w: World, events: seq<Event>)
    decreases |events|
  {
    events != [] ==>
      && Enabled(env, userId, w, events[0])
      && (events[0].Start? ==> |w.checked| + |w.open| < k)
      && Legal(env, userId, k, Next(env, userId, w, events[0]), events[1..])
  }

  ghost function Final(env: Env, userId: string, k: nat, w: World, events: seq<Event>): World
    requires Legal(env, userId, k, w, events)
    decreases |events|
  {
    if events == [] then w else Final(env, userId, k, Next(env, userId, w, events[0]), events[1..])
  }

  // ----- The bound -----

  /** What the i-th open transaction will not use up, and the transactions up to it, together fit into k. */
  ghost predicate Room(unused: set<string>, open: seq<Tx>, k: nat) {
    forall i {:trigger open[i]} :: 0 <= i < |open| ==> |unused - open[i].marked| + i + 1 <= k
  }

  /** A later UPDATE marks whatever an earlier one marked and is still unused. */
  ghost predicate Chained(unused: set<string>, open: seq<Tx>) {
    forall i, j, h :: 0 <= i < j < |open| && h in open[i].marked && h in unused ==> h in open[j].marked
  }

  ghost predicate Bounded(userId: string, k: nat, w: World) {
    var unused := Unused(w.s.resets, userId);
    && |w.checked| + |w.open| <= k && |unused| <= k
    && Room(unused, w.open, k) && Chained(unused, w.open)
    && w.s.resets.Keys <= w.issued && forall i, h :: 0 <= i < |w.open| && h in w.open[i].marked ==> h in w.issued
  }

  lemma SmallerSet(a: set<string>, b: set<string>)
    requires a <= b
    ensures |a| <= |b|
  {
    assert b == a + (b - a);
  }

  /** Fewer unused tokens leave the bound in place. */
  lemma ShrinkKeepsRoom(before: set<string>, after: set<string>, open: seq<Tx>, k: nat)
    requires after <= before && Room(before, open, k) && Chained(before, open) && |before| <= k
    ensures Room(after, open, k) && Chained(after, open) && |after| <= k
  {
    SmallerSet(after, before);
    forall i | 0 <= i < |open|
      ensures |after - open[i].marked| + i + 1 <= k
    {
      SmallerSet(after - open[i].marked, before - open[i].marked);
    }
  }

  lemma SupersedeKeepsRoom(unused: set<string>, open: seq<Tx>, tx: Tx, k: nat)
    requires Room(unused, open, k) && Chained(unused, open) && |open| < k && tx.marked == unused
    ensures Room(unused, open + [tx], k) && Chained(unused, open + [tx])
  {
    assert unused - unused == {};
  }

  lemma DropKeepsRoom(unused: set<string>, open: seq<Tx>, i: nat, k: nat)
    requires Room(unused, open, k) && Chained(unused, open) && i < |open|
    ensures Room(unused, Without(open, i), k) && Chained(unused, Without(open, i))
  {
    var rest := Without(open, i);
    forall j | 0 <= j < |rest|
      ensures |unused - rest[j].marked| + j + 1 <= k
    {
      assert rest[j] == open[if j < i then j else j + 1];
    }
    forall a, b, h | 0 <= a < b < |rest| && h in rest[a].marked && h in unused
      ensures h in rest[b].marked
    {
      assert rest[a] == open[if a < i then a else a + 1] && rest[b] == open[if b < i then b else b + 1];
    }
  }

  lemma WithoutAt<T>(items: seq<T>, i: nat, j: nat)
    requires i < |items| && j < |items| - 1
    ensures Without(items, i)[j] == items[if j < i then j else j + 1]
  {
  }

  /** The i-th transaction commits: its marks go, one token comes, and every other one keeps its room. */
  lemma CommitKeepsRoom(unused: set<string>, open: seq<Tx>, i: nat, hash: string, k: nat)
    requires Room(unused, open, k) && Chained(unused, open) && i < |open|
    requires forall j :: 0 <= j < |open| ==> hash !in open[j].marked
    ensures
      var after := unused - open[i].marked + {hash};
      |after| <= k && Room(after, Without(open, i), k) && Chained(after, Without(open, i))
  {
    var left := unused - open[i].marked;
    var after, rest := left + {hash}, Without(open, i);
    SmallerSet(after - left, {hash});
    assert after == left + (after - left);
    forall j | 0 <= j < |rest|
      ensures |after - rest[j].marked| + j + 1 <= k
    {
      WithoutAt(open, i, j);
      if j < i {
        SmallerSet(after - rest[j].marked, after);
      } else {
        LaterKeepsOneMore(unused, open, i, j + 1, hash);
      }
    }
    CommitKeepsChain(unused, open, i, hash);
  }

  lemma CommitKeepsChain(unused: set<string>, open: seq<Tx>, i: nat, hash: string)
    requires Chained(unused, open) && i < |open|
    requires forall j :: 0 <= j < |open| ==> hash !in open[j].marked
    ensures Chained(unused - open[i].marked + {hash}, Without(open, i))
  {
    var rest := Without(open, i);
    forall a, b, h | 0 <= a < b < |rest| && h in rest[a].marked && h in unused - open[i].marked + {hash}
      ensures h in rest[b].marked
    {
      WithoutAt(open, i, a);
      WithoutAt(open, i, b);
    }
  }

  lemma LaterKeepsOneMore(unused: set<string>, open: seq<Tx>, i: nat, j: nat, hash: string)
    requires Chained(unused, open) && i < j < |open| && hash !in open[j].marked
    ensures |unused - open[i].marked + {hash} - open[j].marked| <= |unused - open[j].marked| + 1
  {
    var next := unused - open[i].marked + {hash} - open[j].marked;
    assert next == (unused - open[j].marked) + {hash};
  }

  lemma SerialShrinks(env: Env, userId: string, s: State, call: Call)
    requires !IssuesTo(env, s, call, userId)
    ensures Unused(Step(env, s, call).0.resets, userId) <= Unused(s.resets, userId)
    ensures forall h :: h in Step(env, s, call).0.resets ==> h in s.resets || Added(env, call) == Some(h)
  {
    StepEvolvesResets(env, s, call);
    forall h | h in Unused(Step(env, s, call).0.resets, userId)
      ensures h in Unused(s.resets, userId)
    {
      if h !in s.resets {
        assert false;
      }
    }
  }

  lemma UnusedAfterCommit(env: Env, now: Time, resets: Resets, userId: string, tx: Tx, draw: Draw)
    requires env.hashToken(draw.token) !in resets
    ensures
      Unused(DoCommit(env, now, resets, userId, tx, draw).0, userId)
      == Unused(resets, userId) - tx.marked + {env.hashToken(draw.token)}
  {
  }

  lemma SerialBounded(env: Env, userId: string, k: nat, w: World, call: Call)
    requires Bounded(userId, k, w) && Enabled(env, userId, w, Serial(call))
    ensures Bounded(userId, k, Next(env, userId, w, Serial(call)))
  {
    SerialShrinks(env, userId, w.s, call);
    ShrinkKeepsRoom(Unused(w.s.resets, userId), Unused(Step(env, w.s, call).0.resets, userId), w.open, k);
  }

  lemma SupersedeBounded(env: Env, userId: string, k: nat, w: World, i: nat)
    requires Bounded(userId, k, w) && i < |w.checked|
    ensures Bounded(userId, k, Next(env, userId, w, Supersede(i)))
  {
    var unused := Unused(w.s.resets, userId);
    SupersedeKeepsRoom(unused, w.open, Tx(w.checked[i], unused), k);
  }

  lemma RollbackBounded(env: Env, userId: string, k: nat, w: World, i: nat)
    requires Bounded(userId, k, w) && i < |w.open|
    ensures Bounded(userId, k, w.(open := Without(w.open, i)))
  {
    DropKeepsRoom(Unused(w.s.resets, userId), w.open, i, k);
  }

  lemma RefusedCommit(env: Env, userId: string, w: World, i: nat, draw: Draw)
    requires Enabled(env, userId, w, Commit(i, draw)) && env.hashToken(draw.token) in w.s.resets
    requires w.s.resets.Keys <= w.issued
    ensures Next(env, userId, w, Commit(i, draw)) == w.(open := Without(w.open, i))
  {
  }

  lemma NextBounded(env: Env, userId: string, k: nat, w: World, e: Event)
    requires Bounded(userId, k, w) && Enabled(env, userId, w, e)
    requires e.Start? ==> |w.checked| + |w.open| < k
    ensures Bounded(userId, k, Next(env, userId, w, e))
  {
    match e
    case Serial(call) => SerialBounded(env, userId, k, w, call);
    case Start(_) =>
    case GiveUp(i) =>
    case Supersede(i) => SupersedeBounded(env, userId, k, w, i);
    case Commit(i, draw) =>
      if env.hashToken(draw.token) in w.s.resets {
        RollbackBounded(env, userId, k, w, i);
        RefusedCommit(env, userId, w, i, draw);
      } else {
        CommitBounded(env, userId, k, w, i, draw);
      }
    case Rollback(i) => RollbackBounded(env, userId, k, w, i);
  }

  lemma CommitBounded(env: Env, userId: string, k: nat, w: World, i: nat, draw: Draw)
    requires Bounded(userId, k, w) && i < |w.open| && env.hashToken(draw.token) !in w.issued
    requires Enabled(env, userId, w, Commit(i, draw))
    ensures Bounded(userId, k, Next(env, userId, w, Commit(i, draw)))
  {
    CommitKeepsRoom(Unused(w.s.resets, userId), w.open, i, env.hashToken(draw.token), k);
    UnusedAfterCommit(env, w.s.now, w.s.resets, userId, w.open[i], draw);
  }

  lemma {:induction false} RunBounded(env: Env, userId: string, k: nat, w: World, events: seq<Event>)
    requires Bounded(userId, k, w) && Legal(env, userId, k, w, events)
    ensures Bounded(userId, k, Final(env, userId, k, w, events))
    decreases |events|
  {
    if events != [] {
      NextBounded(env, userId, k, w, events[0]);
      RunBounded(env, userId, k, Next(env, userId, w, events[0]), events[1..]);
    }
  }

  /** With at most k issuing transactions of a user in flight at once, the user never has more than k unused tokens. */
  lemma UnusedBound(env: Env, userId: string, k: nat, s: State, events: seq<Event>)
    requires |Unused(s.resets, userId)| <= k && Legal(env, userId, k, Begin(s), events)
    ensures |Unused(Final(env, userId, k, Begin(s), events).s.resets, userId)| <= k
  {
    RunBounded(env, userId, k, Begin(s), events);
  }

  // ----- The bound is reached -----

  lemma {:induction false} RunsCompose(
    env: Env, userId: string, k: nat, w: World, first: seq<Event>, second: seq<Event>)
    requires Legal(env, userId, k, w, first) && Legal(env, userId, k, Final(env, userId, k, w, first), second)
    ensures Legal(env, userId, k, w, first + second)
    ensures Final(env, userId, k, w, first + second) == Final(env, userId, k, Final(env, userId, k, w, first), second)
    decreases |first|
  {
    if first == [] {
      assert first + second == second;
    } else {
      assert (first + second)[0] == first[0] && (first + second)[1..] == first[1..] + second;
      RunsCompose(env, userId, k, Next(env, userId, w, first[0]), first[1..], second);
    }
  }

  function Times<T>(x: T, n: nat): (r: seq<T>)
    ensures |r| == n
  {
    seq(n, _ => x)
  }

  lemma {:induction false} StartMany(env: Env, userId: string, k: nat, w: World, email: Bytes, n: nat)
    requires Enabled(env, userId, w, Start(email)) && |w.checked| + |w.open| + n <= k
    ensures Legal(env, userId, k, w, Times(Start(email), n))
    ensures Final(env, userId, k, w, Times(Start(email), n)) == w.(checked := w.checked + Times(w.s.now, n))
    decreases n
  {
    if n == 0 {
      assert w.checked + Times(w.s.now, 0) == w.checked;
    } else {
      var v := Next(env, userId, w, Start(email));
      assert Times(Start(email), n)[1..] == Times(Start(email), n - 1);
      StartMany(env, userId, k, v, email, n - 1);
      assert v.checked + Times(w.s.now, n - 1) == w.checked + Times(w.s.now, n);
    }
  }

  /** Nothing is committed yet, so that no UPDATE finds anything to mark. */
  lemma {:induction false} SupersedeMany(env: Env, userId: string, k: nat, w: World, n: nat)
    requires w.checked == Times(w.s.now, n) && Unused(w.s.resets, userId) == {}
    ensures Legal(env, userId, k, w, Times(Supersede(0), n))
    ensures
      Final(env, userId, k, w, Times(Supersede(0), n))
      == w.(checked := [], open := w.open + Times(Tx(w.s.now, {}), n))
    decreases n
  {
    if n == 0 {
      assert w.open + Times(Tx(w.s.now, {}), 0) == w.open;
    } else {
      var v := Next(env, userId, w, Supersede(0));
      assert v.checked == Times(w.s.now, n - 1);
      assert Times(Event.Supersede(0), n)[1..] == Times(Event.Supersede(0), n - 1);
      SupersedeMany(env, userId, k, v, n - 1);
      assert v.open + Times(Tx(w.s.now, {}), n - 1) == w.open + Times(Tx(w.s.now, {}), n);
    }
  }

  function Commits(draws: seq<Draw>): (events: seq<Event>)
    ensures |events| == |draws|
  {
    seq(|draws|, i requires 0 <= i < |draws| => Commit(0, draws[i]))
  }

  predicate DistinctTokens(env: Env, draws: seq<Draw>) {
    forall i, j :: 0 <= i < j < |draws| ==> env.hashToken(draws[i].token) != env.hashToken(draws[j].token)
  }

  lemma {:induction false} CommitMany(env: Env, userId: string, k: nat, w: World, draws: seq<Draw>)
    requires w.open == Times(Tx(w.s.now, {}), |draws|) && DistinctTokens(env, draws) && w.s.resets.Keys <= w.issued
    requires forall i :: 0 <= i < |draws| ==> env.hashToken(draws[i].token) !in w.issued
    ensures Legal(env, userId, k, w, Commits(draws))
    ensures
      |Unused(Final(env, userId, k, w, Commits(draws)).s.resets, userId)| == |Unused(w.s.resets, userId)| + |draws|
    decreases |draws|
  {
    if draws != [] {
      var v := Next(env, userId, w, Commit(0, draws[0]));
      assert Commits(draws)[1..] == Commits(draws[1..]);
      assert v.open == Times(Tx(w.s.now, {}), |draws| - 1);
      UnusedAfterCommit(env, w.s.now, w.s.resets, userId, w.open[0], draws[0]);
      CommitMany(env, userId, k, v, draws[1..]);
    }
  }

  function FullestRun(email: Bytes, draws: seq<Draw>): seq<Event> {
    Times(Start(email), |draws|) + Times(Supersede(0), |draws|) + Commits(draws)
  }

  /** From any state in which the user has no token, k overlapping requests leave k unused ones. */
  lemma UnusedBoundReached(env: Env, userId: string, s: State, email: Bytes, draws: seq<Draw>)
    requires env.ValidEmail(env.normalizeEmail(email))
    requires FindUser(s.users, env.lookup(env.normalizeEmail(email))) == Some(userId)
    requires Unused(s.resets, userId) == {} && DistinctTokens(env, draws)
    requires forall i :: 0 <= i < |draws| ==> env.hashToken(draws[i].token) !in s.resets
    ensures Legal(env, userId, |draws|, Begin(s), FullestRun(email, draws))
    ensures
      |Unused(Final(env, userId, |draws|, Begin(s), FullestRun(email, draws)).s.resets, userId)| == |draws|
  {
    var k, w0 := |draws|, Begin(s);
    NotRecent(s.resets, userId, s.now);
    StartMany(env, userId, k, w0, email, k);
    var w1 := Final(env, userId, k, w0, Times(Start(email), k));
    assert w1.checked == Times(s.now, k);
    SupersedeMany(env, userId, k, w1, k);
    var w2 := Final(env, userId, k, w1, Times(Event.Supersede(0), k));
    assert w2.open == Times(Tx(s.now, {}), k);
    CommitMany(env, userId, k, w2, draws);
    RunsCompose(env, userId, k, w0, Times(Start(email), k), Times(Event.Supersede(0), k));
    RunsCompose(env, userId, k, w0, Times(Start(email), k) + Times(Event.Supersede(0), k), Commits(draws));
  }

  lemma NotRecent(resets: Resets, userId: string, now: Time)
    requires Unused(resets, userId) == {}
    ensures !RecentlyRequested(resets, userId, now)
  {
    forall h | h in resets && resets[h].userId == userId
      ensures resets[h].usedAt.Some?
    {
      assert h !in Unused(resets, userId);
    }
  }
}
