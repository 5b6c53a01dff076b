/**
 The login throttle: one row per (e-mail lookup, IP) pair, a gate that reads the row, and a
 later statement that records a failed verification. Calls overlap freely between the two.
 */
module Throttle {
  import opened Common
  import opened Windows

  type Key = (Bytes, string)

  datatype Attempt = Attempt(failureCount: nat, windowStartedAt: Time, blockedUntil: Option<Time>)

  const WINDOW: Time := 15 * MINUTE
  const LIMIT: nat := 5

  /** The gate: a row without a block, or with one that is over, lets the call through. */
  predicate Blocked(row: Option<Attempt>, now: Time) {
    row.Some? && row.value.blockedUntil.Some? && row.value.blockedUntil.value > now
  }

  /** The upsert that records one failed verification. */
  function Recorded(row: Option<Attempt>, now: Time): Attempt {
    match row
    case None => Attempt(1, now, None)
    case Some(a) =>
      Attempt(
        if a.windowStartedAt < now - WINDOW then 1 else a.failureCount + 1,
        if a.windowStartedAt < now - WINDOW then now else a.windowStartedAt,
        if a.windowStartedAt >= now - WINDOW && a.failureCount + 1 >= LIMIT then Some(now + WINDOW) else None)
  }

  function BlockAfter(failureCount: nat, last: Time): Option<Time> {
    if failureCount >= LIMIT then Some(last + WINDOW) else None
  }

  // ----- The timed automaton -----

  /** `failures` logs, per pair, when failures were recorded since the row was last cleared. */
  datatype State = State(
    now: Time,
    rows: map<Key, Attempt>,
    inFlight: multiset<Key>,
    failures: map<Key, seq<Time>>)

  datatype Step =
    | Tick(delay: nat)
    | Gate(key: Key)     // the gate's SELECT; a blocked call ends here
    | Fail(key: Key)     // a call past the gate records a failed verification
    | Succeed(key: Key)  // a call past the gate clears the row
    | Abandon(key: Key)  // a call past the gate ends without touching the row

  function Init(now: Time): State {
    State(now, map[], multiset{}, map[])
  }

  function FailuresOf(s: State, key: Key): seq<Time> {
    if key in s.failures then s.failures[key] else []
  }

  predicate Passes(s: State, key: Key) {
    !Blocked(Lookup(s.rows, key), s.now)
  }

  function Apply(s: State, step: Step): State {
    match step
    case Tick(delay) => s.(now := s.now + delay)
    case Gate(key) => if Passes(s, key) then s.(inFlight := s.inFlight + multiset{key}) else s
    case Fail(key) =>
      s.(rows := s.rows[key := Recorded(Lookup(s.rows, key), s.now)],
         inFlight := s.inFlight - multiset{key},
         failures := s.failures[key := FailuresOf(s, key) + [s.now]])
    case Succeed(key) =>
      s.(rows := s.rows - {key}, inFlight := s.inFlight - multiset{key}, failures := s.failures - {key})
    case Abandon(key) => s.(inFlight := s.inFlight - multiset{key})
  }

  /** Only calls past the gate finish, and at most k calls for `key` are past the gate at once. */
  predicate Enabled(k: nat, key: Key, s: State, step: Step) {
    match step
    case Tick(_) => true
    case Gate(q) => q == key && Passes(s, q) ==> s.inFlight[q] < k
    case Fail(q) => q in s.inFlight
    case Succeed(q) => q in s.inFlight
    case Abandon(q) => q in s.inFlight
  }

  function Final(s: State, steps: seq<Step>): State
    decreases |steps|
  {
    if steps == [] then s else Final(Apply(s, steps[0]), steps[1..])
  }

  predicate Legal(k: nat, key: Key, s: State, steps: seq<Step>)
    decreases |steps|
  {
    steps == [] || (Enabled(k, key, s, steps[0]) && Legal(k, key, Apply(s, steps[0]), steps[1..]))
  }

  lemma {:induction false} RunsCompose(k: nat, key: Key, s: State, first: seq<Step>, second: seq<Step>)
    ensures Final(s, first + second) == Final(Final(s, first), second)
    ensures Legal(k, key, s, first + second) <==> Legal(k, key, s, first) && Legal(k, key, Final(s, first), second)
    decreases |first|
  {
    if first == [] {
      assert first + second == second;
    } else {
      assert (first + second)[0] == first[0] && (first + second)[1..] == first[1..] + second;
      RunsCompose(k, key, Apply(s, first[0]), first[1..], second);
    }
  }

  lemma Appended(k: nat, key: Key, s: State, steps: seq<Step>, t: State, more: seq<Step>)
    requires Legal(k, key, s, steps) && Final(s, steps) == t
    requires Legal(k, key, t, more)
    ensures Legal(k, key, s, steps + more) && Final(s, steps + more) == Final(t, more)
  {
    RunsCompose(k, key, s, steps, more);
  }

  lemma OneStep(k: nat, key: Key, s: State, step: Step)
    ensures Final(s, [step]) == Apply(s, step)
    ensures Legal(k, key, s, [step]) <==> Enabled(k, key, s, step)
  {
    assert [step][1..] == [];
  }

  // ----- What every reachable row looks like -----

  ghost predicate RowMatchesLog(row: Option<Attempt>, log: seq<Time>, now: Time) {
    && (row.None? <==> log == [])
    && Ordered(log)
    && (row.Some? ==>
          var a := row.value;
          && 1 <= a.failureCount <= |log|
          && log[|log| - a.failureCount] == a.windowStartedAt
          && log[|log| - 1] <= now
          && log[|log| - 1] <= a.windowStartedAt + WINDOW
          && a.blockedUntil == BlockAfter(a.failureCount, log[|log| - 1]))
  }

  lemma RowMatchesLogStep(k: nat, key: Key, s: State, step: Step, any: Key)
    requires RowMatchesLog(Lookup(s.rows, any), FailuresOf(s, any), s.now)
    requires Enabled(k, key, s, step)
    ensures RowMatchesLog(Lookup(Apply(s, step).rows, any), FailuresOf(Apply(s, step), any), Apply(s, step).now)
  {
  }

  /** A block is set exactly from the fifth failure of a window on, and ends 15 minutes after the latest failure. */
  lemma {:induction false} RowInvariant(k: nat, key: Key, s: State, steps: seq<Step>, any: Key)
    requires RowMatchesLog(Lookup(s.rows, any), FailuresOf(s, any), s.now)
    requires Legal(k, key, s, steps)
    ensures var t := Final(s, steps); RowMatchesLog(Lookup(t.rows, any), FailuresOf(t, any), t.now)
    decreases |steps|
  {
    if steps != [] {
      RowMatchesLogStep(k, key, s, steps[0], any);
      RowInvariant(k, key, Apply(s, steps[0]), steps[1..], any);
    }
  }

  // ----- Interleaved calls: at most 4 + 2k failures in a row -----

  /** f calls for the pair are past the gate. Four phases of a row that carries a block. */
  ghost predicate Bounded(k: nat, row: Attempt, f: nat, now: Time) {
    && row.windowStartedAt <= now
    && (row.blockedUntil.Some? <==> row.failureCount >= LIMIT)
    && (row.failureCount >= LIMIT ==>
          var c := row.failureCount;
          var last := row.blockedUntil.value - WINDOW;
          var edge := row.windowStartedAt + WINDOW;
          && row.windowStartedAt <= last <= now
          && ( || c + f <= 4 + k                            // nobody entered since the block began
               || (edge <= now && c <= 4 + k)               // the block ran out exactly at the window's edge
               || (edge <= last && c + f <= 4 + 2 * k)      // failures recorded exactly at the edge
               || (edge < now && c <= 4 + 2 * k)))          // the next failure starts a new window
  }

  ghost predicate PairBounded(k: nat, key: Key, s: State) {
    s.inFlight[key] <= k && (key in s.rows ==> Bounded(k, s.rows[key], s.inFlight[key], s.now))
  }

  lemma PairBoundedStep(k: nat, key: Key, s: State, step: Step)
    requires PairBounded(k, key, s)
    requires Enabled(k, key, s, step)
    ensures PairBounded(k, key, Apply(s, step))
  {
  }

  lemma {:induction false} PairBoundedRun(k: nat, key: Key, s: State, steps: seq<Step>)
    requires PairBounded(k, key, s)
    requires Legal(k, key, s, steps)
    ensures PairBounded(k, key, Final(s, steps))
    decreases |steps|
  {
    if steps != [] {
      PairBoundedStep(k, key, s, steps[0]);
      PairBoundedRun(k, key, Apply(s, steps[0]), steps[1..]);
    }
  }

  /** With at most k overlapping calls for a pair, no run ever stores more than 4 + 2k failures for it. */
  lemma InterleavedBound(k: nat, key: Key, start: Time, steps: seq<Step>)
    requires Legal(k, key, Init(start), steps)
    ensures key in Final(Init(start), steps).rows ==> Final(Init(start), steps).rows[key].failureCount <= 4 + 2 * k
  {
    PairBoundedRun(k, key, Init(start), steps);
  }

  // ----- The bound is reached -----

  function Repeat(step: Step, n: nat): (steps: seq<Step>)
    ensures |steps| == n
  {
    seq(n, _ => step)
  }

  lemma {:induction false} EnterMany(k: nat, key: Key, s: State, n: nat)
    requires Passes(s, key)
    requires s.inFlight[key] + n <= k
    ensures Legal(k, key, s, Repeat(Gate(key), n))
    ensures Final(s, Repeat(Gate(key), n)) == s.(inFlight := s.inFlight[key := s.inFlight[key] + n])
    decreases n
  {
    if n == 0 {
      assert s.inFlight[key := s.inFlight[key]] == s.inFlight;
    } else {
      var t := Apply(s, Gate(key));
      assert Repeat(Gate(key), n)[1..] == Repeat(Gate(key), n - 1);
      EnterMany(k, key, t, n - 1);
      assert t.inFlight[key := t.inFlight[key] + (n - 1)] == s.inFlight[key := s.inFlight[key] + n];
    }
  }

  /** n calls past the gate all record a failure at one instant, inside the current window. */
  lemma {:induction false} FailMany(k: nat, key: Key, s: State, n: nat)
    requires key in s.rows
    requires s.rows[key].windowStartedAt >= s.now - WINDOW
    requires s.inFlight[key] >= n
    ensures Legal(k, key, s, Repeat(Fail(key), n))
    ensures
      var t := Final(s, Repeat(Fail(key), n));
      && t.now == s.now && key in t.rows
      && t.inFlight == s.inFlight[key := s.inFlight[key] - n]
      && t.rows[key].failureCount == s.rows[key].failureCount + n
      && t.rows[key].windowStartedAt == s.rows[key].windowStartedAt
      && (n > 0 ==> t.rows[key].blockedUntil == BlockAfter(t.rows[key].failureCount, s.now))
    decreases n
  {
    if n == 0 {
      assert s.inFlight[key := s.inFlight[key]] == s.inFlight;
    } else {
      var t := Apply(s, Fail(key));
      assert Repeat(Fail(key), n)[1..] == Repeat(Fail(key), n - 1);
      FailMany(k, key, t, n - 1);
      assert t.inFlight[key := t.inFlight[key] - (n - 1)] == s.inFlight[key := s.inFlight[key] - n];
    }
  }

  /** One round of calls: n enter together, then all of them fail at the same instant. */
  lemma {:induction false} RoundOf(k: nat, key: Key, s: State, n: nat)
    requires key in s.rows && Passes(s, key)
    requires s.rows[key].windowStartedAt >= s.now - WINDOW
    requires s.inFlight[key] == 0 && n <= k
    ensures Legal(k, key, s, Repeat(Gate(key), n) + Repeat(Fail(key), n))
    ensures
      var t := Final(s, Repeat(Gate(key), n) + Repeat(Fail(key), n));
      && t.now == s.now && key in t.rows && t.inFlight[key] == 0
      && t.rows[key].failureCount == s.rows[key].failureCount + n
      && t.rows[key].windowStartedAt == s.rows[key].windowStartedAt
      && (n > 0 ==> t.rows[key].blockedUntil == BlockAfter(t.rows[key].failureCount, s.now))
  {
    EnterMany(k, key, s, n);
    RunsCompose(k, key, s, Repeat(Gate(key), n), Repeat(Fail(key), n));
    var entered := s.(inFlight := s.inFlight[key := n]);
    assert Final(s, Repeat(Gate(key), n)) == entered;
    FailMany(k, key, entered, n);
  }

  function Rounds(key: Key, k: nat): seq<Step> {
    Repeat(Gate(key), k) + Repeat(Fail(key), k)
  }

  function SerialRounds(key: Key, n: nat): seq<Step> {
    if n == 0 then [] else Rounds(key, 1) + SerialRounds(key, n - 1)
  }

  /** A call that nothing overlaps and that fails leaves exactly the recorded row behind. */
  lemma SingleFailure(k: nat, key: Key, s: State)
    requires k >= 1 && Passes(s, key) && s.inFlight[key] == 0
    ensures Legal(k, key, s, Rounds(key, 1))
    ensures
      Final(s, Rounds(key, 1))
      == s.(rows := s.rows[key := Recorded(Lookup(s.rows, key), s.now)],
            failures := s.failures[key := FailuresOf(s, key) + [s.now]])
  {
    var t := Apply(s, Gate(key));
    assert Repeat(Gate(key), 1) == [Gate(key)] && Repeat(Fail(key), 1) == [Fail(key)];
    OneStep(k, key, s, Gate(key));
    OneStep(k, key, t, Fail(key));
    RunsCompose(k, key, s, [Gate(key)], [Fail(key)]);
    assert Apply(t, Fail(key)).inFlight == s.inFlight;
  }

  /** n calls one after another at one instant, all within the row's window and up to the block. */
  lemma {:induction false} SerialFailures(k: nat, key: Key, s: State, n: nat)
    requires k >= 1
    requires key in s.rows && s.rows[key].blockedUntil == None
    requires s.rows[key].windowStartedAt >= s.now - WINDOW
    requires s.rows[key].failureCount < LIMIT
    requires s.rows[key].failureCount + n <= LIMIT
    requires s.inFlight[key] == 0
    ensures Legal(k, key, s, SerialRounds(key, n))
    ensures
      var t := Final(s, SerialRounds(key, n));
      var count := s.rows[key].failureCount + n;
      && t.now == s.now && t.inFlight[key] == 0 && key in t.rows
      && t.rows[key] == Attempt(count, s.rows[key].windowStartedAt, BlockAfter(count, s.now))
      && FailuresOf(t, key) == FailuresOf(s, key) + seq(n, _ => s.now)
    decreases n
  {
    if n > 0 {
      SingleFailure(k, key, s);
      var t := Final(s, Rounds(key, 1));
      assert FailuresOf(t, key) == FailuresOf(s, key) + [s.now];
      if n > 1 {
        SerialFailures(k, key, t, n - 1);
        assert [s.now] + seq(n - 1, _ => s.now) == seq(n, _ => s.now);
      } else {
        assert SerialRounds(key, n - 1) == [];
      }
      RunsCompose(k, key, s, Rounds(key, 1), SerialRounds(key, n - 1));
    }
  }

  /** The run: four serial failures, k overlapping ones, a 15 minute pause, k overlapping ones again. */
  function FullestRun(key: Key, k: nat): seq<Step> {
    Rounds(key, 1) + SerialRounds(key, 3) + Rounds(key, k) + [Tick(WINDOW)] + Rounds(key, k)
  }

  /** For every k the bound 4 + 2k is reached by a legal run. */
  lemma InterleavedBoundReached(k: nat, key: Key, start: Time)
    requires k >= 1
    ensures Legal(k, key, Init(start), FullestRun(key, k))
    ensures key in Final(Init(start), FullestRun(key, k)).rows
    ensures Final(Init(start), FullestRun(key, k)).rows[key].failureCount == 4 + 2 * k
  {
    var s0, first := Init(start), Rounds(key, 1);
    SingleFailure(k, key, s0);
    var s1 := Final(s0, first);
    SerialFailures(k, key, s1, 3);
    var s2 := Final(s1, SerialRounds(key, 3));
    RoundOf(k, key, s2, k);
    var s3 := Final(s2, Rounds(key, k));
    var s4 := s3.(now := s3.now + WINDOW);
    OneStep(k, key, s3, Tick(WINDOW));
    RoundOf(k, key, s4, k);
    Appended(k, key, s0, first, s1, SerialRounds(key, 3));
    Appended(k, key, s0, first + SerialRounds(key, 3), s2, Rounds(key, k));
    Appended(k, key, s0, first + SerialRounds(key, 3) + Rounds(key, k), s3, [Tick(WINDOW)]);
    Appended(k, key, s0, first + SerialRounds(key, 3) + Rounds(key, k) + [Tick(WINDOW)], s4, Rounds(key, k));
  }

  // ----- Serial calls: at most 8 failures in any 15 minutes -----

  /** Calls one at a time: the window of the row, four failures before it, and the gate already passed. */
  ghost predicate SerialLog(row: Option<Attempt>, log: seq<Time>, f: nat, now: Time) {
    && RowMatchesLog(row, log, now)
    && Spread(log, 8, WINDOW)
    && f <= 1
    && (row.Some? ==>
          var c := row.value.failureCount;
          && (|log| >= c + 4 ==> log[|log| - c - 4] + WINDOW <= row.value.windowStartedAt)
          && (c >= LIMIT && f == 1 ==> log[|log| - 1] + WINDOW <= now))
  }

  lemma SerialFail(row: Option<Attempt>, log: seq<Time>, now: Time)
    requires SerialLog(row, log, 1, now)
    ensures SerialLog(Some(Recorded(row, now)), log + [now], 0, now)
  {
    var log' := log + [now];
    RecordedMatchesLog(row, log, now);
    if row.Some? {
      var c := row.value.failureCount;
      if c < LIMIT && |log| >= 8 {
        assert log[|log| - 8] <= if row.value.windowStartedAt < now - WINDOW then log[|log| - c] else log[|log| - c - 4];
      }
      if c < LIMIT && |log| >= 3 && row.value.windowStartedAt < now - WINDOW && |log'| >= 5 {
        assert log'[|log'| - 5] <= log[|log| - c];
      }
    }
    forall i, j | 0 <= i && j == i + 8 && j < |log'|
      ensures log'[i] + WINDOW <= log'[j]
    {
      if j < |log| {
        assert log[i] + WINDOW <= log[j];
      }
    }
  }

  lemma RecordedMatchesLog(row: Option<Attempt>, log: seq<Time>, now: Time)
    requires RowMatchesLog(row, log, now)
    ensures RowMatchesLog(Some(Recorded(row, now)), log + [now], now)
  {
  }

  ghost predicate PairSerial(key: Key, s: State) {
    SerialLog(Lookup(s.rows, key), FailuresOf(s, key), s.inFlight[key], s.now)
  }

  lemma PairSerialStep(key: Key, s: State, step: Step)
    requires PairSerial(key, s)
    requires Enabled(1, key, s, step)
    ensures PairSerial(key, Apply(s, step))
  {
    if step == Fail(key) {
      SerialFail(Lookup(s.rows, key), FailuresOf(s, key), s.now);
    }
  }

  lemma {:induction false} PairSerialRun(key: Key, s: State, steps: seq<Step>)
    requires PairSerial(key, s)
    requires Legal(1, key, s, steps)
    ensures PairSerial(key, Final(s, steps))
    decreases |steps|
  {
    if steps != [] {
      PairSerialStep(key, s, steps[0]);
      PairSerialRun(key, Apply(s, steps[0]), steps[1..]);
    }
  }

  /** Serial calls: between two successful logins any half-open 15 minutes hold at most 8 failures. */
  lemma SlidingWindowBound(key: Key, start: Time, steps: seq<Step>, from: Time)
    requires Legal(1, key, Init(start), steps)
    ensures CountIn(FailuresOf(Final(Init(start), steps), key), from, from + WINDOW) <= 8
  {
    PairSerialRun(key, Init(start), steps);
    SpreadBoundsCount(FailuresOf(Final(Init(start), steps), key), 8, WINDOW, from);
  }

  function OldWindow(key: Key): seq<Step> {
    Rounds(key, 1) + [Tick(WINDOW)] + SerialRounds(key, 3)
  }

  function NewWindow(key: Key): seq<Step> {
    Rounds(key, 1) + SerialRounds(key, 4)
  }

  /** Once the window is over, five failures fit before the next block. */
  lemma FiveInNewWindow(key: Key, s: State)
    requires key in s.rows && Passes(s, key) && s.inFlight[key] == 0
    requires s.rows[key].windowStartedAt < s.now - WINDOW
    ensures Legal(1, key, s, NewWindow(key))
    ensures FailuresOf(Final(s, NewWindow(key)), key) == FailuresOf(s, key) + seq(5, _ => s.now)
  {
    SingleFailure(1, key, s);
    var t := Final(s, Rounds(key, 1));
    SerialFailures(1, key, t, 4);
    Appended(1, key, s, Rounds(key, 1), t, SerialRounds(key, 4));
    assert [s.now] + seq(4, _ => s.now) == seq(5, _ => s.now);
  }

  /** The first failure and the three at the far edge of its window. */
  lemma FourOverOneWindow(key: Key, start: Time)
    ensures
      var t := Final(Init(start), OldWindow(key));
      && Legal(1, key, Init(start), OldWindow(key))
      && t.now == start + WINDOW && t.inFlight[key] == 0
      && key in t.rows && t.rows[key] == Attempt(4, start, None)
      && FailuresOf(t, key) == [start] + seq(3, _ => start + WINDOW)
  {
    var s0 := Init(start);
    SingleFailure(1, key, s0);
    var s1 := Final(s0, Rounds(key, 1));
    assert FailuresOf(s1, key) == [start];
    OneStep(1, key, s1, Tick(WINDOW));
    var s2 := Apply(s1, Tick(WINDOW));
    Appended(1, key, s0, Rounds(key, 1), s1, [Tick(WINDOW)]);
    SerialFailures(1, key, s2, 3);
    Appended(1, key, s0, Rounds(key, 1) + [Tick(WINDOW)], s2, SerialRounds(key, 3));
  }

  /** The run: one failure, a full window later three more, and just after that five in a new window. */
  function SplitRun(key: Key): seq<Step> {
    OldWindow(key) + [Tick(1)] + NewWindow(key)
  }

  lemma SplitRunLog(key: Key, start: Time)
    ensures Legal(1, key, Init(start), SplitRun(key))
    ensures
      FailuresOf(Final(Init(start), SplitRun(key)), key)
      == [start] + seq(3, _ => start + WINDOW) + seq(5, _ => start + WINDOW + 1)
  {
    FourOverOneWindow(key, start);
    var s1 := Final(Init(start), OldWindow(key));
    var s2 := s1.(now := s1.now + 1);
    OneStep(1, key, s1, Tick(1));
    FiveInNewWindow(key, s2);
    Appended(1, key, Init(start), OldWindow(key), s1, [Tick(1)]);
    Appended(1, key, Init(start), OldWindow(key) + [Tick(1)], s2, NewWindow(key));
  }

  /** The bound of 8 is reached: the fixed windows of the code do not make a sliding window of 5. */
  lemma SlidingWindowBoundReached(key: Key, start: Time)
    ensures Legal(1, key, Init(start), SplitRun(key))
    ensures CountIn(FailuresOf(Final(Init(start), SplitRun(key)), key), start + WINDOW, start + WINDOW + WINDOW) == 8
  {
    SplitRunLog(key, start);
    var b := start + WINDOW;
    assert CountIn([start], b, b + WINDOW) == 0 by { assert [start][..0] == []; }
    CountRepeated([start], b, 3, b, b + WINDOW);
    CountRepeated([start] + seq(3, _ => b), b + 1, 5, b, b + WINDOW);
  }
}
