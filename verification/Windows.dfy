/** How many events of a time-ordered log fall into a half-open interval. */
module Windows {
  import opened Common

  ghost predicate Ordered(log: seq<Time>) {
    forall i, j :: 0 <= i <= j < |log| ==> log[i] <= log[j]
  }

  /** Any m + 1 consecutive events span at least `width`. */
  ghost predicate Spread(log: seq<Time>, m: nat, width: Time) {
    forall i, j :: 0 <= i && j == i + m && j < |log| ==> log[i] + width <= log[j]
  }

  ghost function CountIn(log: seq<Time>, from: Time, to: Time): nat {
    if log == [] then 0
    else
      CountIn(log[..|log| - 1], from, to) + if from <= log[|log| - 1] < to then 1 else 0
  }

  lemma {:induction false} CountAfterPrefix(log: seq<Time>, from: Time, to: Time, skipped: nat)
    requires skipped <= |log|
    requires forall i :: 0 <= i < skipped ==> log[i] < from
    ensures CountIn(log, from, to) <= |log| - skipped
  {
    if log != [] {
      var rest := log[..|log| - 1];
      CountAfterPrefix(rest, from, to, if skipped == |log| then skipped - 1 else skipped);
    }
  }

  lemma {:induction false} CountRepeated(log: seq<Time>, x: Time, n: nat, from: Time, to: Time)
    ensures CountIn(log + seq(n, _ => x), from, to) == CountIn(log, from, to) + if from <= x < to then n else 0
    decreases n
  {
    var all := log + seq(n, _ => x);
    if n == 0 {
      assert all == log;
    } else {
      assert all[..|all| - 1] == log + seq(n - 1, _ => x);
      CountRepeated(log, x, n - 1, from, to);
    }
  }

  /** A spread log puts at most m events into any half-open interval of that width. */
  lemma {:induction false} SpreadBoundsCount(log: seq<Time>, m: nat, width: Time, from: Time)
    requires Ordered(log)
    requires Spread(log, m, width)
    ensures CountIn(log, from, from + width) <= m
  {
    if log == [] {
    } else {
      var last := |log| - 1;
      if from <= log[last] < from + width {
        if last >= m {
          assert log[last - m] + width <= log[last];
          CountAfterPrefix(log, from, from + width, last - m + 1);
        } else {
          CountAfterPrefix(log, from, from + width, 0);
        }
      } else {
        SpreadBoundsCount(log[..last], m, width, from);
      }
    }
  }

  /** Gaps of at least `gap` between neighbours add up over n steps. */
  lemma {:induction false} GapsAddUp(log: seq<Time>, gap: nat, n: nat)
    requires Spread(log, 1, gap)
    ensures Spread(log, n, n * gap)
  {
    forall i, j | 0 <= i && j == i + n && j < |log|
      ensures log[i] + n * gap <= log[j]
    {
      GapFrom(log, gap, i, n);
    }
  }

  lemma {:induction false} GapFrom(log: seq<Time>, gap: nat, i: nat, n: nat)
    requires Spread(log, 1, gap)
    requires i + n < |log|
    ensures log[i] + n * gap <= log[i + n]
  {
    if n > 0 {
      GapFrom(log, gap, i, n - 1);
      assert log[i + n - 1] + gap <= log[i + n];
    }
  }
}
