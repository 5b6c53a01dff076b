/** Workspace subscriptions: every upsert counts the owner's venues, cancels the current row and inserts the next. */
module Billing {
  import opened Common
  import opened Sequences
  import V = VenueModel
  import VenueService

  datatype Status = Trialing | Active | PastDue | Cancelled | Expired

  datatype Row = Row(
    id: string, owner: string, plan: string, cycle: string, status: Status, venueLimit: Option<nat>,
    trialEndsAt: Time, periodEndsAt: Time, cancelledAt: Option<Time>, createdAt: Time)
  {
    predicate Current() { status.Trialing? || status.Active? || status.PastDue? }
  }

  datatype Outcome = Upserted(row: Row) | InvalidInput | Conflict

  const DAY: Time := 24 * 60 * MINUTE

  function LimitForPlan(plan: string): Option<nat> {
    if plan == "start" then Some(1) else if plan == "business" then Some(3) else None
  }

  predicate ValidInput(plan: string, cycle: string) {
    (plan == "start" || plan == "business" || plan == "pro") && (cycle == "monthly" || cycle == "yearly")
  }

  predicate WithinLimit(plan: string, venueCount: nat) {
    LimitForPlan(plan).None? || venueCount <= LimitForPlan(plan).value
  }

  // ----- Statements -----

  function Cancel(rows: seq<Row>, owner: string, now: Time): (r: seq<Row>)
    ensures |r| == |rows|
    ensures forall i :: 0 <= i < |rows| ==>
      r[i] == if rows[i].owner == owner && rows[i].Current()
              then rows[i].(status := Cancelled, cancelledAt := Some(now)) else rows[i]
  {
    seq(|rows|, i requires 0 <= i < |rows| =>
      if rows[i].owner == owner && rows[i].Current()
      then rows[i].(status := Cancelled, cancelledAt := Some(now)) else rows[i])
  }

  /** `periodEnd` adds a calendar month or year; the calendar is not part of this model. */
  function NewRow(id: string, owner: string, plan: string, cycle: string, now: Time, periodEnd: (string, Time) -> Time)
    : Row
  {
    Row(id, owner, plan, cycle, Trialing, LimitForPlan(plan), now + 14 * DAY, periodEnd(cycle, now), None, now)
  }

  function Upsert(
    periodEnd: (string, Time) -> Time, rows: seq<Row>, owner: string, plan: string, cycle: string,
    venueCount: nat, id: string, now: Time): (seq<Row>, Outcome)
  {
    var row := NewRow(id, owner, plan, cycle, now, periodEnd);
    if !ValidInput(plan, cycle) then (rows, InvalidInput)
    else if !WithinLimit(plan, venueCount) then (rows, Conflict)
    else if exists i :: 0 <= i < |rows| && rows[i].id == id then (rows, Conflict)
    else (Cancel(rows, owner, now) + [row], Upserted(row))
  }

  // ----- What an upsert does, and exactly when -----

  predicate Fits(plan: string, venueCount: nat) {
    (plan == "start" ==> venueCount <= 1) && (plan == "business" ==> venueCount <= 3)
  }

  /** A trial of 14 days of that plan and cycle, with the limit of 1, 3 or no venues. */
  ghost predicate IsTrial(
    periodEnd: (string, Time) -> Time, row: Row, owner: string, plan: string, cycle: string, id: string, now: Time)
  {
    && row.id == id && row.owner == owner && row.plan == plan && row.cycle == cycle && row.status == Trialing
    && (plan == "start" ==> row.venueLimit == Some(1)) && (plan == "business" ==> row.venueLimit == Some(3))
    && (plan == "pro" ==> row.venueLimit == None)
    && row.trialEndsAt == now + 1_209_600_000_000 && row.periodEndsAt == periodEnd(cycle, now)
    && row.createdAt == now && row.cancelledAt == None
  }

  ghost predicate UpsertEffect(
    periodEnd: (string, Time) -> Time, rows: seq<Row>, after: seq<Row>, owner: string, plan: string, cycle: string,
    venueCount: nat, id: string, now: Time, o: Outcome)
  {
    if plan !in {"start", "business", "pro"} || cycle !in {"monthly", "yearly"} then after == rows && o == InvalidInput
    else if !Fits(plan, venueCount) || exists r :: r in rows && r.id == id then after == rows && o == Conflict
    else
      && o.Upserted? && IsTrial(periodEnd, o.row, owner, plan, cycle, id, now)
      && |after| == |rows| + 1 && after[|rows|] == o.row
      && forall i :: 0 <= i < |rows| ==>
           after[i] == if rows[i].owner == owner && rows[i].status in {Trialing, Active, PastDue}
                       then rows[i].(status := Cancelled, cancelledAt := Some(now)) else rows[i]
  }

  lemma UpsertDoes(
    periodEnd: (string, Time) -> Time, rows: seq<Row>, owner: string, plan: string, cycle: string,
    venueCount: nat, id: string, now: Time)
    ensures
      var (after, o) := Upsert(periodEnd, rows, owner, plan, cycle, venueCount, id, now);
      UpsertEffect(periodEnd, rows, after, owner, plan, cycle, venueCount, id, now, o)
  {
    assert (exists r :: r in rows && r.id == id) <==> exists i :: 0 <= i < |rows| && rows[i].id == id by {
      if r :| r in rows && r.id == id {
        var i :| 0 <= i < |rows| && rows[i] == r;
        assert rows[i].id == id;
      }
      if i :| 0 <= i < |rows| && rows[i].id == id {
        assert rows[i] in rows;
      }
    }
  }

  /** ORDER BY created_at DESC LIMIT 1 over the owner's current rows: any latest row may be the answer. */
  ghost predicate IsSubscription(rows: seq<Row>, owner: string, answer: Option<Row>) {
    match answer
    case None => forall r :: r in rows && r.owner == owner ==> !r.Current()
    case Some(row) =>
      && row in rows && row.owner == owner && row.Current()
      && forall r :: r in rows && r.owner == owner && r.Current() ==> r.createdAt <= row.createdAt
  }

  // ----- Runs: the venues table changes between upserts -----

  /** SELECT COUNT(*) over the owner's venues that are not deleted. */
  function LiveVenues(venues: V.Venues, owner: string): nat {
    |LiveIds(venues, owner)|
  }

  function LiveIds(venues: V.Venues, owner: string): set<string> {
    set id | id in venues && V.Owns(venues, owner, id)
  }

  datatype Env = Env(venues: V.Env, periodEnd: (string, Time) -> Time)

  datatype Workspace = Workspace(venues: V.Venues, rows: seq<Row>)

  const EMPTY := Workspace(map[], [])

  datatype Call =
    | Venue(call: V.Call)
    | Subscribe(owner: string, plan: string, cycle: string, id: string, now: Time)

  function Subscribed(env: Env, w: Workspace, c: Call): (seq<Row>, Outcome)
    requires c.Subscribe?
  {
    Upsert(env.periodEnd, w.rows, c.owner, c.plan, c.cycle, LiveVenues(w.venues, c.owner), c.id, c.now)
  }

  function Step(env: Env, w: Workspace, c: Call): Workspace {
    match c
    case Venue(call) => w.(venues := V.Step(env.venues, w.venues, call).0)
    case Subscribe(_, _, _, _, _) => w.(rows := Subscribed(env, w, c).0)
  }

  function Run(env: Env, w: Workspace, calls: seq<Call>): Workspace
    decreases |calls|
  {
    if calls == [] then w else Run(env, Step(env, w, calls[0]), calls[1..])
  }

  /** What the step appends to the list of the owner's successes. */
  function Returned(env: Env, w: Workspace, c: Call, owner: string): seq<Row> {
    if c.Subscribe? && c.owner == owner && Subscribed(env, w, c).1.Upserted? then [Subscribed(env, w, c).1.row] else []
  }

  /** The rows that the owner's successful upserts returned, oldest first. */
  function Successes(env: Env, w: Workspace, calls: seq<Call>, owner: string): seq<Row>
    decreases |calls|
  {
    if calls == [] then []
    else Returned(env, w, calls[0], owner) + Successes(env, Step(env, w, calls[0]), calls[1..], owner)
  }

  function OwnedBy(rows: seq<Row>, owner: string): seq<Row> {
    Filter(rows, (r: Row) => r.owner == owner)
  }

  /** The row an upsert returned, whatever became of its status later. */
  predicate SameSubscription(stored: Row, returned: Row) {
    stored.(status := returned.status, cancelledAt := returned.cancelledAt) == returned
  }

  /** One stored row per success, in order; all but the last cancelled, the last as it was returned. */
  ghost predicate Mirrors(stored: seq<Row>, returned: seq<Row>) {
    && |stored| == |returned|
    && (forall i :: 0 <= i < |stored| ==> SameSubscription(stored[i], returned[i]))
    && (forall i :: 0 <= i < |stored| - 1 ==> stored[i].status == Cancelled && stored[i].cancelledAt.Some?)
    && (stored != [] ==> stored[|stored| - 1] == returned[|returned| - 1] && stored[|stored| - 1].status == Trialing)
  }

  lemma OwnedByAppended(rows: seq<Row>, row: Row, owner: string)
    ensures OwnedBy(rows + [row], owner) == OwnedBy(rows, owner) + if row.owner == owner then [row] else []
  {
    FilterAppended(rows, row, (r: Row) => r.owner == owner);
  }

  lemma CancelFirst(row: Row, rows: seq<Row>, owner: string, now: Time)
    ensures Cancel([row] + rows, owner, now) == Cancel([row], owner, now) + Cancel(rows, owner, now)
  {
  }

  lemma {:induction false} CancelOwned(rows: seq<Row>, owner: string, now: Time, other: string)
    ensures OwnedBy(Cancel(rows, owner, now), other) == if other == owner then Cancel(OwnedBy(rows, owner), owner, now)
                                                        else OwnedBy(rows, other)
  {
    if rows == [] {
      assert Cancel(rows, owner, now) == [];
    } else {
      assert rows == [rows[0]] + rows[1..];
      CancelFirst(rows[0], rows[1..], owner, now);
      CancelOwned(rows[1..], owner, now, other);
      assert Cancel(rows, owner, now)[1..] == Cancel(rows[1..], owner, now);
      if rows[0].owner == other {
        CancelFirst(rows[0], OwnedBy(rows[1..], owner), owner, now);
      }
    }
  }

  lemma OwnedByMembers(rows: seq<Row>, owner: string)
    ensures forall r :: r in OwnedBy(rows, owner) <==> r in rows && r.owner == owner
  {
    FilterMembers(rows, (r: Row) => r.owner == owner);
  }

  lemma CancelledAndNext(stored: seq<Row>, returned: seq<Row>, owner: string, now: Time, row: Row)
    requires Mirrors(stored, returned) && row.status == Trialing
    requires forall i :: 0 <= i < |stored| ==> stored[i].owner == owner
    ensures Mirrors(Cancel(stored, owner, now) + [row], returned + [row])
  {
  }

  lemma StepOwned(env: Env, w: Workspace, c: Call, owner: string)
    ensures
      var added := Returned(env, w, c, owner);
      OwnedBy(Step(env, w, c).rows, owner)
      == if added == [] then OwnedBy(w.rows, owner) else Cancel(OwnedBy(w.rows, owner), owner, c.now) + added
  {
    if c.Subscribe? && Subscribed(env, w, c).1.Upserted? {
      CancelOwned(w.rows, c.owner, c.now, owner);
      OwnedByAppended(Cancel(w.rows, c.owner, c.now), Subscribed(env, w, c).1.row, owner);
      assert OwnedBy(w.rows, owner) + [] == OwnedBy(w.rows, owner);
    }
  }

  lemma StepMirrors(env: Env, w: Workspace, c: Call, owner: string, returned: seq<Row>)
    requires Mirrors(OwnedBy(w.rows, owner), returned)
    ensures Mirrors(OwnedBy(Step(env, w, c).rows, owner), returned + Returned(env, w, c, owner))
  {
    var own, added := OwnedBy(w.rows, owner), Returned(env, w, c, owner);
    StepOwned(env, w, c, owner);
    if added == [] {
      assert returned + added == returned;
    } else {
      OwnedByMembers(w.rows, owner);
      assert forall i :: 0 <= i < |own| ==> own[i] in own;
      CancelledAndNext(own, returned, owner, c.now, added[0]);
    }
  }

  lemma {:induction false} RunMirrors(env: Env, w: Workspace, calls: seq<Call>, owner: string, returned: seq<Row>)
    requires Mirrors(OwnedBy(w.rows, owner), returned)
    ensures Mirrors(OwnedBy(Run(env, w, calls).rows, owner), returned + Successes(env, w, calls, owner))
    decreases |calls|
  {
    if calls == [] {
      assert returned + [] == returned;
    } else {
      var next, added := Step(env, w, calls[0]), Returned(env, w, calls[0], owner);
      StepMirrors(env, w, calls[0], owner, returned);
      RunMirrors(env, next, calls[1..], owner, returned + added);
      Regroup(returned, added, Successes(env, next, calls[1..], owner));
    }
  }

  lemma Regroup(a: seq<Row>, b: seq<Row>, c: seq<Row>)
    ensures (a + b) + c == a + (b + c)
  {
  }

  /**
   After any serial run an owner's rows mirror the successful upserts: n of them, n - 1 cancelled, and the
   subscription that is read back is exactly the last one returned.
   */
  lemma OneCurrentSubscription(env: Env, calls: seq<Call>, owner: string, answer: Option<Row>)
    requires IsSubscription(Run(env, EMPTY, calls).rows, owner, answer)
    ensures
      var successes := Successes(env, EMPTY, calls, owner);
      && Mirrors(OwnedBy(Run(env, EMPTY, calls).rows, owner), successes)
      && answer == if successes == [] then None else Some(successes[|successes| - 1])
  {
    var rows, successes := Run(env, EMPTY, calls).rows, Successes(env, EMPTY, calls, owner);
    RunMirrors(env, EMPTY, calls, owner, []);
    assert [] + successes == successes;
    OwnedByMembers(rows, owner);
    LastIsCurrent(rows, owner, OwnedBy(rows, owner), successes, answer);
  }

  lemma LastIsCurrent(rows: seq<Row>, owner: string, own: seq<Row>, returned: seq<Row>, answer: Option<Row>)
    requires forall r :: r in own <==> r in rows && r.owner == owner
    requires Mirrors(own, returned) && IsSubscription(rows, owner, answer)
    ensures answer == if returned == [] then None else Some(returned[|returned| - 1])
  {
    if own != [] {
      assert own[|own| - 1] in own;
    }
    if answer.Some? {
      assert answer.value in own;
      var i :| 0 <= i < |own| && own[i] == answer.value;
    }
  }

  // ----- Venues and the plan's limit -----

  /** `count` is at most `extra` above the limit of the owner's current subscription. */
  ghost predicate Within(rows: seq<Row>, owner: string, count: nat, extra: nat) {
    forall r :: r in rows && r.owner == owner && r.Current() && r.venueLimit.Some? ==> count <= r.venueLimit.value + extra
  }

  ghost predicate AtMostOver(w: Workspace, owner: string, extra: nat) {
    Within(w.rows, owner, LiveVenues(w.venues, owner), extra)
  }

  predicate CreatesFor(env: Env, w: Workspace, c: Call, owner: string) {
    c.Venue? && c.call.Create? && c.call.owner == owner && V.Step(env.venues, w.venues, c.call).1 == V.Done
  }

  predicate DeletesFor(env: Env, w: Workspace, c: Call, owner: string) {
    c.Venue? && c.call.Delete? && c.call.owner == owner && V.Step(env.venues, w.venues, c.call).1 == V.Done
  }

  lemma WritesKeepCount(env: V.Env, v: V.Venues, call: V.Call, owner: string)
    requires !call.Create? && !call.Delete?
    ensures LiveVenues(V.Step(env, v, call).0, owner) == LiveVenues(v, owner)
  {
    var w := V.Step(env, v, call).0;
    V.WritesKeepSlugs(env, v, call);
    assert LiveIds(w, owner) == LiveIds(v, owner);
  }

  lemma InsertAddsOne(v: V.Venues, id: string, row: V.VenueRow, owner: string)
    requires id !in v && !row.deleted
    ensures LiveVenues(v[id := row], owner) == LiveVenues(v, owner) + if row.owner == owner then 1 else 0
  {
    assert LiveIds(v[id := row], owner) == LiveIds(v, owner) + if row.owner == owner then {id} else {};
  }

  lemma CreateAddsOne(
    env: V.Env, v: V.Venues, creator: string, input: V.Profile, settings: Option<V.Settings>, token: string,
    newId: string, owner: string)
    ensures
      var (w, o) := V.DoCreate(env, v, creator, input, settings, token, newId);
      LiveVenues(w, owner) == LiveVenues(v, owner) + if o == V.Done && creator == owner then 1 else 0
  {
    var (w, o) := V.DoCreate(env, v, creator, input, settings, token, newId);
    V.CreateInsertsOrNothing(env, v, creator, input, settings, token, newId);
    if o == V.Done {
      InsertAddsOne(v, newId, w[newId], owner);
    }
  }

  lemma DeleteTakesOne(v: V.Venues, deleter: string, id: string, owner: string)
    ensures
      var (w, o) := V.DoDelete(v, deleter, id);
      LiveVenues(w, owner) == LiveVenues(v, owner) - if o == V.Done && deleter == owner then 1 else 0
  {
    var (w, o) := V.DoDelete(v, deleter, id);
    if o == V.Done && deleter == owner {
      assert LiveIds(v, owner) == LiveIds(w, owner) + {id};
    } else {
      assert LiveIds(w, owner) == LiveIds(v, owner);
    }
  }

  /** The count goes up by one on a successful creation, down by one on a successful deletion, and stays else. */
  lemma CountStep(env: Env, w: Workspace, c: Call, owner: string)
    ensures
      LiveVenues(Step(env, w, c).venues, owner)
      == LiveVenues(w.venues, owner) + (if CreatesFor(env, w, c, owner) then 1 else 0)
         - (if DeletesFor(env, w, c, owner) then 1 else 0)
  {
    if c.Venue? {
      if c.call.Create? {
        CreateAddsOne(env.venues, w.venues, c.call.owner, c.call.profile, c.call.settings, c.call.token, c.call.newId, owner);
      } else if c.call.Delete? {
        DeleteTakesOne(w.venues, c.call.owner, c.call.id, owner);
      } else {
        WritesKeepCount(env.venues, w.venues, c.call, owner);
      }
    }
  }

  lemma UpsertedIsCurrent(env: Env, w: Workspace, c: Call, owner: string)
    requires c.Subscribe? && Subscribed(env, w, c).1.Upserted?
    ensures
      forall r :: r in Step(env, w, c).rows && r.owner == owner && r.Current() ==>
        if owner == c.owner then r == Subscribed(env, w, c).1.row else r in w.rows
  {
    var cancelled := Cancel(w.rows, c.owner, c.now);
    forall r | r in Step(env, w, c).rows && r.owner == owner && r.Current() && r != Subscribed(env, w, c).1.row
      ensures owner != c.owner && r in w.rows
    {
      var i :| 0 <= i < |cancelled| && cancelled[i] == r;
      assert cancelled[i] == w.rows[i];
    }
  }

  /** A success leaves the owner within the limit of the new subscription, whatever was before. */
  lemma SuccessMeetsLimit(env: Env, w: Workspace, c: Call, owner: string)
    requires c.Subscribe? && c.owner == owner && Subscribed(env, w, c).1.Upserted?
    ensures AtMostOver(Step(env, w, c), owner, 0)
  {
    UpsertedIsCurrent(env, w, c, owner);
  }

  /** Some current subscription of the owner allows exactly `count` venues. */
  ghost predicate AtLimit(rows: seq<Row>, owner: string, count: nat) {
    exists r :: r in rows && r.owner == owner && r.Current() && r.venueLimit == Some(count)
  }

  lemma OneMoreThanLimit(rows: seq<Row>, owner: string, count: nat, next: nat)
    requires Within(rows, owner, count, 0) && next <= count + 1
    ensures !Within(rows, owner, next, 0) <==> next == count + 1 && AtLimit(rows, owner, count)
  {
  }

  /** Only a venue created by the owner at the limit takes the count above the limit of the current subscription. */
  lemma OnlyCreationExceedsLimit(env: Env, w: Workspace, c: Call, owner: string)
    requires AtMostOver(w, owner, 0)
    ensures
      !AtMostOver(Step(env, w, c), owner, 0)
      <==> CreatesFor(env, w, c, owner) && AtLimit(w.rows, owner, LiveVenues(w.venues, owner))
  {
    CountStep(env, w, c, owner);
    if c.Venue? {
      OneMoreThanLimit(w.rows, owner, LiveVenues(w.venues, owner), LiveVenues(Step(env, w, c).venues, owner));
    } else {
      SubscribeStaysWithin(env, w, c, owner);
    }
  }

  lemma SubscribeStaysWithin(env: Env, w: Workspace, c: Call, owner: string)
    requires c.Subscribe? && AtMostOver(w, owner, 0)
    ensures AtMostOver(Step(env, w, c), owner, 0)
  {
    if Subscribed(env, w, c).1.Upserted? {
      UpsertedIsCurrent(env, w, c, owner);
    }
  }

  /** How many venues the owner created since the owner's latest successful upsert. */
  function NextCreated(env: Env, w: Workspace, c: Call, owner: string, created: nat): nat {
    if Returned(env, w, c, owner) != [] then 0 else created + if CreatesFor(env, w, c, owner) then 1 else 0
  }

  function CreatedSince(env: Env, w: Workspace, calls: seq<Call>, owner: string, created: nat): nat
    decreases |calls|
  {
    if calls == [] then created
    else CreatedSince(env, Step(env, w, calls[0]), calls[1..], owner, NextCreated(env, w, calls[0], owner, created))
  }

  lemma StepAtMostOver(env: Env, w: Workspace, c: Call, owner: string, created: nat)
    requires AtMostOver(w, owner, created)
    ensures AtMostOver(Step(env, w, c), owner, NextCreated(env, w, c, owner, created))
  {
    CountStep(env, w, c, owner);
    if c.Subscribe? && Subscribed(env, w, c).1.Upserted? {
      UpsertedIsCurrent(env, w, c, owner);
    }
  }

  lemma {:induction false} RunAtMostOver(env: Env, w: Workspace, calls: seq<Call>, owner: string, created: nat)
    requires AtMostOver(w, owner, created)
    ensures AtMostOver(Run(env, w, calls), owner, CreatedSince(env, w, calls, owner, created))
    decreases |calls|
  {
    if calls != [] {
      StepAtMostOver(env, w, calls[0], owner, created);
      RunAtMostOver(env, Step(env, w, calls[0]), calls[1..], owner, NextCreated(env, w, calls[0], owner, created));
    }
  }

  /**
   In every state of a run the owner's live venues exceed the limit of the current subscription by no more than
   the venues created since it was taken; right after a success, that is, by none.
   */
  lemma VenuesStayWithinLimit(env: Env, calls: seq<Call>, owner: string)
    ensures AtMostOver(Run(env, EMPTY, calls), owner, CreatedSince(env, EMPTY, calls, owner, 0))
  {
    RunAtMostOver(env, EMPTY, calls, owner, 0);
  }

  /** At every success of a run the owner has at most as many live venues as the plan allows. */
  lemma {:induction false} SuccessesRespectLimits(env: Env, w: Workspace, calls: seq<Call>, k: nat)
    requires k < |calls| && calls[k].Subscribe?
    requires Subscribed(env, Run(env, w, calls[..k]), calls[k]).1.Upserted?
    ensures
      var after, row := Run(env, w, calls[..k + 1]), Subscribed(env, Run(env, w, calls[..k]), calls[k]).1.row;
      && row in after.rows && row.Current() && AtMostOver(after, calls[k].owner, 0)
      && IsTrial(env.periodEnd, row, calls[k].owner, calls[k].plan, calls[k].cycle, calls[k].id, calls[k].now)
      && (calls[k].plan == "start" ==> LiveVenues(after.venues, calls[k].owner) <= 1)
      && (calls[k].plan == "business" ==> LiveVenues(after.venues, calls[k].owner) <= 3)
    decreases k
  {
    if k == 0 {
      assert calls[..1][1..] == [];
      SuccessMeetsLimit(env, w, calls[0], calls[0].owner);
      UpsertDoes(env.periodEnd, w.rows, calls[0].owner, calls[0].plan, calls[0].cycle,
                 LiveVenues(w.venues, calls[0].owner), calls[0].id, calls[0].now);
    } else {
      assert calls[..k][1..] == calls[1..][..k - 1] && calls[..k + 1][1..] == calls[1..][..k];
      SuccessesRespectLimits(env, Step(env, w, calls[0]), calls[1..], k - 1);
    }
  }

  /** The unique index over current rows. */
  ghost predicate OneCurrent(rows: seq<Row>) {
    forall i, j :: 0 <= i < j < |rows| && rows[i].owner == rows[j].owner ==> !(rows[i].Current() && rows[j].Current())
  }

  lemma UpsertKeepsOneCurrent(
    periodEnd: (string, Time) -> Time, rows: seq<Row>, owner: string, plan: string, cycle: string,
    venueCount: nat, id: string, now: Time)
    requires OneCurrent(rows)
    ensures OneCurrent(Upsert(periodEnd, rows, owner, plan, cycle, venueCount, id, now).0)
  {
  }

  // ----- The service -----

  class Service {
    const periodEnd: (string, Time) -> Time
    const database: VenueService.Database
    var rows: seq<Row>

    ghost predicate Valid()
      reads this
    {
      OneCurrent(rows)
    }

    constructor (periodEnd: (string, Time) -> Time, database: VenueService.Database)
      ensures Valid() && this.periodEnd == periodEnd && this.database == database && rows == []
    {
      this.periodEnd, this.database := periodEnd, database;
      rows := [];
    }

    /** The count is read from the venues table, before the transaction. */
    method UpsertSubscription(owner: string, plan: string, cycle: string, id: string, now: Time) returns (o: Outcome)
      requires Valid()
      modifies this
      ensures
        var count := LiveVenues(database.venues, owner);
        (rows, o) == Upsert(periodEnd, old(rows), owner, plan, cycle, count, id, now)
      ensures
        var count := LiveVenues(database.venues, owner);
        UpsertEffect(periodEnd, old(rows), rows, owner, plan, cycle, count, id, now, o)
      ensures Valid()
      ensures o.Upserted? ==> forall r :: r in rows && r.owner == owner && r.Current() ==> r == o.row
      ensures o.Upserted? && o.row.venueLimit.Some? ==> LiveVenues(database.venues, owner) <= o.row.venueLimit.value
    {
      UpsertDoes(periodEnd, rows, owner, plan, cycle, LiveVenues(database.venues, owner), id, now);
      if !ValidInput(plan, cycle) {
        return InvalidInput;
      }
      var limit := LimitForPlan(plan);
      var venueCount := LiveVenues(database.venues, owner);
      if limit.Some? && venueCount > limit.value {
        return Conflict;
      }
      UpsertKeepsOneCurrent(periodEnd, rows, owner, plan, cycle, venueCount, id, now);
      var before := rows;
      rows := Cancel(rows, owner, now);
      if exists i :: 0 <= i < |rows| && rows[i].id == id {
        assert exists i :: 0 <= i < |before| && before[i].id == id by {
          var i :| 0 <= i < |rows| && rows[i].id == id;
          assert before[i].id == id;
        }
        rows := before;  // the deferred rollback
        return Conflict;
      }
      assert forall i :: 0 <= i < |before| ==> before[i].id == rows[i].id;
      var row := NewRow(id, owner, plan, cycle, now, periodEnd);
      rows := rows + [row];
      o := Upserted(row);
    }

    method GetSubscription(owner: string) returns (answer: Option<Row>)
      requires Valid()
      ensures IsSubscription(rows, owner, answer)
    {
      if r :| r in rows && r.owner == owner && r.Current() {
        answer := Some(r);
      } else {
        answer := None;
      }
    }
  }
}
