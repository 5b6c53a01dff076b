/** Venues and their settings document, which the venue service and the floor-plan service both write. */
module VenueModel {
  import opened Common
  import opened Text
  import Slug

  datatype Json =
    | JsonNull
    | JsonBool(b: bool)
    | JsonNumber(literal: string)
    | JsonText(text: string)
    | JsonArray(elements: seq<Json>)
    | JsonObject(fields: map<string, Json>)

  type Settings = map<string, Json>

  const FLOOR_PLAN := "floor_plan"

  /** Go's case tables, json.Valid, and PostgreSQL's cast to jsonb. */
  datatype Env = Env(
    lower: char -> char,
    upper: string -> string,
    isJson: string -> bool,
    toJsonb: string -> Option<Json>)

  datatype Profile = Profile(
    name: string,
    description: string,
    cuisineType: string,
    phone: string,
    email: string,
    address: string,
    city: string,
    postalCode: string,
    countryCode: string,
    timezone: string,
    currency: string,
    status: string)

  datatype VenueRow = VenueRow(owner: string, slug: string, profile: Profile, settings: Settings, deleted: bool)

  type Venues = map<string, VenueRow>

  datatype Fault = NotFound | InvalidInput | Conflict | Internal

  datatype Outcome = Done | Plan(plan: Json) | Failed(fault: Fault)

  datatype Call =
    | Create(owner: string, profile: Profile, settings: Option<Settings>, token: string, newId: string)
    | Update(owner: string, id: string, profile: Profile, settings: Option<Settings>)
    | Delete(owner: string, id: string)
    | SavePlan(owner: string, id: string, raw: string)
    | GetPlan(owner: string, id: string)

  // ----- Input -----

  function Default(text: string, fallback: string): string {
    if text == "" then fallback else text
  }

  function Normalize(env: Env, p: Profile): Profile {
    Profile(
      TrimSpace(p.name), TrimSpace(p.description), TrimSpace(p.cuisineType), TrimSpace(p.phone), TrimSpace(p.email),
      Default(TrimSpace(p.address), "Адрес не указан"), TrimSpace(p.city), TrimSpace(p.postalCode),
      Default(env.upper(TrimSpace(p.countryCode)), "SK"), Default(TrimSpace(p.timezone), "Europe/Bratislava"),
      Default(env.upper(TrimSpace(p.currency)), "EUR"), Default(TrimSpace(p.status), "draft"))
  }

  predicate ValidProfile(p: Profile) {
    && p.name != "" && p.city != "" && ByteLength(p.countryCode) == 2 && ByteLength(p.currency) == 3
    && (p.status == "draft" || p.status == "active" || p.status == "paused" || p.status == "closed")
  }

  function SettingsOrEmpty(settings: Option<Settings>): Settings {
    if settings.None? then map[] else settings.value
  }

  // ----- Statements -----

  predicate Owns(v: Venues, owner: string, id: string) {
    id in v && v[id].owner == owner && !v[id].deleted
  }

  predicate SlugTaken(v: Venues, slug: string) {
    exists id :: id in v && v[id].slug == slug
  }

  /** settings || (input - 'floor_plan') */
  function Merged(stored: Settings, input: Settings): Settings {
    stored + (input - {FLOOR_PLAN})
  }

  function Updated(row: VenueRow, p: Profile, settings: Settings): VenueRow {
    row.(profile := p, settings := Merged(row.settings, settings))
  }

  function Saved(row: VenueRow, plan: Json): VenueRow {
    row.(settings := row.settings[FLOOR_PLAN := plan])
  }

  function PlanOf(settings: Settings): Json {
    if FLOOR_PLAN in settings then settings[FLOOR_PLAN] else JsonArray([])
  }

  // ----- Calls -----

  function DoCreate(env: Env, v: Venues, owner: string, input: Profile, settings: Option<Settings>, token: string, newId: string)
    : (Venues, Outcome)
  {
    var p := Normalize(env, input);
    if !ValidProfile(p) then (v, Failed(InvalidInput))
    else
      match Slug.UniqueSlug(env.lower, p.name, token)
      case None => (v, Failed(Internal))
      case Some(slug) =>
        if !Slug.WellFormed(slug) || !CurrencyCheck(p.currency) then (v, Failed(InvalidInput))
        else if newId in v || SlugTaken(v, slug) then (v, Failed(Conflict))
        else (v[newId := VenueRow(owner, slug, p, SettingsOrEmpty(settings), false)], Done)
  }

  function DoUpdate(env: Env, v: Venues, owner: string, id: string, input: Profile, settings: Option<Settings>)
    : (Venues, Outcome)
  {
    var p := Normalize(env, input);
    if !ValidProfile(p) then (v, Failed(InvalidInput))
    else if !Owns(v, owner, id) then (v, Failed(NotFound))
    else if !CurrencyCheck(p.currency) then (v, Failed(InvalidInput))
    else (v[id := Updated(v[id], p, SettingsOrEmpty(settings))], Done)
  }

  function DoDelete(v: Venues, owner: string, id: string): (Venues, Outcome) {
    if !Owns(v, owner, id) then (v, Failed(NotFound))
    else (v[id := v[id].(deleted := true, profile := v[id].profile.(status := "closed"))], Done)
  }

  function DoSavePlan(env: Env, v: Venues, owner: string, id: string, raw: string): (Venues, Outcome) {
    if !Owns(v, owner, id) then (v, Failed(NotFound))
    else if raw == "" || !env.isJson(raw) then (v, Failed(InvalidInput))
    else
      match env.toJsonb(raw)
      case None => (v, Failed(Internal))
      case Some(plan) => (v[id := Saved(v[id], plan)], Done)
  }

  function DoGetPlan(v: Venues, owner: string, id: string): Outcome {
    if !Owns(v, owner, id) then Failed(NotFound) else Plan(PlanOf(v[id].settings))
  }

  function Step(env: Env, v: Venues, call: Call): (Venues, Outcome) {
    match call
    case Create(owner, profile, settings, token, newId) => DoCreate(env, v, owner, profile, settings, token, newId)
    case Update(owner, id, profile, settings) => DoUpdate(env, v, owner, id, profile, settings)
    case Delete(owner, id) => DoDelete(v, owner, id)
    case SavePlan(owner, id, raw) => DoSavePlan(env, v, owner, id, raw)
    case GetPlan(owner, id) => (v, DoGetPlan(v, owner, id))
  }

  function Run(env: Env, v: Venues, calls: seq<Call>): Venues
    decreases |calls|
  {
    if calls == [] then v else Run(env, Step(env, v, calls[0]).0, calls[1..])
  }

  lemma {:induction false} RunAppended(env: Env, v: Venues, calls: seq<Call>, call: Call)
    ensures Run(env, v, calls + [call]) == Step(env, Run(env, v, calls), call).0
    decreases |calls|
  {
    if calls == [] {
      assert calls + [call] == [call] && [call][1..] == [];
    } else {
      assert (calls + [call])[0] == calls[0] && (calls + [call])[1..] == calls[1..] + [call];
      RunAppended(env, Step(env, v, calls[0]).0, calls[1..], call);
    }
  }

  // ----- Two writers, one document -----

  /** What a venue's document says about the plan after one more call, told from the calls alone. */
  function NextPlan(env: Env, v: Venues, call: Call, id: string, plan: Option<Json>): Option<Json> {
    if Step(env, v, call).1 != Done then plan
    else
      match call
      case Create(_, _, settings, _, newId) => if newId == id then Lookup(SettingsOrEmpty(settings), FLOOR_PLAN) else plan
      case SavePlan(_, saved, raw) => if saved == id then env.toJsonb(raw) else plan
      case _ => plan
  }

  /** The plan of the latest successful save, or else the one the venue was created with. */
  function LatestPlan(env: Env, v: Venues, calls: seq<Call>, id: string, plan: Option<Json>): Option<Json>
    decreases |calls|
  {
    if calls == [] then plan
    else LatestPlan(env, Step(env, v, calls[0]).0, calls[1..], id, NextPlan(env, v, calls[0], id, plan))
  }

  ghost predicate Stores(v: Venues, id: string, plan: Option<Json>) {
    id in v ==> Lookup(v[id].settings, FLOOR_PLAN) == plan
  }

  lemma CreateInsertsOrNothing(
    env: Env, v: Venues, owner: string, input: Profile, settings: Option<Settings>, token: string, newId: string)
    ensures
      var (w, o) := DoCreate(env, v, owner, input, settings, token, newId);
      if o == Done then
        && newId !in v && newId in w && w == v[newId := w[newId]]
        && w[newId].owner == owner && !w[newId].deleted && w[newId].settings == SettingsOrEmpty(settings)
      else w == v
  {
  }

  lemma CreateStores(
    env: Env, v: Venues, owner: string, input: Profile, settings: Option<Settings>, token: string, newId: string,
    id: string, plan: Option<Json>)
    requires Stores(v, id, plan)
    ensures
      Stores(DoCreate(env, v, owner, input, settings, token, newId).0, id,
             NextPlan(env, v, Create(owner, input, settings, token, newId), id, plan))
  {
    CreateInsertsOrNothing(env, v, owner, input, settings, token, newId);
  }

  lemma UpdateStores(
    env: Env, v: Venues, owner: string, updated: string, input: Profile, settings: Option<Settings>,
    id: string, plan: Option<Json>)
    requires Stores(v, id, plan)
    ensures Stores(DoUpdate(env, v, owner, updated, input, settings).0, id, plan)
  {
  }

  lemma StepStores(env: Env, v: Venues, call: Call, id: string, plan: Option<Json>)
    requires Stores(v, id, plan)
    ensures Stores(Step(env, v, call).0, id, NextPlan(env, v, call, id, plan))
  {
    match call
    case Create(owner, profile, settings, token, newId) =>
      CreateStores(env, v, owner, profile, settings, token, newId, id, plan);
    case Update(owner, updated, profile, settings) =>
      UpdateStores(env, v, owner, updated, profile, settings, id, plan);
    case _ =>
  }

  lemma {:induction false} RunStores(env: Env, v: Venues, calls: seq<Call>, id: string, plan: Option<Json>)
    requires Stores(v, id, plan)
    ensures Stores(Run(env, v, calls), id, LatestPlan(env, v, calls, id, plan))
    decreases |calls|
  {
    if calls != [] {
      StepStores(env, v, calls[0], id, plan);
      RunStores(env, Step(env, v, calls[0]).0, calls[1..], id, NextPlan(env, v, calls[0], id, plan));
    }
  }

  /** Over any interleaving the owner reads the last saved plan, else the initial one, else the empty array. */
  lemma GetReadsLatestPlan(env: Env, calls: seq<Call>, owner: string, id: string)
    ensures
      var v := Run(env, map[], calls);
      var latest := LatestPlan(env, map[], calls, id, None);
      DoGetPlan(v, owner, id)
      == if !Owns(v, owner, id) then Failed(NotFound)
         else Plan(if latest.None? then JsonArray([]) else latest.value)
  {
    RunStores(env, map[], calls, id, None);
  }

  /** Each writer keeps to its part: a save to one key, an update to all the others, and neither drops a key. */
  lemma WritersKeepApart(env: Env, v: Venues, owner: string, id: string, raw: string, p: Profile, settings: Option<Settings>)
    requires id in v
    ensures
      var saved := DoSavePlan(env, v, owner, id, raw).0;
      && saved[id] == v[id].(settings := saved[id].settings)
      && v[id].settings.Keys <= saved[id].settings.Keys
      && forall k :: k != FLOOR_PLAN ==> Lookup(saved[id].settings, k) == Lookup(v[id].settings, k)
    ensures
      var updated := DoUpdate(env, v, owner, id, p, settings).0;
      && Lookup(updated[id].settings, FLOOR_PLAN) == Lookup(v[id].settings, FLOOR_PLAN)
      && v[id].settings.Keys <= updated[id].settings.Keys
  {
  }

  lemma MergeAndPlanCommute(stored: Settings, input: Settings, plan: Json)
    ensures Merged(stored, input)[FLOOR_PLAN := plan] == Merged(stored[FLOOR_PLAN := plan], input)
  {
  }

  lemma WritesCommute(v: Venues, id: string, p: Profile, settings: Settings, saved: string, plan: Json)
    requires id in v && saved in v
    ensures
      var u, s := v[id := Updated(v[id], p, settings)], v[saved := Saved(v[saved], plan)];
      u[saved := Saved(u[saved], plan)] == s[id := Updated(s[id], p, settings)]
  {
    MergeAndPlanCommute(v[id].settings, settings, plan);
  }

  /** An update and a save commute, for any owners and venues, and neither affects whether the other succeeds. */
  lemma UpdateAndSaveCommute(
    env: Env, v: Venues, owner: string, id: string, p: Profile, settings: Option<Settings>,
    saver: string, saved: string, raw: string)
    ensures
      var (u, uo) := DoUpdate(env, v, owner, id, p, settings);
      var (s, so) := DoSavePlan(env, v, saver, saved, raw);
      && DoSavePlan(env, u, saver, saved, raw) == (DoUpdate(env, s, owner, id, p, settings).0, so)
      && DoUpdate(env, s, owner, id, p, settings).1 == uo
  {
    if DoUpdate(env, v, owner, id, p, settings).1 == Done && DoSavePlan(env, v, saver, saved, raw).1 == Done {
      WritesCommute(v, id, Normalize(env, p), SettingsOrEmpty(settings), saved, env.toJsonb(raw).value);
    }
  }

  // ----- Creating a venue -----

  /** With everything else in order, creation fails exactly on a token whose cut ends in a dash. */
  lemma CreateNeedsAGoodToken(
    env: Env, v: Venues, owner: string, input: Profile, settings: Option<Settings>, token: string, newId: string)
    requires ValidProfile(Normalize(env, input)) && CurrencyCheck(Normalize(env, input).currency)
    requires Slug.UniqueSlug(env.lower, Normalize(env, input).name, token).Some?
    requires newId !in v && !SlugTaken(v, Slug.UniqueSlug(env.lower, Normalize(env, input).name, token).value)
    ensures
      DoCreate(env, v, owner, input, settings, token, newId).1
      == if Slug.CutEndsInDash(env.lower, token) then Failed(InvalidInput) else Done
  {
    Slug.UniqueSlugMeetsCheck(env.lower, Normalize(env, input).name, token);
    Slug.GrammarIsWellFormed(Slug.UniqueSlug(env.lower, Normalize(env, input).name, token).value);
  }

  ghost predicate SlugsSound(v: Venues) {
    && (forall id :: id in v ==> Slug.InGrammar(v[id].slug))
    && (forall a, b :: a in v && b in v && v[a].slug == v[b].slug ==> a == b)
  }

  lemma NewSlugIsSound(v: Venues, id: string, row: VenueRow)
    requires SlugsSound(v) && id !in v
    requires Slug.WellFormed(row.slug) && !SlugTaken(v, row.slug)
    ensures SlugsSound(v[id := row])
  {
    Slug.GrammarIsWellFormed(row.slug);
  }

  lemma CreateKeepsSlugs(
    env: Env, v: Venues, owner: string, input: Profile, settings: Option<Settings>, token: string, newId: string)
    requires SlugsSound(v)
    ensures SlugsSound(DoCreate(env, v, owner, input, settings, token, newId).0)
  {
    var w := DoCreate(env, v, owner, input, settings, token, newId).0;
    if w != v {
      NewSlugIsSound(v, newId, w[newId]);
    }
  }

  lemma StepKeepsSlugs(env: Env, v: Venues, call: Call)
    requires SlugsSound(v)
    ensures SlugsSound(Step(env, v, call).0)
  {
    match call
    case Create(owner, profile, settings, token, newId) =>
      CreateKeepsSlugs(env, v, owner, profile, settings, token, newId);
    case _ => WritesKeepSlugs(env, v, call);
  }

  lemma WritesKeepSlugs(env: Env, v: Venues, call: Call)
    requires !call.Create?
    ensures Step(env, v, call).0.Keys == v.Keys
    ensures forall id :: id in v ==> Step(env, v, call).0[id].slug == v[id].slug
  {
  }

  // ----- What each write does to the table, and exactly when -----

  /** The text, or the fallback if there is none. */
  predicate Filled(stored: string, text: string, fallback: string) {
    (text != "" ==> stored == text) && (text == "" ==> stored == fallback)
  }

  /** The stored profile is the input, trimmed, with the documented defaults. */
  predicate StoresProfile(env: Env, stored: Profile, input: Profile) {
    && stored.name == TrimSpace(input.name) && stored.description == TrimSpace(input.description)
    && stored.cuisineType == TrimSpace(input.cuisineType) && stored.phone == TrimSpace(input.phone)
    && stored.email == TrimSpace(input.email) && stored.city == TrimSpace(input.city)
    && stored.postalCode == TrimSpace(input.postalCode)
    && Filled(stored.address, TrimSpace(input.address), "Адрес не указан")
    && Filled(stored.countryCode, env.upper(TrimSpace(input.countryCode)), "SK")
    && Filled(stored.timezone, TrimSpace(input.timezone), "Europe/Bratislava")
    && Filled(stored.currency, env.upper(TrimSpace(input.currency)), "EUR")
    && Filled(stored.status, TrimSpace(input.status), "draft")
  }

  predicate AcceptableInput(env: Env, input: Profile) {
    var country, currency := env.upper(TrimSpace(input.countryCode)), env.upper(TrimSpace(input.currency));
    && TrimSpace(input.name) != "" && TrimSpace(input.city) != ""
    && (country == "" || ByteLength(country) == 2) && (currency == "" || ByteLength(currency) == 3)
    && TrimSpace(input.status) in {"", "draft", "active", "paused", "closed"}
  }

  /** Three letters A to Z, or none for the default. */
  predicate CurrencyFits(env: Env, input: Profile) {
    var currency := env.upper(TrimSpace(input.currency));
    currency == "" || (|currency| == 3 && forall i :: 0 <= i < 3 ==> 'A' <= currency[i] <= 'Z')
  }

  predicate OwnedBy(v: Venues, owner: string, id: string) {
    id in v && v[id].owner == owner && v[id].deleted == false
  }

  /** No row but that of `id` is added or changed. */
  ghost predicate OnlyChanges(v: Venues, w: Venues, id: string) {
    id in w && w.Keys == v.Keys + {id} && forall k :: k in v && k != id ==> w[k] == v[k]
  }

  /** One new venue of the owner with that profile, under a slug that meets the CHECK and that no other venue has. */
  ghost predicate Inserts(env: Env, v: Venues, w: Venues, owner: string, id: string, input: Profile, settings: Settings) {
    && id !in v && OnlyChanges(v, w, id) && OwnedBy(w, owner, id)
    && StoresProfile(env, w[id].profile, input) && w[id].settings == settings
    && Slug.InGrammar(w[id].slug) && forall k :: k in v ==> v[k].slug != w[id].slug
  }

  /** The profile is the input; the settings take its keys but that of the plan, and keep the others. */
  ghost predicate Merges(env: Env, v: Venues, w: Venues, id: string, input: Profile, settings: Settings) {
    && OnlyChanges(v, w, id) && id in v && StoresProfile(env, w[id].profile, input)
    && w[id] == v[id].(profile := w[id].profile, settings := w[id].settings)
    && forall k {:trigger Lookup(w[id].settings, k)} ::
         Lookup(w[id].settings, k)
         == if k != "floor_plan" && k in settings then Some(settings[k]) else Lookup(v[id].settings, k)
  }

  /** The plan is what the owner reads from now on, and nothing else of the venue changes. */
  ghost predicate Plans(v: Venues, w: Venues, owner: string, id: string, plan: Json) {
    && OnlyChanges(v, w, id) && id in v && w[id] == v[id].(settings := w[id].settings)
    && DoGetPlan(w, owner, id) == Plan(plan) && Lookup(w[id].settings, "floor_plan") == Some(plan)
    && forall k :: k != "floor_plan" ==> Lookup(w[id].settings, k) == Lookup(v[id].settings, k)
  }

  /** The venue is closed and nobody's from now on. */
  ghost predicate Hides(v: Venues, w: Venues, id: string) {
    && OnlyChanges(v, w, id) && id in v && (forall anyone :: !OwnedBy(w, anyone, id))
    && w[id] == v[id].(deleted := true, profile := v[id].profile.(status := "closed"))
  }

  ghost predicate CreateEffect(
    env: Env, v: Venues, w: Venues, owner: string, input: Profile, settings: Option<Settings>, token: string,
    newId: string, o: Outcome)
  {
    var slug := Slug.UniqueSlug(env.lower, TrimSpace(input.name), token);
    if !AcceptableInput(env, input) then w == v && o == Failed(InvalidInput)
    else if slug.None? then w == v && o == Failed(Internal)
    else if Slug.CutEndsInDash(env.lower, token) || !CurrencyFits(env, input) then w == v && o == Failed(InvalidInput)
    else if newId in v || exists id :: id in v && v[id].slug == slug.value then w == v && o == Failed(Conflict)
    else
      && o == Done && Inserts(env, v, w, owner, newId, input, if settings.None? then map[] else settings.value)
      && w[newId].slug == slug.value
  }

  ghost predicate UpdateEffect(
    env: Env, v: Venues, w: Venues, owner: string, id: string, input: Profile, settings: Option<Settings>, o: Outcome)
  {
    if !AcceptableInput(env, input) then w == v && o == Failed(InvalidInput)
    else if !OwnedBy(v, owner, id) then w == v && o == Failed(NotFound)
    else if !CurrencyFits(env, input) then w == v && o == Failed(InvalidInput)
    else o == Done && Merges(env, v, w, id, input, if settings.None? then map[] else settings.value)
  }

  ghost predicate DeleteEffect(v: Venues, w: Venues, owner: string, id: string, o: Outcome) {
    if OwnedBy(v, owner, id) then o == Done && Hides(v, w, id) else o == Failed(NotFound) && w == v
  }

  /** A save succeeds exactly for the owner, with valid JSON that the database can cast. */
  ghost predicate SaveEffect(env: Env, v: Venues, w: Venues, owner: string, id: string, raw: string, o: Outcome) {
    if !OwnedBy(v, owner, id) then w == v && o == Failed(NotFound)
    else if raw == "" || !env.isJson(raw) then w == v && o == Failed(InvalidInput)
    else if env.toJsonb(raw).None? then w == v && o == Failed(Internal)
    else o == Done && Plans(v, w, owner, id, env.toJsonb(raw).value)
  }

  lemma NormalizedIsStored(env: Env, input: Profile)
    ensures
      var p := Normalize(env, input);
      && StoresProfile(env, p, input)
      && (ValidProfile(p) <==> AcceptableInput(env, input))
      && (CurrencyCheck(p.currency) <==> CurrencyFits(env, input))
  {
    var p := Normalize(env, input);
    assert ByteLength("SK") == 2 && ByteLength("EUR") == 3 by {
      assert "SK"[1..] == "K" && "K"[1..] == "" && "EUR"[1..] == "UR" && "UR"[1..] == "R" && "R"[1..] == "";
    }
    if CurrencyFits(env, input) {
      assert forall c :: c in p.currency ==> 'A' <= c <= 'Z';
    } else if CurrencyCheck(p.currency) {
      assert forall i :: 0 <= i < |p.currency| ==> p.currency[i] in p.currency;
    }
  }

  lemma CreateDoes(
    env: Env, v: Venues, owner: string, input: Profile, settings: Option<Settings>, token: string, newId: string)
    ensures
      var (w, o) := DoCreate(env, v, owner, input, settings, token, newId);
      CreateEffect(env, v, w, owner, input, settings, token, newId, o)
  {
    var p := Normalize(env, input);
    NormalizedIsStored(env, input);
    var slug := Slug.UniqueSlug(env.lower, p.name, token);
    if slug.Some? {
      Slug.UniqueSlugMeetsCheck(env.lower, p.name, token);
      Slug.GrammarIsWellFormed(slug.value);
    }
  }

  lemma MergedAt(stored: Settings, input: Settings, k: string)
    ensures
      Lookup(Merged(stored, input), k) == if k != "floor_plan" && k in input then Some(input[k]) else Lookup(stored, k)
  {
  }

  lemma UpdatedMerges(env: Env, v: Venues, id: string, input: Profile, p: Profile, settings: Settings)
    requires id in v && StoresProfile(env, p, input)
    ensures Merges(env, v, v[id := Updated(v[id], p, settings)], id, input, settings)
  {
    var w := v[id := Updated(v[id], p, settings)];
    forall k
      ensures
        Lookup(w[id].settings, k)
        == if k != "floor_plan" && k in settings then Some(settings[k]) else Lookup(v[id].settings, k)
    {
      MergedAt(v[id].settings, settings, k);
    }
  }

  lemma UpdateDoes(env: Env, v: Venues, owner: string, id: string, input: Profile, settings: Option<Settings>)
    ensures
      var (w, o) := DoUpdate(env, v, owner, id, input, settings);
      UpdateEffect(env, v, w, owner, id, input, settings, o)
  {
    NormalizedIsStored(env, input);
    if id in v {
      UpdatedMerges(env, v, id, input, Normalize(env, input), SettingsOrEmpty(settings));
    }
  }

  lemma DeleteDoes(v: Venues, owner: string, id: string)
    ensures var (w, o) := DoDelete(v, owner, id); DeleteEffect(v, w, owner, id, o)
  {
  }

  lemma SaveDoes(env: Env, v: Venues, owner: string, id: string, raw: string)
    ensures var (w, o) := DoSavePlan(env, v, owner, id, raw); SaveEffect(env, v, w, owner, id, raw, o)
  {
  }

  /** Stored slugs are in the grammar and unique after every run. */
  lemma {:induction false} RunKeepsSlugs(env: Env, v: Venues, calls: seq<Call>)
    requires SlugsSound(v)
    ensures SlugsSound(Run(env, v, calls))
    decreases |calls|
  {
    if calls != [] {
      StepKeepsSlugs(env, v, calls[0]);
      RunKeepsSlugs(env, Step(env, v, calls[0]).0, calls[1..]);
    }
  }
}
