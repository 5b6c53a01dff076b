/** The two services that write the venues table: venue profiles and floor plans. */
module VenueService {
  import opened Common
  import opened VenueModel
  import Slug

  class Database {
    const env: Env
    var venues: Venues
    ghost var history: seq<VenueModel.Call>

    /** The table is what the calls so far made of it, and meets the CHECK and the unique index on slugs. */
    ghost predicate Valid()
      reads this
    {
      Recorded(history, venues) && SlugsSound(venues)
    }

    ghost predicate Recorded(history: seq<VenueModel.Call>, venues: Venues) {
      venues == Run(env, map[], history)
    }

    constructor (env: Env)
      ensures Valid() && this.env == env && venues == map[] && history == []
    {
      this.env := env;
      venues, history := map[], [];
    }

    lemma StepRecorded(history: seq<VenueModel.Call>, venues: Venues, call: VenueModel.Call)
      requires Recorded(history, venues) && SlugsSound(venues)
      ensures Recorded(history + [call], Step(env, venues, call).0) && SlugsSound(Step(env, venues, call).0)
    {
      RunAppended(env, map[], history, call);
      StepKeepsSlugs(env, venues, call);
    }

    method Create(owner: string, input: Profile, settings: Option<Settings>, token: string, newId: string)
      returns (o: Outcome)
      requires Valid()
      modifies this
      ensures (venues, o) == DoCreate(env, old(venues), owner, input, settings, token, newId)
      ensures CreateEffect(env, old(venues), venues, owner, input, settings, token, newId, o)
      ensures Valid() && history == old(history) + [VenueModel.Call.Create(owner, input, settings, token, newId)]
    {
      CreateDoes(env, venues, owner, input, settings, token, newId);
      StepRecorded(history, venues, VenueModel.Call.Create(owner, input, settings, token, newId));
      history := history + [VenueModel.Call.Create(owner, input, settings, token, newId)];
      var p := Normalize(env, input);
      if !ValidProfile(p) {
        return Failed(InvalidInput);
      }
      var slug := Slug.UniqueSlug(env.lower, p.name, token);
      if slug.None? {
        return Failed(Internal);
      }
      if !Slug.WellFormed(slug.value) || !CurrencyCheck(p.currency) {
        return Failed(InvalidInput);
      }
      if newId in venues || SlugTaken(venues, slug.value) {
        return Failed(Conflict);
      }
      venues := venues[newId := VenueRow(owner, slug.value, p, SettingsOrEmpty(settings), false)];
      o := Done;
    }

    method Update(owner: string, id: string, input: Profile, settings: Option<Settings>) returns (o: Outcome)
      requires Valid()
      modifies this
      ensures (venues, o) == DoUpdate(env, old(venues), owner, id, input, settings)
      ensures UpdateEffect(env, old(venues), venues, owner, id, input, settings, o)
      ensures Valid() && history == old(history) + [VenueModel.Call.Update(owner, id, input, settings)]
    {
      UpdateDoes(env, venues, owner, id, input, settings);
      StepRecorded(history, venues, VenueModel.Call.Update(owner, id, input, settings));
      history := history + [VenueModel.Call.Update(owner, id, input, settings)];
      var p := Normalize(env, input);
      if !ValidProfile(p) {
        return Failed(InvalidInput);
      }
      if id !in venues || venues[id].owner != owner || venues[id].deleted {
        return Failed(NotFound);
      }
      if !CurrencyCheck(p.currency) {
        return Failed(InvalidInput);
      }
      var row := venues[id];
      venues := venues[id := row.(profile := p, settings := Merged(row.settings, SettingsOrEmpty(settings)))];
      o := Done;
    }

    method Delete(owner: string, id: string) returns (o: Outcome)
      requires Valid()
      modifies this
      ensures (venues, o) == DoDelete(old(venues), owner, id)
      ensures DeleteEffect(old(venues), venues, owner, id, o)
      ensures Valid() && history == old(history) + [VenueModel.Call.Delete(owner, id)]
    {
      DeleteDoes(venues, owner, id);
      StepRecorded(history, venues, VenueModel.Call.Delete(owner, id));
      history := history + [VenueModel.Call.Delete(owner, id)];
      if !Owns(venues, owner, id) {
        return Failed(NotFound);
      }
      venues := venues[id := venues[id].(deleted := true, profile := venues[id].profile.(status := "closed"))];
      o := Done;
    }

    method Save(owner: string, id: string, raw: string) returns (o: Outcome)
      requires Valid()
      modifies this
      ensures (venues, o) == DoSavePlan(env, old(venues), owner, id, raw)
      ensures SaveEffect(env, old(venues), venues, owner, id, raw, o)
      ensures Valid() && history == old(history) + [SavePlan(owner, id, raw)]
    {
      SaveDoes(env, venues, owner, id, raw);
      StepRecorded(history, venues, SavePlan(owner, id, raw));
      history := history + [SavePlan(owner, id, raw)];
      if !Owns(venues, owner, id) {
        return Failed(NotFound);
      }
      if raw == "" || !env.isJson(raw) {
        return Failed(InvalidInput);
      }
      var plan := env.toJsonb(raw);
      if plan.None? {
        return Failed(Internal);
      }
      venues := venues[id := venues[id].(settings := venues[id].settings[FLOOR_PLAN := plan.value])];
      o := Done;
    }

    /** The plan of the latest successful save, else the one given at creation, else the empty array. */
    method Get(owner: string, id: string) returns (o: Outcome)
      requires Valid()
      ensures
        var latest := LatestPlan(env, map[], history, id, None);
        o == if !Owns(venues, owner, id) then Failed(NotFound)
             else Plan(if latest.None? then JsonArray([]) else latest.value)
    {
      GetReadsLatestPlan(env, history, owner, id);
      if !Owns(venues, owner, id) {
        return Failed(NotFound);
      }
      o := Plan(PlanOf(venues[id].settings));
    }
  }
}
