/** Runs in which syncs and settings edits interleave. */
module Sync {
  import opened Basics
  import opened Ontology
  import opened Catalog
  import opened Providers

  /** The store and the syncs that are between their snapshot and their end. */
  datatype World = World(store: Store, tickets: map<nat, Ticket>)

  datatype Event =
    | AddProfile(profile: Profile)
    | EditProfile(profile: Profile, withCredentials: bool)
    | RemoveProfile(id: string)
    | ChangeSettings(chosen: Option<Selection>, fast: Option<Selection>)
    | BeginSync(sync: nat)
    | CommitSync(sync: nat, catalog: seq<Entry>)
    | AbandonSync(sync: nat)

  /** Profiles arrive validated; a sync begins once and ends once. */
  predicate Possible(w: World, e: Event) {
    match e
    case AddProfile(p) => ProfileOk(p)
    case EditProfile(p, _) => ProfileOk(p)
    case BeginSync(n) => n !in w.tickets
    case CommitSync(n, _) => n in w.tickets
    case AbandonSync(n) => n in w.tickets
    case _ => true
  }

  function Attempt(s: Store, tickets: map<nat, Ticket>, e: Event): Result<Store>
    requires !e.BeginSync? && !e.AbandonSync?
    requires e.CommitSync? ==> e.sync in tickets
  {
    match e
    case AddProfile(p) => Create(s, p)
    case EditProfile(p, withCredentials) => Update(s, p, withCredentials)
    case RemoveProfile(id) => Delete(s, id)
    case ChangeSettings(chosen, fast) => UpdateSettings(s, chosen, fast)
    case CommitSync(n, catalog) => Commit(s, tickets[n], catalog)
  }

  /** A refused event leaves the store as it is. */
  function StoreAfter(w: World, e: Event): Store
    requires Possible(w, e)
  {
    if e.BeginSync? || e.AbandonSync? then w.store
    else
      var r := Attempt(w.store, w.tickets, e);
      if r.Ok? then r.value else w.store
  }

  function TicketsAfter(w: World, e: Event): map<nat, Ticket>
    requires Possible(w, e)
  {
    match e
    case BeginSync(n) => if Begin(w.store).Ok? then w.tickets[n := Begin(w.store).value] else w.tickets
    case CommitSync(n, _) => w.tickets - {n}
    case AbandonSync(n) => w.tickets - {n}
    case _ => w.tickets
  }

  function Step(w: World, e: Event): World
    requires Possible(w, e)
  {
    World(StoreAfter(w, e), TicketsAfter(w, e))
  }

  predicate PossibleRun(w: World, events: seq<Event>)
    decreases events
  {
    events != [] ==> Possible(w, events[0]) && PossibleRun(Step(w, events[0]), events[1..])
  }

  function After(w: World, events: seq<Event>): World
    requires PossibleRun(w, events)
    decreases events
  {
    if events == [] then w else After(Step(w, events[0]), events[1..])
  }

  // ---- What every run keeps ----------------------------------------------------------------------------

  predicate DistinctProfiles(profiles: seq<Profile>) {
    forall i, j | 0 <= i < j < |profiles| :: profiles[i].id != profiles[j].id
  }

  /** A selection names a profile that exists and a model it has. */
  predicate Names(profiles: seq<Profile>, selection: Option<Selection>) {
    selection.Some? ==>
      var p := Providers.Find(profiles, selection.value.provider);
      p.Some? && selection.value.model in Ids(p.value.models)
  }

  ghost predicate StoreOk(s: Store) {
    && DistinctProfiles(s.profiles)
    && (forall p | p in s.profiles :: ProfileOk(p) && DistinctIds(p.models))
    && Names(s.profiles, s.chosen) && Names(s.profiles, s.fast)
  }

  lemma {:induction false} FindAppend(profiles: seq<Profile>, p: Profile, id: string)
    ensures Providers.Find(profiles + [p], id) ==
            if Providers.Find(profiles, id).Some? then Providers.Find(profiles, id)
            else if p.id == id then Some(p) else None
  {
    if profiles == [] {
      assert profiles + [p] == [p];
    } else {
      assert (profiles + [p])[1..] == profiles[1..] + [p];
      FindAppend(profiles[1..], p, id);
    }
  }

  lemma {:induction false} FindReplace(profiles: seq<Profile>, p: Profile, id: string)
    requires Providers.Find(profiles, p.id).Some?
    ensures Providers.Find(Replace(profiles, p), id) == if id == p.id then Some(p) else Providers.Find(profiles, id)
  {
    if profiles[0].id != p.id { FindReplace(profiles[1..], p, id); }
  }

  lemma {:induction false} FindWithout(profiles: seq<Profile>, gone: string, id: string)
    ensures Providers.Find(Without(profiles, gone), id) == if id == gone then None else Providers.Find(profiles, id)
  {
    if profiles != [] { FindWithout(profiles[1..], gone, id); }
  }

  lemma {:induction false} ReplaceKeepsIds(profiles: seq<Profile>, p: Profile)
    ensures forall i | 0 <= i < |profiles| :: Replace(profiles, p)[i].id == profiles[i].id
    ensures forall q | q in Replace(profiles, p) :: q == p || q in profiles
  {
    if profiles != [] { ReplaceKeepsIds(profiles[1..], p); }
  }

  lemma {:induction false} WithoutIsDistinct(profiles: seq<Profile>, id: string)
    requires DistinctProfiles(profiles)
    ensures DistinctProfiles(Without(profiles, id))
    ensures forall q | q in Without(profiles, id) :: q in profiles
  {
    if profiles != [] {
      WithoutIsDistinct(profiles[1..], id);
      forall q | q in profiles[1..] ensures q.id != profiles[0].id {
        var k :| 0 <= k < |profiles[1..]| && profiles[1..][k] == q;
        assert profiles[k + 1] == q;
      }
    }
  }

  lemma {:induction false} UniqueIds(models: seq<Model>, seen: seq<Model>)
    requires DistinctIds(seen)
    ensures DistinctIds(Unique(models, seen)) && Ids(Unique(models, seen)) == Ids(models) + Ids(seen)
    decreases models
  {
    if models != [] {
      assert models == [models[0]] + models[1..];
      if Catalog.Find(seen, models[0].id).Some? {
        UniqueIds(models[1..], seen);
      } else {
        SnocDistinct(seen, models[0]);
        UniqueIds(models[1..], seen + [models[0]]);
      }
    }
  }

  lemma {:induction false} WithModesIds(models: seq<Model>)
    ensures |WithModes(models)| == |models|
    ensures forall i | 0 <= i < |models| :: WithModes(models)[i].id == models[i].id
  {
    if models != [] { WithModesIds(models[1..]); }
  }

  lemma TidyIds(p: Profile)
    ensures DistinctIds(Tidy(p).models) && Ids(Tidy(p).models) == Ids(p.models)
    ensures Tidy(p).id == p.id && SameLife(Tidy(p), p) && (ProfileOk(p) ==> ProfileOk(Tidy(p)))
  {
    UniqueIds(p.models, []);
    var unique := Unique(p.models, []);
    WithModesIds(unique);
    if p.preset == NATIVE {
      forall m | m in unique ensures m.id in Ids(WithModes(unique)) {
        var i :| 0 <= i < |unique| && unique[i] == m;
        assert WithModes(unique)[i] in WithModes(unique);
      }
      assert Ids(WithModes(unique)) == Ids(unique);
    }
  }

  /** The profile an event leaves under an id: what each operation does to one entry of the table. */
  lemma CreateFind(s: Store, p: Profile, id: string)
    requires Create(s, p).Ok?
    ensures Providers.Find(Create(s, p).value.profiles, id) ==
            if id == p.id then Some(Tidy(p)) else Providers.Find(s.profiles, id)
  {
    FindAppend(s.profiles, Tidy(p), id);
    TidyIds(p);
  }

  lemma UpdateFind(s: Store, p: Profile, withCredentials: bool, id: string)
    requires Update(s, p, withCredentials).Ok?
    ensures Providers.Find(Update(s, p, withCredentials).value.profiles, id) ==
            if id == p.id then Some(Tidy(p)) else Providers.Find(s.profiles, id)
  {
    TidyIds(p);
    FindReplace(s.profiles, Tidy(p), id);
  }

  lemma CreateKeeps(s: Store, p: Profile)
    requires StoreOk(s) && ProfileOk(p) && Create(s, p).Ok?
    ensures StoreOk(Create(s, p).value)
  {
    TidyIds(p);
    forall id { CreateFind(s, p, id); }
  }

  /** A replaced table is still in order. */
  lemma ReplaceKeepsTable(profiles: seq<Profile>, p: Profile)
    requires DistinctProfiles(profiles) && ProfileOk(p) && DistinctIds(p.models)
    requires forall q | q in profiles :: ProfileOk(q) && DistinctIds(q.models)
    ensures DistinctProfiles(Replace(profiles, p))
    ensures forall q | q in Replace(profiles, p) :: ProfileOk(q) && DistinctIds(q.models)
  {
    ReplaceKeepsIds(profiles, p);
  }

  lemma UpdateKeepsName(s: Store, p: Profile, withCredentials: bool, selection: Option<Selection>)
    requires Update(s, p, withCredentials).Ok? && Names(s.profiles, selection)
    requires !LosesModel(selection, Providers.Find(s.profiles, p.id).value, p)
    ensures Names(Update(s, p, withCredentials).value.profiles, selection)
  {
    if selection.Some? {
      UpdateFind(s, p, withCredentials, selection.value.provider);
      TidyIds(p);
    }
  }

  lemma UpdateKeeps(s: Store, p: Profile, withCredentials: bool)
    requires StoreOk(s) && ProfileOk(p) && Update(s, p, withCredentials).Ok?
    ensures StoreOk(Update(s, p, withCredentials).value)
  {
    TidyIds(p);
    ReplaceKeepsTable(s.profiles, Tidy(p));
    UpdateKeepsName(s, p, withCredentials, s.chosen);
    UpdateKeepsName(s, p, withCredentials, s.fast);
  }

  lemma DeleteKeeps(s: Store, id: string)
    requires StoreOk(s) && Delete(s, id).Ok?
    ensures StoreOk(Delete(s, id).value)
  {
    WithoutIsDistinct(s.profiles, id);
    if s.chosen.Some? { FindWithout(s.profiles, id, s.chosen.value.provider); }
    if s.fast.Some? { FindWithout(s.profiles, id, s.fast.value.provider); }
  }

  lemma SettingsKeep(s: Store, chosen: Option<Selection>, fast: Option<Selection>)
    requires StoreOk(s) && UpdateSettings(s, chosen, fast).Ok?
    ensures StoreOk(UpdateSettings(s, chosen, fast).value)
  {
  }

  /** The profile a sync writes is the stored one with more models. */
  lemma CommitKeeps(s: Store, t: Ticket, catalog: seq<Entry>)
    requires StoreOk(s) && Commit(s, t, catalog).Ok?
    ensures StoreOk(Commit(s, t, catalog).value)
  {
    var current := Check(s, t);
    if current.value.Some? {
      CheckedIsStored(s, t);
      var p := current.value.value;
      UpdateKeeps(s, p.(models := Merge(catalog, p.models, false).value), false);
    } else {
      CreateKeeps(s, NewNative(FreeName(ProfileIds(s.profiles), 1), Merge(catalog, [], true).value));
    }
  }

  lemma {:induction false} FirstNativeIsOne(profiles: seq<Profile>)
    ensures FirstNative(profiles).Some? ==>
              var p := FirstNative(profiles).value; p in profiles && p.preset == NATIVE && p.enabled
    ensures FirstNative(profiles).None? ==> forall p | p in profiles :: !(p.preset == NATIVE && p.enabled)
  {
    if profiles != [] { FirstNativeIsOne(profiles[1..]); }
  }

  lemma FindStored(profiles: seq<Profile>, p: Profile)
    requires DistinctProfiles(profiles) && p in profiles
    ensures Providers.Find(profiles, p.id) == Some(p)
  {
  }

  lemma CheckedIsStored(s: Store, t: Ticket)
    requires StoreOk(s) && Check(s, t).Ok? && Check(s, t).value.Some?
    ensures var p := Check(s, t).value.value; p in s.profiles && Providers.Find(s.profiles, p.id) == Some(p) && p.enabled
  {
    FirstNativeIsOne(s.profiles);
    FindStored(s.profiles, Check(s, t).value.value);
  }

  /** Every run keeps the profile table in order and the selections resolvable to a stored model. */
  lemma StepKeepsStoreOk(w: World, e: Event)
    requires StoreOk(w.store) && Possible(w, e)
    ensures StoreOk(Step(w, e).store)
  {
    var s := w.store;
    match e {
      case AddProfile(p) => if Create(s, p).Ok? { CreateKeeps(s, p); }
      case EditProfile(p, c) => if Update(s, p, c).Ok? { UpdateKeeps(s, p, c); }
      case RemoveProfile(id) => if Delete(s, id).Ok? { DeleteKeeps(s, id); }
      case ChangeSettings(chosen, fast) => if UpdateSettings(s, chosen, fast).Ok? { SettingsKeep(s, chosen, fast); }
      case CommitSync(n, catalog) => if Commit(s, w.tickets[n], catalog).Ok? { CommitKeeps(s, w.tickets[n], catalog); }
      case _ =>
    }
  }

  lemma {:induction false} RunKeepsStoreOk(w: World, events: seq<Event>)
    requires StoreOk(w.store) && PossibleRun(w, events)
    ensures StoreOk(After(w, events).store)
    decreases events
  {
    if events != [] {
      StepKeepsStoreOk(w, events[0]);
      RunKeepsStoreOk(Step(w, events[0]), events[1..]);
    }
  }
}
