/** Provider profiles, their lifecycle generations, and the sync that fills the native connection. */
module Providers {
  import opened Basics
  import opened Ontology
  import opened Catalog

  const NATIVE := "codex_native"
  const NATIVE_ID := "ambient-codex"

  datatype Profile = Profile(
    id: string,
    name: string,
    preset: string,
    enabled: bool,
    connection: Props,
    refs: map<string, string>,
    models: seq<Model>)

  datatype Selection = Selection(provider: string, model: string)

  /** The persisted profiles and settings, and the counters the process keeps beside them. */
  datatype Store = Store(
    profiles: seq<Profile>,
    chosen: Option<Selection>,
    fast: Option<Selection>,
    generations: map<string, nat>,
    native: nat)

  function Find(profiles: seq<Profile>, id: string): (r: Option<Profile>)
    ensures r.Some? ==> r.value in profiles && r.value.id == id
    ensures r.None? ==> forall p | p in profiles :: p.id != id
  {
    if profiles == [] then None else if profiles[0].id == id then Some(profiles[0]) else Find(profiles[1..], id)
  }

  function Generation(s: Store, id: string): nat {
    if id in s.generations then s.generations[id] else 0
  }

  /** `_record_provider_lifecycle`. */
  function Record(s: Store, p: Profile, previous: Option<Profile>): Store {
    var native := p.preset == NATIVE || (previous.Some? && previous.value.preset == NATIVE);
    s.(generations := s.generations[p.id := Generation(s, p.id) + 1], native := s.native + if native then 1 else 0)
  }

  /** The first model of each id. */
  function Unique(models: seq<Model>, seen: seq<Model>): seq<Model>
    decreases models
  {
    if models == [] then seen
    else if Catalog.Find(seen, models[0].id).Some? then Unique(models[1..], seen)
    else Unique(models[1..], seen + [models[0]])
  }

  /** A native profile carries no connection and no credentials; `ProviderProfile` refuses any other. */
  predicate ProfileOk(p: Profile) {
    p.preset == NATIVE ==> p.connection == map[] && p.refs == map[]
  }

  function WithModes(models: seq<Model>): seq<Model> {
    if models == [] then [] else [models[0].(mode := Some(CodexNative))] + WithModes(models[1..])
  }

  /** `_apply_defaults_and_validate`, as far as it changes a valid profile. */
  function Tidy(p: Profile): Profile {
    var unique := Unique(p.models, []);
    p.(models := if p.preset == NATIVE then WithModes(unique) else unique)
  }

  function Create(s: Store, p: Profile): Result<Store> {
    if Find(s.profiles, p.id).Some? then Err(AlreadyExists)
    else Ok(Record(s.(profiles := s.profiles + [Tidy(p)]), p, None))
  }

  function Replace(profiles: seq<Profile>, p: Profile): (r: seq<Profile>)
    ensures |r| == |profiles|
  {
    if profiles == [] then []
    else if profiles[0].id == p.id then [p] + profiles[1..]
    else [profiles[0]] + Replace(profiles[1..], p)
  }

  predicate Refers(selection: Option<Selection>, id: string) {
    selection.Some? && selection.value.provider == id
  }

  /** A selection names a model that the profile would lose. */
  predicate LosesModel(selection: Option<Selection>, before: Profile, after: Profile) {
    && Refers(selection, before.id)
    && selection.value.model in Ids(before.models) && selection.value.model !in Ids(after.models)
  }

  /** The fields whose change is a lifecycle event. */
  predicate SameLife(p: Profile, q: Profile) {
    p.preset == q.preset && p.enabled == q.enabled && p.connection == q.connection && p.refs == q.refs
  }

  function Update(s: Store, p: Profile, withCredentials: bool): Result<Store> {
    var previous := Find(s.profiles, p.id);
    if previous.None? then Err(Unregistered)
    else if LosesModel(s.chosen, previous.value, p) || LosesModel(s.fast, previous.value, p) then Err(InUse)
    else
      var t := s.(profiles := Replace(s.profiles, Tidy(p)));
      Ok(if withCredentials || !SameLife(previous.value, p) then Record(t, p, previous) else t)
  }

  function Without(profiles: seq<Profile>, id: string): seq<Profile> {
    if profiles == [] then []
    else if profiles[0].id == id then Without(profiles[1..], id)
    else [profiles[0]] + Without(profiles[1..], id)
  }

  function Delete(s: Store, id: string): Result<Store> {
    if Refers(s.chosen, id) || Refers(s.fast, id) then Err(InUse)
    else
      var removed := Find(s.profiles, id);
      if removed.None? then Err(Unregistered)
      else Ok(Record(s.(profiles := Without(s.profiles, id)), removed.value, None))
  }

  /** `resolve`: an enabled profile with the model, which native inference must support. */
  predicate Resolves(s: Store, selection: Option<Selection>) {
    selection.Some? ==>
      var p := Find(s.profiles, selection.value.provider);
      && p.Some? && p.value.enabled
      && var m := Catalog.Find(p.value.models, selection.value.model);
      && m.Some?
      && (p.value.preset == NATIVE && m.value.availability.Some? ==> m.value.availability.value.nativeInference)
  }

  function UpdateSettings(s: Store, chosen: Option<Selection>, fast: Option<Selection>): Result<Store> {
    if Resolves(s, chosen) && Resolves(s, fast) then Ok(s.(chosen := chosen, fast := fast)) else Err(BadValue)
  }

  // ---- The sync ----------------------------------------------------------------------------------------

  function FirstNative(profiles: seq<Profile>): Option<Profile> {
    if profiles == [] then None
    else if profiles[0].preset == NATIVE && profiles[0].enabled then Some(profiles[0])
    else FirstNative(profiles[1..])
  }

  predicate HasNative(profiles: seq<Profile>) {
    exists i | 0 <= i < |profiles| :: profiles[i].preset == NATIVE
  }

  /** `_native_profile`. */
  function NativeProfile(s: Store): Result<Option<Profile>> {
    var first := FirstNative(s.profiles);
    if HasNative(s.profiles) && first.None? then Err(Conflict) else Ok(first)
  }

  /** What a sync remembers while it awaits the login and the catalog. */
  datatype Ticket = Ticket(profile: Option<Profile>, native: nat, generation: nat)

  function Begin(s: Store): Result<Ticket> {
    var profile := NativeProfile(s);
    if profile.Err? then Err(profile.error)
    else Ok(Ticket(profile.value, s.native, if profile.value.Some? then Generation(s, profile.value.value.id) else 0))
  }

  /** The profile the sync may write to, if the connection did not change; None asks for a new one. */
  function Check(s: Store, t: Ticket): Result<Option<Profile>> {
    if t.profile.Some? then
      var current := Find(s.profiles, t.profile.value.id);
      if current.None? then Err(Unregistered)
      else if Generation(s, t.profile.value.id) != t.generation || !SameLife(current.value, t.profile.value)
              || !current.value.enabled then Err(Conflict)
      else Ok(current)
    else
      var current := NativeProfile(s);
      if current.Err? then Err(current.error)
      else
        var change := s.native - t.native;
        if (current.value.None? && change != 0) || (current.value.Some? && change > 1) then Err(Conflict)
        else current
  }

  function Decimal(n: nat): string {
    var digit := ['0' + (n % 10) as char];
    if n < 10 then digit else Decimal(n / 10) + digit
  }

  function NativeName(k: nat): string {
    if k < 2 then NATIVE_ID else NATIVE_ID + "-" + Decimal(k)
  }

  lemma {:induction false} DecimalInjective(a: nat, b: nat)
    requires Decimal(a) == Decimal(b)
    ensures a == b
  {
    assert Decimal(a)[|Decimal(a)| - 1] == '0' + (a % 10) as char;
    assert Decimal(b)[|Decimal(b)| - 1] == '0' + (b % 10) as char;
    if a >= 10 && b >= 10 {
      assert Decimal(a)[..|Decimal(a)| - 1] == Decimal(a / 10);
      assert Decimal(b)[..|Decimal(b)| - 1] == Decimal(b / 10);
      DecimalInjective(a / 10, b / 10);
    }
  }

  lemma NamesDiffer(j: nat, k: nat)
    requires 1 <= j < k
    ensures NativeName(j) != NativeName(k)
  {
    if NativeName(j) == NativeName(k) {
      assert j >= 2;
      assert NativeName(j)[|NATIVE_ID| + 1..] == Decimal(j);
      assert NativeName(k)[|NATIVE_ID| + 1..] == Decimal(k);
      DecimalInjective(j, k);
    }
  }

  /** The first free name from the k-th on; a name that is taken is never met again. */
  function FreeName(taken: set<string>, k: nat): (name: string)
    decreases |taken|
  {
    if NativeName(k) !in taken then NativeName(k) else FreeName(taken - {NativeName(k)}, k + 1)
  }

  function ProfileIds(profiles: seq<Profile>): set<string> {
    set p | p in profiles :: p.id
  }

  function NewNative(id: string, models: seq<Model>): Profile {
    Profile(id, "Codex (managed login)", NATIVE, true, map[], map[], models)
  }

  /** The end of `sync_codex_connection`, which nothing interrupts. */
  function Commit(s: Store, t: Ticket, catalog: seq<Entry>): Result<Store> {
    var checked := Merge(catalog, [], true);
    if checked.Err? then Err(checked.error)
    else
      var current := Check(s, t);
      if current.Err? then Err(current.error)
      else if current.value.Some? then
        var merged := Merge(catalog, current.value.value.models, false);
        if merged.Err? then Err(merged.error)
        else Update(s, current.value.value.(models := merged.value), false)
      else Create(s, NewNative(FreeName(ProfileIds(s.profiles), 1), checked.value))
  }

  lemma {:induction false} FreeNameIsFree(taken: set<string>, k: nat) returns (j: nat)
    requires k >= 1
    ensures j >= k && FreeName(taken, k) == NativeName(j) && FreeName(taken, k) !in taken
    decreases |taken|
  {
    if NativeName(k) !in taken {
      j := k;
    } else {
      j := FreeNameIsFree(taken - {NativeName(k)}, k + 1);
      NamesDiffer(k, j);
    }
  }
}
