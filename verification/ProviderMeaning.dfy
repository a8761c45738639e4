/** What each change of the provider store accepts and writes, in plain terms. */
module ProviderMeaning {
  import opened Basics
  import opened Ontology
  import opened Catalog
  import CatalogMeaning
  import opened Providers
  import opened Sync

  // ---- The stored form of a profile ------------------------------------------------------------------

  /** The models of a profile as they are stored: the first of each id, in order, all of them for native
      inference if the profile is native; the other fields stay. */
  ghost predicate StoredAs(p: Profile, q: Profile) {
    && q == p.(models := q.models)
    && (forall i | 0 <= i < |q.models| ::
          var k := CatalogMeaning.PlaceOf(p.models, q.models[i].id);
          && k < |p.models|
          && q.models[i] == if p.preset == NATIVE then p.models[k].(mode := Some(CodexNative)) else p.models[k])
    && (forall i, j | 0 <= i < j < |q.models| ::
          CatalogMeaning.PlaceOf(p.models, q.models[i].id) < CatalogMeaning.PlaceOf(p.models, q.models[j].id))
    && Ids(q.models) == Ids(p.models)
  }

  /** The models found among the first `n` are the first ones of their ids. */
  ghost predicate FirstOnes(models: seq<Model>, n: nat, seen: seq<Model>) {
    && n <= |models|
    && (forall i | 0 <= i < |seen| ::
          var k := CatalogMeaning.PlaceOf(models, seen[i].id); k < n && seen[i] == models[k])
    && (forall i, j | 0 <= i < j < |seen| ::
          CatalogMeaning.PlaceOf(models, seen[i].id) < CatalogMeaning.PlaceOf(models, seen[j].id))
  }

  lemma FirstOnesNext(models: seq<Model>, n: nat, seen: seq<Model>)
    requires n < |models| && FirstOnes(models, n, seen)
    requires Ids(seen) == Ids(models[..n]) && models[n].id !in Ids(seen)
    ensures FirstOnes(models, n + 1, seen + [models[n]])
  {
    CatalogMeaning.PlaceIs(models, models[n].id, n);
    forall j | 0 <= j < n ensures models[j].id in Ids(models[..n]) {
      assert models[..n][j] == models[j] && models[j] in models[..n];
    }
  }

  lemma IdsSnoc(models: seq<Model>, n: nat)
    requires n < |models|
    ensures Ids(models[..n + 1]) == Ids(models[..n]) + {models[n].id}
  {
    assert models[..n + 1] == models[..n] + [models[n]];
  }

  lemma FindIsId(models: seq<Model>, id: string)
    ensures Catalog.Find(models, id).Some? <==> id in Ids(models)
  {
  }

  lemma {:induction false} UniqueFinds(models: seq<Model>, n: nat, seen: seq<Model>)
    requires n <= |models| && FirstOnes(models, n, seen) && Ids(seen) == Ids(models[..n])
    ensures FirstOnes(models, |models|, Unique(models[n..], seen))
    decreases |models| - n
  {
    if n < |models| {
      assert models[n..][0] == models[n] && models[n..][1..] == models[n + 1..];
      IdsSnoc(models, n);
      FindIsId(seen, models[n].id);
      if models[n].id in Ids(seen) {
        UniqueFinds(models, n + 1, seen);
      } else {
        FirstOnesNext(models, n, seen);
        assert Ids(seen + [models[n]]) == Ids(seen) + {models[n].id};
        UniqueFinds(models, n + 1, seen + [models[n]]);
      }
    }
  }

  lemma {:induction false} WithModesMeans(models: seq<Model>, i: nat)
    requires i < |models|
    ensures |WithModes(models)| == |models| && WithModes(models)[i] == models[i].(mode := Some(CodexNative))
  {
    WithModesIds(models);
    if i > 0 { WithModesMeans(models[1..], i - 1); }
  }

  lemma TidyMeans(p: Profile)
    ensures StoredAs(p, Tidy(p))
  {
    assert p.models[0..] == p.models && p.models[..0] == [];
    UniqueFinds(p.models, 0, []);
    TidyIds(p);
    var unique := Unique(p.models, []);
    forall i | 0 <= i < |unique|
      ensures |WithModes(unique)| == |unique| && WithModes(unique)[i] == unique[i].(mode := Some(CodexNative))
    {
      WithModesMeans(unique, i);
    }
    WithModesIds(unique);
  }

  // ---- The changes -----------------------------------------------------------------------------------

  /** A lifecycle event of a profile: its generation goes up by one, and so does the count of native events if
      it is or was native; nothing else about the counters changes. */
  ghost predicate CountsEvent(s: Store, t: Store, id: string, native: bool) {
    && (forall other :: Generation(t, other) == Generation(s, other) + if other == id then 1 else 0)
    && t.native == s.native + if native then 1 else 0
  }

  ghost predicate SameCounters(s: Store, t: Store) {
    t.generations == s.generations && t.native == s.native
  }

  ghost predicate SameSelections(s: Store, t: Store) {
    t.chosen == s.chosen && t.fast == s.fast
  }

  ghost predicate HasProfile(s: Store, id: string) {
    exists p :: p in s.profiles && p.id == id
  }

  /** A new profile needs a new id and is stored at the end. */
  lemma CreateMeans(s: Store, p: Profile)
    ensures Create(s, p).Ok? <==> !HasProfile(s, p.id)
    ensures Create(s, p).Ok? ==>
              var t := Create(s, p).value;
              && |t.profiles| == |s.profiles| + 1 && t.profiles[..|s.profiles|] == s.profiles
              && StoredAs(p, t.profiles[|s.profiles|])
              && SameSelections(s, t) && CountsEvent(s, t, p.id, p.preset == NATIVE)
  {
    TidyMeans(p);
    if Create(s, p).Ok? {
      var t := Create(s, p).value;
      assert t.profiles == s.profiles + [Tidy(p)];
    }
  }

  /** A setting names a model of this profile that `p` no longer has. */
  ghost predicate Orphans(selection: Option<Selection>, before: Profile, p: Profile) {
    && selection.Some? && selection.value.provider == before.id
    && (exists m :: m in before.models && m.id == selection.value.model)
    && forall m | m in p.models :: m.id != selection.value.model
  }

  lemma LosesIsOrphans(selection: Option<Selection>, before: Profile, p: Profile)
    ensures LosesModel(selection, before, p) <==> Orphans(selection, before, p)
  {
  }

  lemma {:induction false} ReplaceMeans(profiles: seq<Profile>, q: Profile, i: nat)
    requires i < |profiles| && profiles[i].id == q.id && DistinctProfiles(profiles)
    ensures Replace(profiles, q) == profiles[i := q]
  {
    if i > 0 {
      assert profiles[0].id != profiles[i].id;
      forall a, b | 0 <= a < b < |profiles[1..]| ensures profiles[1..][a].id != profiles[1..][b].id {
        assert profiles[a + 1].id != profiles[b + 1].id;
      }
      ReplaceMeans(profiles[1..], q, i - 1);
    }
  }

  /** An edit of the i-th profile is refused exactly when a setting would lose its model; it writes that profile
      alone, and counts as a lifecycle event exactly when it brings credentials or changes how the profile
      connects. */
  lemma UpdateMeans(s: Store, p: Profile, withCredentials: bool, i: nat)
    requires DistinctProfiles(s.profiles) && i < |s.profiles| && s.profiles[i].id == p.id
    ensures var before := s.profiles[i];
            Update(s, p, withCredentials).Ok? <==> !Orphans(s.chosen, before, p) && !Orphans(s.fast, before, p)
    ensures Update(s, p, withCredentials).Ok? ==>
              var t, before := Update(s, p, withCredentials).value, s.profiles[i];
              && |t.profiles| == |s.profiles| && StoredAs(p, t.profiles[i])
              && (forall j | 0 <= j < |s.profiles| && j != i :: t.profiles[j] == s.profiles[j])
              && SameSelections(s, t)
              && if withCredentials || p.preset != before.preset || p.enabled != before.enabled
                    || p.connection != before.connection || p.refs != before.refs
                 then CountsEvent(s, t, p.id, p.preset == NATIVE || before.preset == NATIVE)
                 else SameCounters(s, t)
  {
    var before := s.profiles[i];
    FindStored(s.profiles, before);
    LosesIsOrphans(s.chosen, before, p);
    LosesIsOrphans(s.fast, before, p);
    TidyMeans(p);
    ReplaceMeans(s.profiles, Tidy(p), i);
  }

  lemma UpdateUnknown(s: Store, p: Profile, withCredentials: bool)
    requires !HasProfile(s, p.id)
    ensures Update(s, p, withCredentials) == Err(Unregistered)
  {
  }

  lemma {:induction false} WithoutMeans(profiles: seq<Profile>, i: nat)
    requires i < |profiles| && DistinctProfiles(profiles)
    ensures Without(profiles, profiles[i].id) == profiles[..i] + profiles[i + 1..]
  {
    var rest := profiles[1..];
    forall a, b | 0 <= a < b < |rest| ensures rest[a].id != rest[b].id { assert profiles[a + 1].id != profiles[b + 1].id; }
    if i > 0 {
      assert profiles[0].id != profiles[i].id;
      WithoutMeans(rest, i - 1);
      assert profiles[..i] == [profiles[0]] + rest[..i - 1] && profiles[i + 1..] == rest[i..];
    } else {
      forall j | 0 <= j < |rest| ensures rest[j].id != profiles[0].id { assert rest[j] == profiles[j + 1]; }
      WithoutNothing(rest, profiles[0].id);
    }
  }

  lemma {:induction false} WithoutNothing(profiles: seq<Profile>, id: string)
    requires forall j | 0 <= j < |profiles| :: profiles[j].id != id
    ensures Without(profiles, id) == profiles
  {
    if profiles != [] {
      forall j | 0 <= j < |profiles[1..]| ensures profiles[1..][j].id != id { assert profiles[1..][j] == profiles[j + 1]; }
      WithoutNothing(profiles[1..], id);
    }
  }

  /** A profile is deleted unless a setting names it; the others keep their order. */
  lemma DeleteMeans(s: Store, i: nat)
    requires DistinctProfiles(s.profiles) && i < |s.profiles|
    ensures var gone := s.profiles[i];
            && (Delete(s, gone.id).Ok? <==>
                  forall c: Selection | Some(c) == s.chosen || Some(c) == s.fast :: c.provider != gone.id)
            && (Delete(s, gone.id).Ok? ==>
                  var t := Delete(s, gone.id).value;
                  && t.profiles == s.profiles[..i] + s.profiles[i + 1..]
                  && SameSelections(s, t) && CountsEvent(s, t, gone.id, gone.preset == NATIVE))
  {
    FindStored(s.profiles, s.profiles[i]);
    WithoutMeans(s.profiles, i);
  }

  /** The selection can be used: an enabled profile has the model, and a native one supports inference with it
      as far as its availability is known. */
  ghost predicate Usable(s: Store, c: Selection) {
    exists p, m :: p in s.profiles && p.id == c.provider && p.enabled && m in p.models && m.id == c.model &&
      (p.preset == NATIVE ==> m.availability == None || m.availability.value.nativeInference)
  }

  lemma ResolvesMeans(s: Store, c: Selection)
    requires StoreOk(s)
    ensures Resolves(s, Some(c)) <==> Usable(s, c)
  {
    if p, m :| p in s.profiles && p.id == c.provider && p.enabled && m in p.models && m.id == c.model &&
               (p.preset == NATIVE ==> m.availability == None || m.availability.value.nativeInference) {
      FindStored(s.profiles, p);
      FoundIsTheOne(p.models, m.id);
    }
  }

  /** Settings are accepted exactly when what they select can be used, and then both selections are set. */
  lemma SettingsMean(s: Store, chosen: Option<Selection>, fast: Option<Selection>)
    requires StoreOk(s)
    ensures UpdateSettings(s, chosen, fast).Ok? <==>
              (chosen.Some? ==> Usable(s, chosen.value)) && (fast.Some? ==> Usable(s, fast.value))
    ensures UpdateSettings(s, chosen, fast).Ok? ==>
              var t := UpdateSettings(s, chosen, fast).value;
              t.chosen == chosen && t.fast == fast && t.profiles == s.profiles && SameCounters(s, t)
  {
    if chosen.Some? { ResolvesMeans(s, chosen.value); }
    if fast.Some? { ResolvesMeans(s, fast.value); }
  }

  // ---- The end of a sync -----------------------------------------------------------------------------

  /** The i-th profile takes over the catalog: its models are merged with it, and nothing else changes. */
  ghost predicate TakesOver(s: Store, u: Store, catalog: seq<Entry>, i: nat) {
    && i < |s.profiles| == |u.profiles|
    && (forall j | 0 <= j < |s.profiles| && j != i :: u.profiles[j] == s.profiles[j])
    && SameSelections(s, u) && SameCounters(s, u)
    && exists rs :: CatalogMeaning.Merged(catalog, s.profiles[i].models, rs) &&
                    StoredAs(s.profiles[i].(models := rs), u.profiles[i])
  }

  /** A new native connection with the models of the catalog, at the end, under an id not taken. */
  ghost predicate Connects(s: Store, u: Store, catalog: seq<Entry>) {
    var n := |s.profiles|;
    && |u.profiles| == n + 1 && u.profiles[..n] == s.profiles
    && var q := u.profiles[n];
    && !HasProfile(s, q.id) && q.name == "Codex (managed login)" && q.preset == NATIVE && q.enabled
    && q.connection == map[] && q.refs == map[]
    && SameSelections(s, u) && CountsEvent(s, u, q.id, true)
    && exists rs :: CatalogMeaning.Merged(catalog, [], rs) && StoredAs(q.(models := rs), q)
  }

  lemma TakeOver(s: Store, p: Profile, catalog: seq<Entry>, i: nat)
    requires StoreOk(s) && i < |s.profiles| && s.profiles[i] == p
    requires Merge(catalog, p.models, false).Ok?
    requires Update(s, p.(models := Merge(catalog, p.models, false).value), false).Ok?
    ensures TakesOver(s, Update(s, p.(models := Merge(catalog, p.models, false).value), false).value, catalog, i)
  {
    var rs := Merge(catalog, p.models, false).value;
    assert p in s.profiles;
    CatalogMeaning.MergeMeans(catalog, p.models, false);
    UpdateMeans(s, p.(models := rs), false, i);
  }

  lemma Connect(s: Store, id: string, catalog: seq<Entry>)
    requires Merge(catalog, [], true).Ok?
    requires Create(s, NewNative(id, Merge(catalog, [], true).value)).Ok?
    ensures Connects(s, Create(s, NewNative(id, Merge(catalog, [], true).value)).value, catalog)
  {
    var rs := Merge(catalog, [], true).value;
    CatalogMeaning.MergeMeans(catalog, [], true);
    CreateMeans(s, NewNative(id, rs));
    var u := Create(s, NewNative(id, rs)).value;
    var q := u.profiles[|s.profiles|];
    assert StoredAs(NewNative(id, rs), q) && q.(models := rs) == NewNative(id, rs);
  }

  /** What a sync writes when it ends: the profile it began with takes over the catalog; a sync that began with
      none fills the first enabled native profile, or connects a new one if there is no native profile. */
  lemma CommitWrites(s: Store, t: Ticket, catalog: seq<Entry>)
    requires StoreOk(s) && Commit(s, t, catalog).Ok?
    ensures var u := Commit(s, t, catalog).value;
            if t.profile.None? && !HasNative(s.profiles) then Connects(s, u, catalog)
            else exists i: nat :: TakesOver(s, u, catalog, i) && s.profiles[i].enabled &&
                   if t.profile.Some? then s.profiles[i].id == t.profile.value.id
                   else s.profiles[i].preset == NATIVE &&
                        forall j | 0 <= j < i :: s.profiles[j].preset != NATIVE || !s.profiles[j].enabled
  {
    var current := Check(s, t).value;
    if current.Some? {
      CheckedIsStored(s, t);
      var p := current.value;
      var i := if t.profile.Some? then IndexOf(s.profiles, p) else FirstNativeAt(s.profiles);
      TakeOver(s, p, catalog, i);
    } else {
      Connect(s, FreeName(ProfileIds(s.profiles), 1), catalog);
    }
  }

  ghost function IndexOf(profiles: seq<Profile>, p: Profile): (i: nat)
    requires p in profiles
    ensures i < |profiles| && profiles[i] == p
  {
    var i :| 0 <= i < |profiles| && profiles[i] == p;
    i
  }

  ghost function FirstNativeAt(profiles: seq<Profile>): (i: nat)
    requires FirstNative(profiles).Some?
    ensures i < |profiles| && FirstNative(profiles) == Some(profiles[i])
    ensures profiles[i].preset == NATIVE && profiles[i].enabled
    ensures forall j | 0 <= j < i :: profiles[j].preset != NATIVE || !profiles[j].enabled
  {
    if profiles[0].preset == NATIVE && profiles[0].enabled then 0 else 1 + FirstNativeAt(profiles[1..])
  }

  // ---- Names of new connections ----------------------------------------------------------------------

  /** The number a row of digits stands for. */
  ghost function NumberOf(digits: string): int {
    if digits == "" then 0
    else 10 * NumberOf(digits[..|digits| - 1]) + (digits[|digits| - 1] as int - '0' as int)
  }

  lemma {:induction false} DecimalMeans(n: nat)
    ensures NumberOf(Decimal(n)) == n
    ensures |Decimal(n)| > 0 && (n > 0 ==> Decimal(n)[0] != '0')
    ensures forall c | c in Decimal(n) :: '0' <= c <= '9'
  {
    var d := Decimal(n);
    if n >= 10 {
      DecimalMeans(n / 10);
      assert d[..|d| - 1] == Decimal(n / 10);
    } else {
      assert d[..|d| - 1] == "";
    }
  }

  /** A new connection gets the first of ambient-codex, ambient-codex-2, ambient-codex-3, ... that is free. */
  lemma {:induction false} FreeNameIsFirst(taken: set<string>, k: nat) returns (j: nat)
    requires k >= 1
    ensures j >= k && FreeName(taken, k) == NativeName(j) && NativeName(j) !in taken
    ensures forall i | k <= i < j :: NativeName(i) in taken
    ensures NativeName(1) == "ambient-codex" && forall i: nat | i > 1 :: NativeName(i) == "ambient-codex-" + Decimal(i)
    decreases |taken|
  {
    if NativeName(k) !in taken {
      j := k;
    } else {
      j := FreeNameIsFirst(taken - {NativeName(k)}, k + 1);
      NamesDiffer(k, j);
    }
    forall i: nat | i > 1 ensures NativeName(i) == "ambient-codex-" + Decimal(i) {
      assert NATIVE_ID + "-" == "ambient-codex-";
    }
  }
}
