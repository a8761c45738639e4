/** The configuration store and the sync, as code. */
module ProviderStore {
  import opened Basics
  import opened Ontology
  import opened Catalog
  import opened Providers
  import opened Sync

  class LLMConfigStore {
    var profiles: seq<Profile>
    var chosen: Option<Selection>
    var fast: Option<Selection>
    var providerGenerations: map<string, nat>
    var nativeGeneration: nat

    constructor (profiles: seq<Profile>, chosen: Option<Selection>, fast: Option<Selection>)
      ensures Contents() == Store(profiles, chosen, fast, map[], 0)
    {
      this.profiles, this.chosen, this.fast, providerGenerations, nativeGeneration := profiles, chosen, fast, map[], 0;
    }

    ghost function Contents(): Store
      reads this
    {
      Store(profiles, chosen, fast, providerGenerations, nativeGeneration)
    }

    function GenerationOf(id: string): nat
      reads this
    {
      if id in providerGenerations then providerGenerations[id] else 0
    }

    method RecordLifecycle(p: Profile, previous: Option<Profile>)
      modifies this`providerGenerations, this`nativeGeneration
      ensures Contents() == Record(old(Contents()), p, previous)
    {
      providerGenerations := providerGenerations[p.id := GenerationOf(p.id) + 1];
      if p.preset == NATIVE || (previous.Some? && previous.value.preset == NATIVE) {
        nativeGeneration := nativeGeneration + 1;
      }
    }

    method CreateProvider(p: Profile) returns (r: Result<Profile>)
      modifies this
      ensures var spec := Create(old(Contents()), p);
              if spec.Ok? then r == Ok(Tidy(p)) && Contents() == spec.value
              else r == Err(spec.error) && Contents() == old(Contents())
    {
      if Providers.Find(profiles, p.id).Some? { return Err(AlreadyExists); }
      profiles := profiles + [Tidy(p)];
      RecordLifecycle(p, None);
      return Ok(Tidy(p));
    }

    /** The first entry with the id is overwritten in place. */
    method UpdateProvider(p: Profile, withCredentials: bool) returns (r: Result<Profile>)
      modifies this
      ensures var spec := Update(old(Contents()), p, withCredentials);
              if spec.Ok? then r == Ok(Tidy(p)) && Contents() == spec.value
              else r == Err(spec.error) && Contents() == old(Contents())
    {
      var index := 0;
      while index < |profiles| && profiles[index].id != p.id
        invariant 0 <= index <= |profiles| && (forall i | 0 <= i < index :: profiles[i].id != p.id)
      {
        index := index + 1;
      }
      AtIndex(profiles, Tidy(p), index);
      if index == |profiles| { return Err(Unregistered); }
      var previous := profiles[index];
      if LosesModel(chosen, previous, p) || LosesModel(fast, previous, p) { return Err(InUse); }
      profiles := profiles[index := Tidy(p)];
      if withCredentials || !SameLife(previous, p) { RecordLifecycle(p, Some(previous)); }
      return Ok(Tidy(p));
    }

    method DeleteProvider(id: string) returns (r: Result<()>)
      modifies this
      ensures var spec := Delete(old(Contents()), id);
              if spec.Ok? then r.Ok? && Contents() == spec.value
              else r == Err(spec.error) && Contents() == old(Contents())
    {
      if Refers(chosen, id) || Refers(fast, id) { return Err(InUse); }
      var removed := Providers.Find(profiles, id);
      if removed.None? { return Err(Unregistered); }
      profiles := Without(profiles, id);
      RecordLifecycle(removed.value, None);
      return Ok(());
    }

    method ChangeSettings(chosen: Option<Selection>, fast: Option<Selection>) returns (r: Result<()>)
      modifies this`chosen, this`fast
      ensures var spec := UpdateSettings(old(Contents()), chosen, fast);
              if spec.Ok? then r.Ok? && Contents() == spec.value
              else r == Err(spec.error) && Contents() == old(Contents())
    {
      if !Resolves(Store(profiles, this.chosen, this.fast, providerGenerations, nativeGeneration), chosen)
        || !Resolves(Store(profiles, this.chosen, this.fast, providerGenerations, nativeGeneration), fast) {
        return Err(BadValue);
      }
      this.chosen, this.fast := chosen, fast;
      return Ok(());
    }

    /** The enabled native profile; none is an answer only if there is no native profile at all. */
    method FindNative() returns (r: Result<Option<Profile>>)
      ensures r == NativeProfile(Contents())
    {
      var any, i := false, 0;
      assert profiles[0..] == profiles;
      while i < |profiles|
        invariant 0 <= i <= |profiles|
        invariant any <==> exists j | 0 <= j < i :: profiles[j].preset == NATIVE
        invariant FirstNative(profiles) == FirstNative(profiles[i..])
      {
        assert profiles[i..][1..] == profiles[i + 1..];
        if profiles[i].preset == NATIVE {
          if profiles[i].enabled { return Ok(Some(profiles[i])); }
          any := true;
        }
        i := i + 1;
      }
      return if any then Err(Conflict) else Ok(None);
    }

    /** The beginning of `sync_codex_connection`. */
    method BeginSync() returns (r: Result<Ticket>)
      ensures r == Begin(Contents())
    {
      var profile := FindNative();
      if profile.Err? { return Err(profile.error); }
      var generation := if profile.value.Some? then GenerationOf(profile.value.value.id) else 0;
      return Ok(Ticket(profile.value, nativeGeneration, generation));
    }

    method CheckSync(t: Ticket) returns (r: Result<Option<Profile>>)
      ensures r == Check(Contents(), t)
    {
      if t.profile.Some? {
        var current := Providers.Find(profiles, t.profile.value.id);
        if current.None? { return Err(Unregistered); }
        if GenerationOf(t.profile.value.id) != t.generation || !SameLife(current.value, t.profile.value)
          || !current.value.enabled {
          return Err(Conflict);
        }
        return Ok(current);
      }
      r := FindNative();
      if r.Err? { return r; }
      var change := nativeGeneration - t.native;
      if (r.value.None? && change != 0) || (r.value.Some? && change > 1) { return Err(Conflict); }
    }

    /** The loop that looks for a free provider id. */
    method NextNativeId() returns (id: string)
      ensures id == FreeName(ProfileIds(profiles), 1) && id !in ProfileIds(profiles)
    {
      var ids := ProfileIds(profiles);
      ghost var k := FreeNameIsFree(ids, 1);
      ghost var goal, left := FreeName(ids, 1), ids;
      id := NATIVE_ID;
      var suffix := 1;
      while id in ids
        invariant suffix >= 1 && id == NativeName(suffix) && left <= ids
        invariant FreeName(left, suffix) == goal
        invariant forall j: nat | j >= suffix && NativeName(j) in ids :: NativeName(j) in left
        decreases |left|
      {
        forall j: nat | j > suffix ensures NativeName(j) != id { NamesDiffer(suffix, j); }
        left := left - {id};
        suffix := suffix + 1;
        id := NativeName(suffix);
      }
    }

    /** The end of `sync_codex_connection`. */
    method CommitSync(t: Ticket, catalog: seq<Entry>) returns (r: Result<Profile>)
      modifies this
      ensures var spec := Commit(old(Contents()), t, catalog);
              if spec.Ok? then r.Ok? && Contents() == spec.value
              else r == Err(spec.error) && Contents() == old(Contents())
    {
      var checked := MergeNativeCatalog(catalog, [], true);
      if checked.Err? { return Err(checked.error); }
      var current := CheckSync(t);
      if current.Err? { return Err(current.error); }
      if current.value.Some? {
        var merged := MergeNativeCatalog(catalog, current.value.value.models, false);
        if merged.Err? { return Err(merged.error); }
        r := UpdateProvider(current.value.value.(models := merged.value), false);
      } else {
        var id := NextNativeId();
        r := CreateProvider(NewNative(id, checked.value));
      }
    }
  }

  lemma {:induction false} AtIndex(profiles: seq<Profile>, p: Profile, index: nat)
    requires index <= |profiles| && (forall i | 0 <= i < index :: profiles[i].id != p.id)
    requires index < |profiles| ==> profiles[index].id == p.id
    ensures index == |profiles| ==> Providers.Find(profiles, p.id).None?
    ensures index < |profiles| ==>
              Providers.Find(profiles, p.id) == Some(profiles[index]) && Replace(profiles, p) == profiles[index := p]
    decreases profiles
  {
    if index > 0 {
      AtIndex(profiles[1..], p, index - 1);
      if index < |profiles| {
        assert [profiles[0]] + profiles[1..][index - 1 := p] == profiles[index := p];
      }
    }
  }
}
