/** Merging a freshly loaded model catalog into the models of a provider profile. */
module Catalog {
  import opened Basics
  import opened Text
  import Ontology

  const MAX_CATALOG: nat := 1000
  const MAX_MODEL_ID: nat := 256

  datatype Source = Manual | Discovered | FromCatalog

  datatype ApiMode = ChatCompletions | Responses | CodexNative

  datatype Availability = Availability(nativeInference: bool, coding: bool, reason: Option<string>)

  datatype Model = Model(
    id: string,
    displayName: Option<string>,
    mode: Option<ApiMode>,
    capabilities: Ontology.Value,
    source: Source,
    availability: Option<Availability>)

  /** One entry of a loaded catalog; the id is as it arrived. */
  datatype Entry = Entry(rawId: string, name: Option<string>, availability: Option<Availability>)

  /** The default of an absent capabilities record. */
  const NO_CAPABILITIES: Ontology.Value := Ontology.Obj(map[])

  const MISSING: Availability := Availability(false, false, Some("coding_catalog_missing"))

  predicate EntryOk(e: Entry) {
    !Blank(e.rawId) && |e.rawId| <= MAX_MODEL_ID
  }

  function Find(models: seq<Model>, id: string): (r: Option<Model>)
    ensures r.Some? ==> r.value in models && r.value.id == id
    ensures r.None? ==> forall m | m in models :: m.id != id
  {
    if models == [] then None else if models[0].id == id then Some(models[0]) else Find(models[1..], id)
  }

  function Ids(models: seq<Model>): set<string> {
    set m | m in models :: m.id
  }

  predicate DistinctIds(models: seq<Model>) {
    forall i, j | 0 <= i < j < |models| :: models[i].id != models[j].id
  }

  /** The model a catalog entry stands for, built on the known one if there is one. */
  function FromEntry(e: Entry, known: Option<Model>): Model {
    var id := Strip(e.rawId);
    var name := if e.name.Some? then e.name else Some(id);
    match known
    case None => Model(id, name, Some(CodexNative), NO_CAPABILITIES, Discovered, e.availability)
    case Some(m) => m.(displayName := if m.source.Manual? then m.displayName else name,
                       mode := Some(CodexNative), availability := e.availability)
  }

  /** The first entry of each id, in catalog order, after those already found. */
  function Discover(found: seq<Model>, existing: seq<Model>, catalog: seq<Entry>): seq<Model>
    decreases catalog
  {
    if catalog == [] then found
    else
      var id := Strip(catalog[0].rawId);
      if Find(found, id).Some? then Discover(found, existing, catalog[1..])
      else Discover(found + [FromEntry(catalog[0], Find(existing, id))], existing, catalog[1..])
  }

  /** Models the catalog no longer lists stay, marked as missing. */
  function KeepMissing(found: seq<Model>, existing: seq<Model>): seq<Model>
    decreases existing
  {
    if existing == [] then found
    else if Find(found, existing[0].id).Some? then KeepMissing(found, existing[1..])
    else KeepMissing(found + [existing[0].(availability := Some(MISSING))], existing[1..])
  }

  function Merge(catalog: seq<Entry>, existing: seq<Model>, requireModels: bool): Result<seq<Model>> {
    if |catalog| > MAX_CATALOG || (requireModels && catalog == []) then Err(BadValue)
    else if exists i | 0 <= i < |catalog| :: !EntryOk(catalog[i]) then Err(BadValue)
    else Ok(KeepMissing(Discover([], existing, catalog), existing))
  }

  /** `_merge_native_catalog`. */
  method MergeNativeCatalog(catalog: seq<Entry>, existing: seq<Model>, requireModels: bool) returns (r: Result<seq<Model>>)
    ensures r == Merge(catalog, existing, requireModels)
  {
    if |catalog| > MAX_CATALOG || (requireModels && catalog == []) { return Err(BadValue); }
    var discovered: seq<Model> := [];
    ghost var goal := Discover([], existing, catalog);
    assert catalog[0..] == catalog && existing[0..] == existing;
    var i := 0;
    while i < |catalog|
      invariant 0 <= i <= |catalog| && (forall j | 0 <= j < i :: EntryOk(catalog[j]))
      invariant Discover(discovered, existing, catalog[i..]) == goal
    {
      var item := catalog[i];
      assert catalog[i..][1..] == catalog[i + 1..];
      if Blank(item.rawId) || |item.rawId| > MAX_MODEL_ID {
        assert !EntryOk(catalog[i]);
        return Err(BadValue);
      }
      i := i + 1;
      var id := Strip(item.rawId);
      if Find(discovered, id).Some? { continue; }
      discovered := discovered + [FromEntry(item, Find(existing, id))];
    }
    i := 0;
    while i < |existing|
      invariant 0 <= i <= |existing|
      invariant KeepMissing(discovered, existing[i..]) == KeepMissing(goal, existing)
    {
      assert existing[i..][1..] == existing[i + 1..];
      if Find(discovered, existing[i].id).None? {
        discovered := discovered + [existing[i].(availability := Some(MISSING))];
      }
      i := i + 1;
    }
    return Ok(discovered);
  }

  // ---- What a merge keeps ------------------------------------------------------------------------------

  lemma SnocDistinct(models: seq<Model>, m: Model)
    requires DistinctIds(models) && Find(models, m.id).None?
    ensures DistinctIds(models + [m]) && Ids(models + [m]) == Ids(models) + {m.id}
  {
    assert m in models + [m];
  }

  lemma {:induction false} DiscoverIds(found: seq<Model>, existing: seq<Model>, catalog: seq<Entry>)
    requires DistinctIds(found)
    ensures DistinctIds(Discover(found, existing, catalog))
    ensures Ids(Discover(found, existing, catalog)) == Ids(found) + (set e | e in catalog :: Strip(e.rawId))
    decreases catalog
  {
    if catalog != [] {
      var e, rest := catalog[0], catalog[1..];
      var id := Strip(e.rawId);
      assert catalog == [e] + rest;
      if Find(found, id).Some? {
        DiscoverIds(found, existing, rest);
      } else {
        SnocDistinct(found, FromEntry(e, Find(existing, id)));
        DiscoverIds(found + [FromEntry(e, Find(existing, id))], existing, rest);
      }
    }
  }

  lemma {:induction false} KeepMissingIds(found: seq<Model>, existing: seq<Model>)
    requires DistinctIds(found)
    ensures DistinctIds(KeepMissing(found, existing))
    ensures Ids(KeepMissing(found, existing)) == Ids(found) + Ids(existing)
    ensures found <= KeepMissing(found, existing)
    decreases existing
  {
    if existing != [] {
      var m, rest := existing[0], existing[1..];
      assert existing == [m] + rest;
      if Find(found, m.id).Some? {
        KeepMissingIds(found, rest);
      } else {
        var kept := m.(availability := Some(MISSING));
        SnocDistinct(found, kept);
        KeepMissingIds(found + [kept], rest);
      }
    }
  }

  /** A merge drops no model: the ids are those of the catalog and those there were, each once. */
  lemma MergeKeepsModels(catalog: seq<Entry>, existing: seq<Model>, requireModels: bool)
    requires Merge(catalog, existing, requireModels).Ok?
    ensures var r := Merge(catalog, existing, requireModels).value;
            DistinctIds(r) && Ids(r) == Ids(existing) + (set e | e in catalog :: Strip(e.rawId))
  {
    DiscoverIds([], existing, catalog);
    KeepMissingIds(Discover([], existing, catalog), existing);
  }

  /** What is kept of an existing model: everything if it is not listed, and its source and capabilities,
      with a name typed by hand, if it is. */
  lemma MergeKeepsDetails(catalog: seq<Entry>, existing: seq<Model>, requireModels: bool, m: Model)
    requires Merge(catalog, existing, requireModels).Ok? && DistinctIds(existing) && m in existing
    ensures var r := Find(Merge(catalog, existing, requireModels).value, m.id);
            && r.Some? && r.value.source == m.source && r.value.capabilities == m.capabilities
            && (m.source.Manual? ==> r.value.displayName == m.displayName)
            && ((forall e | e in catalog :: Strip(e.rawId) != m.id) ==> r.value == m.(availability := Some(MISSING)))
  {
    MergeKeepsModels(catalog, existing, requireModels);
    var r := Merge(catalog, existing, requireModels).value;
    assert m.id in Ids(r);
    DiscoverDetails([], existing, catalog);
    DiscoverIds([], existing, catalog);
    KeepMissingStands(Discover([], existing, catalog), existing, existing);
    KeepMissingFinds(Discover([], existing, catalog), existing, existing);
  }

  /** A model that stands for the existing one of its id. */
  ghost predicate Stands(r: Model, existing: seq<Model>) {
    forall m | m in existing && m.id == r.id ::
      r.source == m.source && r.capabilities == m.capabilities && (m.source.Manual? ==> r.displayName == m.displayName)
  }

  lemma {:induction false} DiscoverDetails(found: seq<Model>, existing: seq<Model>, catalog: seq<Entry>)
    requires DistinctIds(existing)
    requires forall r | r in found :: Stands(r, existing)
    ensures forall r | r in Discover(found, existing, catalog) :: Stands(r, existing)
    decreases catalog
  {
    if catalog != [] {
      var id := Strip(catalog[0].rawId);
      if Find(found, id).Some? {
        DiscoverDetails(found, existing, catalog[1..]);
      } else {
        var r := FromEntry(catalog[0], Find(existing, id));
        FoundIsTheOne(existing, id);
        assert Stands(r, existing);
        DiscoverDetails(found + [r], existing, catalog[1..]);
      }
    }
  }

  lemma FoundIsTheOne(models: seq<Model>, id: string)
    requires DistinctIds(models)
    ensures forall m | m in models && m.id == id :: Find(models, id) == Some(m)
  {
  }

  lemma {:induction false} KeepMissingStands(found: seq<Model>, existing: seq<Model>, all: seq<Model>)
    requires DistinctIds(all) && forall m | m in existing :: m in all
    requires forall r | r in found :: Stands(r, all)
    ensures forall r | r in KeepMissing(found, existing) :: Stands(r, all)
    decreases existing
  {
    if existing != [] {
      var m, rest := existing[0], existing[1..];
      var kept := m.(availability := Some(MISSING));
      if Find(found, m.id).Some? {
        KeepMissingStands(found, rest, all);
      } else {
        StandsKept(m, kept, all);
        KeepMissingStands(found + [kept], rest, all);
      }
    }
  }

  lemma {:induction false} KeepMissingFinds(found: seq<Model>, existing: seq<Model>, all: seq<Model>)
    requires DistinctIds(all) && (forall m | m in existing :: m in all) && DistinctIds(found)
    ensures forall m | m in existing && m.id !in Ids(found) ::
              Find(KeepMissing(found, existing), m.id) == Some(m.(availability := Some(MISSING)))
    decreases existing
  {
    if existing != [] {
      var m, rest := existing[0], existing[1..];
      var kept := m.(availability := Some(MISSING));
      assert existing == [m] + rest;
      if Find(found, m.id).Some? {
        KeepMissingFinds(found, rest, all);
      } else {
        SnocDistinct(found, kept);
        KeepMissingFinds(found + [kept], rest, all);
        KeepMissingIds(found + [kept], rest);
        FindPrefix(found + [kept], KeepMissing(found + [kept], rest), kept);
        SameIdSameModel(existing, all, m);
      }
    }
  }

  lemma SameIdSameModel(existing: seq<Model>, all: seq<Model>, m: Model)
    requires DistinctIds(all) && (forall k | k in existing :: k in all) && m in all
    ensures forall k | k in existing && k.id == m.id :: k == m
  {
  }

  lemma StandsKept(m: Model, kept: Model, all: seq<Model>)
    requires DistinctIds(all) && m in all && kept == m.(availability := Some(MISSING))
    ensures Stands(kept, all)
  {
  }

  lemma FindPrefix(models: seq<Model>, more: seq<Model>, m: Model)
    requires models <= more && DistinctIds(more) && m in models
    ensures Find(more, m.id) == Some(m)
  {
    FoundIsTheOne(more, m.id);
    assert m in more;
  }

  // ---- Merging twice ---------------------------------------------------------------------------------------

  lemma {:induction false} DiscoverAgain(found: seq<Model>, existing: seq<Model>, merged: seq<Model>, catalog: seq<Entry>)
    requires forall m | m in Discover(found, existing, catalog) :: Find(merged, m.id) == Some(m)
    ensures Discover(found, merged, catalog) == Discover(found, existing, catalog)
    decreases catalog
  {
    if catalog != [] {
      var id := Strip(catalog[0].rawId);
      if Find(found, id).Some? {
        DiscoverAgain(found, existing, merged, catalog[1..]);
      } else {
        var r := FromEntry(catalog[0], Find(existing, id));
        DiscoverExtends(found + [r], existing, catalog[1..]);
        assert r in found + [r];
        assert Find(merged, id) == Some(r);
        DiscoverAgain(found + [r], existing, merged, catalog[1..]);
      }
    }
  }

  lemma {:induction false} DiscoverExtends(found: seq<Model>, existing: seq<Model>, catalog: seq<Entry>)
    ensures found <= Discover(found, existing, catalog)
    decreases catalog
  {
    if catalog != [] {
      var id := Strip(catalog[0].rawId);
      if Find(found, id).Some? {
        DiscoverExtends(found, existing, catalog[1..]);
      } else {
        DiscoverExtends(found + [FromEntry(catalog[0], Find(existing, id))], existing, catalog[1..]);
      }
    }
  }

  lemma {:induction false} MissingAreMarked(found: seq<Model>, existing: seq<Model>)
    requires DistinctIds(found)
    ensures forall i | |found| <= i < |KeepMissing(found, existing)| ::
              KeepMissing(found, existing)[i].availability == Some(MISSING)
    decreases existing
  {
    if existing != [] {
      if Find(found, existing[0].id).Some? {
        MissingAreMarked(found, existing[1..]);
      } else {
        var kept := existing[0].(availability := Some(MISSING));
        SnocDistinct(found, kept);
        KeepMissingIds(found + [kept], existing[1..]);
        MissingAreMarked(found + [kept], existing[1..]);
      }
    }
  }

  lemma {:induction false} KeepAgain(found: seq<Model>, models: seq<Model>)
    requires DistinctIds(models) && found <= models
    requires forall i | |found| <= i < |models| :: models[i].availability == Some(MISSING)
    ensures KeepMissing(found, models[|found|..]) == models
    decreases |models| - |found|
  {
    if |found| < |models| {
      var n := |found|;
      assert models[n..][0] == models[n] && models[n..][1..] == models[n + 1..];
      assert Find(found, models[n].id).None?;
      assert found + [models[n]] == models[..n + 1];
      KeepAgain(models[..n + 1], models);
    }
  }

  lemma {:induction false} SkipFound(found: seq<Model>, models: seq<Model>, k: nat)
    requires k <= |found| && found <= models
    ensures KeepMissing(found, models[k..]) == KeepMissing(found, models[|found|..])
    decreases |found| - k
  {
    if k < |found| {
      assert models[k..][0] == found[k] && models[k..][1..] == models[k + 1..];
      assert Find(found, found[k].id).Some?;
      SkipFound(found, models, k + 1);
    }
  }

  /** Merging the same catalog a second time changes nothing. */
  lemma MergeTwice(catalog: seq<Entry>, existing: seq<Model>, requireModels: bool)
    requires Merge(catalog, existing, requireModels).Ok?
    ensures var r := Merge(catalog, existing, requireModels);
            Merge(catalog, r.value, requireModels) == r
  {
    var d := Discover([], existing, catalog);
    var r := KeepMissing(d, existing);
    DiscoverIds([], existing, catalog);
    KeepMissingIds(d, existing);
    forall m | m in d ensures Find(r, m.id) == Some(m) { FindPrefix(d, r, m); }
    DiscoverAgain([], existing, r, catalog);
    MissingAreMarked(d, existing);
    SkipFound(d, r, 0);
    assert r[0..] == r;
    KeepAgain(d, r);
  }
}
