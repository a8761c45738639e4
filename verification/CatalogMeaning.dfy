/** What a merged model list holds, entry by entry and in order. */
module CatalogMeaning {
  import opened Basics
  import opened Text
  import opened Catalog

  /** The first entry of a catalog under an id; past the end if there is none. */
  ghost function FirstEntry(catalog: seq<Entry>, id: string): nat {
    if catalog == [] || Strip(catalog[0].rawId) == id then 0 else 1 + FirstEntry(catalog[1..], id)
  }

  ghost function PlaceOf(models: seq<Model>, id: string): nat {
    if models == [] || models[0].id == id then 0 else 1 + PlaceOf(models[1..], id)
  }

  lemma {:induction false} FirstEntryIs(catalog: seq<Entry>, id: string, n: nat)
    ensures FirstEntry(catalog, id) <= |catalog|
    ensures FirstEntry(catalog, id) < |catalog| ==> Strip(catalog[FirstEntry(catalog, id)].rawId) == id
    ensures n < |catalog| && Strip(catalog[n].rawId) == id ==> FirstEntry(catalog, id) <= n
  {
    if catalog != [] && Strip(catalog[0].rawId) != id { FirstEntryIs(catalog[1..], id, if n > 0 then n - 1 else 0); }
  }

  lemma {:induction false} PlaceIs(models: seq<Model>, id: string, n: nat)
    ensures PlaceOf(models, id) <= |models|
    ensures PlaceOf(models, id) < |models| ==> models[PlaceOf(models, id)].id == id
    ensures n < |models| && models[n].id == id ==> PlaceOf(models, id) <= n
  {
    if models != [] && models[0].id != id { PlaceIs(models[1..], id, if n > 0 then n - 1 else 0); }
  }

  /** A listed model shows its first entry: the availability, and the entry's name or else its id unless a name
      was typed by hand; a model known before keeps its source and capabilities, a new one is discovered. */
  ghost predicate ShowsEntry(e: Entry, id: string, existing: seq<Model>, r: Model) {
    && r.id == id && r.availability == e.availability && r.mode == Some(CodexNative)
    && var shown := if e.name.Some? then e.name else Some(id);
    && (forall m | m in existing && m.id == id ::
          && r.source == m.source && r.capabilities == m.capabilities
          && r.displayName == (if m.source.Manual? then m.displayName else shown))
    && ((forall m | m in existing :: m.id != id) ==>
          r.source == Discovered && r.capabilities == NO_CAPABILITIES && r.displayName == shown)
  }

  lemma EntryShown(e: Entry, existing: seq<Model>)
    requires DistinctIds(existing)
    ensures var id := Strip(e.rawId); ShowsEntry(e, id, existing, FromEntry(e, Find(existing, id)))
  {
    FoundIsTheOne(existing, Strip(e.rawId));
  }

  /** A model the catalog does not list is as it was, but marked as missing. */
  ghost predicate Unlisted(existing: seq<Model>, r: Model) {
    && r.availability == Some(Availability(false, false, Some("coding_catalog_missing")))
    && exists m :: m in existing && r == m.(availability := r.availability)
  }

  /** The place a model gets: listed ones first, in catalog order, then the others as they stood. */
  ghost function Rank(catalog: seq<Entry>, existing: seq<Model>, id: string): nat {
    var k := FirstEntry(catalog, id);
    if k < |catalog| then k else |catalog| + PlaceOf(existing, id)
  }

  ghost predicate Shows(catalog: seq<Entry>, existing: seq<Model>, r: Model) {
    var k := FirstEntry(catalog, r.id);
    if k < |catalog| then ShowsEntry(catalog[k], r.id, existing, r) else Unlisted(existing, r)
  }

  ghost predicate Merged(catalog: seq<Entry>, existing: seq<Model>, rs: seq<Model>) {
    && (forall i | 0 <= i < |rs| :: Shows(catalog, existing, rs[i]))
    && (forall i, j | 0 <= i < j < |rs| :: Rank(catalog, existing, rs[i].id) < Rank(catalog, existing, rs[j].id))
  }

  /** Of every id with a rank below `n` its model is there, and no other. */
  ghost predicate HoldsBelow(catalog: seq<Entry>, existing: seq<Model>, rs: seq<Model>, n: nat) {
    forall id {:trigger Rank(catalog, existing, id)} :: Find(rs, id).Some? <==> Rank(catalog, existing, id) < n
  }

  lemma Appended(catalog: seq<Entry>, existing: seq<Model>, rs: seq<Model>, n: nat, r: Model)
    requires Merged(catalog, existing, rs) && HoldsBelow(catalog, existing, rs, n)
    requires Shows(catalog, existing, r) && Rank(catalog, existing, r.id) == n
    requires forall id :: Rank(catalog, existing, id) == n ==> id == r.id
    ensures Merged(catalog, existing, rs + [r]) && HoldsBelow(catalog, existing, rs + [r], n + 1)
  {
    var more := rs + [r];
    forall id ensures Find(more, id).Some? <==> Rank(catalog, existing, id) < n + 1 { FindSnoc(rs, r, id); }
    forall i, j | 0 <= i < j < |more|
      ensures Rank(catalog, existing, more[i].id) < Rank(catalog, existing, more[j].id)
    {
      if j == |rs| { FindMember(rs, i); }
    }
  }

  lemma {:induction false} FindSnoc(rs: seq<Model>, r: Model, id: string)
    ensures Find(rs + [r], id).Some? <==> Find(rs, id).Some? || id == r.id
  {
    if rs == [] {
      assert rs + [r] == [r];
    } else {
      FindSnoc(rs[1..], r, id);
      assert (rs + [r])[1..] == rs[1..] + [r];
    }
  }

  lemma FindMember(rs: seq<Model>, i: nat)
    requires i < |rs|
    ensures Find(rs, rs[i].id).Some?
  {
    assert rs[i] in rs;
  }

  lemma NothingNew(catalog: seq<Entry>, existing: seq<Model>, rs: seq<Model>, n: nat, id: string)
    requires HoldsBelow(catalog, existing, rs, n) && Find(rs, id).Some?
    requires forall other :: Rank(catalog, existing, other) == n ==> other == id
    ensures HoldsBelow(catalog, existing, rs, n + 1)
  {
  }

  lemma EntryRank(catalog: seq<Entry>, existing: seq<Model>, n: nat, id: string)
    requires n < |catalog| && id == Strip(catalog[n].rawId)
    ensures Rank(catalog, existing, id) <= n
    ensures forall other :: Rank(catalog, existing, other) == n ==> other == id
  {
    FirstEntryIs(catalog, id, n);
    forall other ensures Rank(catalog, existing, other) == n ==> other == id { FirstEntryIs(catalog, other, n); }
  }

  lemma ModelRank(catalog: seq<Entry>, existing: seq<Model>, n: nat, id: string)
    requires n < |existing| && id == existing[n].id
    ensures Rank(catalog, existing, id) <= |catalog| + n
    ensures forall other :: Rank(catalog, existing, other) == |catalog| + n ==> other == id
  {
    FirstEntryIs(catalog, id, 0);
    PlaceIs(existing, id, n);
    forall other ensures Rank(catalog, existing, other) == |catalog| + n ==> other == id {
      FirstEntryIs(catalog, other, 0);
      PlaceIs(existing, other, n);
    }
  }

  lemma EntryAppended(found: seq<Model>, existing: seq<Model>, catalog: seq<Entry>, n: nat)
    requires n < |catalog| && DistinctIds(existing) && Find(found, Strip(catalog[n].rawId)).None?
    requires Merged(catalog, existing, found) && HoldsBelow(catalog, existing, found, n)
    ensures var more := found + [FromEntry(catalog[n], Find(existing, Strip(catalog[n].rawId)))];
            Merged(catalog, existing, more) && HoldsBelow(catalog, existing, more, n + 1)
  {
    var id := Strip(catalog[n].rawId);
    var r := FromEntry(catalog[n], Find(existing, id));
    EntryRank(catalog, existing, n, id);
    EntryShown(catalog[n], existing);
    assert Rank(catalog, existing, id) == n;
    assert Shows(catalog, existing, r);
    Appended(catalog, existing, found, n, r);
  }

  lemma ModelAppended(found: seq<Model>, existing: seq<Model>, catalog: seq<Entry>, n: nat)
    requires n < |existing| && Find(found, existing[n].id).None?
    requires Merged(catalog, existing, found) && HoldsBelow(catalog, existing, found, |catalog| + n)
    ensures var more := found + [existing[n].(availability := Some(MISSING))];
            Merged(catalog, existing, more) && HoldsBelow(catalog, existing, more, |catalog| + n + 1)
  {
    var m := existing[n];
    var r := m.(availability := Some(MISSING));
    ModelRank(catalog, existing, n, m.id);
    assert m in existing && Unlisted(existing, r);
    assert Rank(catalog, existing, m.id) == |catalog| + n;
    Appended(catalog, existing, found, |catalog| + n, r);
  }

  function WithEntry(found: seq<Model>, existing: seq<Model>, e: Entry): seq<Model> {
    var id := Strip(e.rawId);
    if Find(found, id).Some? then found else found + [FromEntry(e, Find(existing, id))]
  }

  lemma EntryNext(found: seq<Model>, existing: seq<Model>, catalog: seq<Entry>, n: nat)
    requires n < |catalog| && DistinctIds(existing)
    requires Merged(catalog, existing, found) && HoldsBelow(catalog, existing, found, n)
    ensures var more := WithEntry(found, existing, catalog[n]);
            Merged(catalog, existing, more) && HoldsBelow(catalog, existing, more, n + 1)
  {
    var id := Strip(catalog[n].rawId);
    if Find(found, id).Some? {
      EntryRank(catalog, existing, n, id);
      NothingNew(catalog, existing, found, n, id);
    } else {
      EntryAppended(found, existing, catalog, n);
    }
  }

  lemma DiscoverNext(found: seq<Model>, existing: seq<Model>, catalog: seq<Entry>, n: nat)
    requires n < |catalog|
    ensures Discover(found, existing, catalog[n..]) ==
            Discover(WithEntry(found, existing, catalog[n]), existing, catalog[n + 1..])
  {
    assert catalog[n..][0] == catalog[n] && catalog[n..][1..] == catalog[n + 1..];
  }

  lemma {:induction false} DiscoverFinds(found: seq<Model>, existing: seq<Model>, catalog: seq<Entry>, n: nat)
    requires n <= |catalog| && DistinctIds(existing)
    requires Merged(catalog, existing, found) && HoldsBelow(catalog, existing, found, n)
    ensures var d := Discover(found, existing, catalog[n..]);
            Merged(catalog, existing, d) && HoldsBelow(catalog, existing, d, |catalog|)
    decreases |catalog| - n
  {
    if n < |catalog| {
      EntryNext(found, existing, catalog, n);
      DiscoverNext(found, existing, catalog, n);
      DiscoverFinds(WithEntry(found, existing, catalog[n]), existing, catalog, n + 1);
    } else {
      assert catalog[n..] == [];
    }
  }

  lemma {:induction false} KeepMissingKeeps(found: seq<Model>, existing: seq<Model>, catalog: seq<Entry>, n: nat)
    requires n <= |existing|
    requires Merged(catalog, existing, found) && HoldsBelow(catalog, existing, found, |catalog| + n)
    ensures var rs := KeepMissing(found, existing[n..]);
            Merged(catalog, existing, rs) && HoldsBelow(catalog, existing, rs, |catalog| + |existing|)
    decreases |existing| - n
  {
    if n < |existing| {
      assert existing[n..][0] == existing[n] && existing[n..][1..] == existing[n + 1..];
      var m := existing[n];
      ModelRank(catalog, existing, n, m.id);
      if Find(found, m.id).Some? {
        NothingNew(catalog, existing, found, |catalog| + n, m.id);
        KeepMissingKeeps(found, existing, catalog, n + 1);
      } else {
        ModelAppended(found, existing, catalog, n);
        KeepMissingKeeps(found + [m.(availability := Some(MISSING))], existing, catalog, n + 1);
      }
    }
  }

  /** A catalog is accepted exactly when it has at most 1000 entries, at least one if one is required, and every
      entry has a visible id of at most 256 characters. */
  lemma MergeAccepts(catalog: seq<Entry>, existing: seq<Model>, requireModels: bool)
    ensures Merge(catalog, existing, requireModels).Ok? <==>
            && |catalog| <= 1000 && (requireModels ==> catalog != [])
            && forall e | e in catalog :: !Spaces(e.rawId) && |e.rawId| <= 256
  {
    forall e | e in catalog ensures Blank(e.rawId) <==> Spaces(e.rawId) { BlankIsSpaces(e.rawId); }
  }

  /** The merged list: listed models as their first entries say, in catalog order, then the unlisted ones in
      their old order, marked as missing; nothing is left out. */
  lemma MergeMeans(catalog: seq<Entry>, existing: seq<Model>, requireModels: bool)
    requires Merge(catalog, existing, requireModels).Ok? && DistinctIds(existing)
    ensures var rs := Merge(catalog, existing, requireModels).value;
            Merged(catalog, existing, rs) && HoldsBelow(catalog, existing, rs, |catalog| + |existing|)
  {
    assert catalog[0..] == catalog && existing[0..] == existing;
    DiscoverFinds([], existing, catalog, 0);
    KeepMissingKeeps(Discover([], existing, catalog), existing, catalog, 0);
  }
}
