/** Normal layouts under a second pass, under deletions, and under concurrent saves. */
module LayoutFixpoint {
  import opened Basics
  import opened Text
  import opened Layout
  import opened LayoutProofs

  /** A stored layout the first loop cannot refuse, whatever is installed. */
  predicate Storable(folders: seq<Folder>) {
    && NoDuplicates(Ids(folders)) && NoDuplicates(AllItems(folders))
    && (forall f | f in folders :: f.id != "" && Stripped(f.id) && |f.name| <= 80)
    && (forall x | x in AllItems(folders) :: !IsFolderEntry(x))
  }

  lemma {:induction false} KeepsGoodItems(catalog: seq<string>, seen: set<string>, raw: seq<string>)
    requires NoDuplicates(raw)
    requires forall x | x in raw :: !IsFolderEntry(x) && x !in seen
    ensures KeepItems(catalog, seen, raw).Ok?
    ensures (forall x | x in raw :: x in catalog) ==> KeepItems(catalog, seen, raw).value == raw
    decreases raw
  {
    if raw != [] {
      NoDuplicatesCons(raw[0], raw[1..]);
      assert [raw[0]] + raw[1..] == raw;
      if raw[0] in catalog {
        KeepsGoodItems(catalog, seen + {raw[0]}, raw[1..]);
      } else {
        KeepsGoodItems(catalog, seen, raw[1..]);
      }
    }
  }

  lemma StorableTail(folders: seq<Folder>)
    requires Storable(folders) && folders != []
    ensures Storable(folders[1..]) && NoDuplicates(folders[0].items)
    ensures folders[0].id !in Ids(folders[1..])
    ensures forall x | x in folders[0].items :: x !in AllItems(folders[1..]) && x in AllItems(folders)
  {
    NoDuplicatesConcat(folders[0].items, AllItems(folders[1..]));
    NoDuplicatesCons(folders[0].id, Ids(folders[1..]));
  }

  /** Storable folders are accepted and keep their ids; if all their items are installed they are kept
      as they are. */
  lemma {:induction false} KeepsStorable(catalog: seq<string>, seen: set<string>, ids: set<string>, folders: seq<Folder>)
    requires Storable(folders)
    requires forall x | x in AllItems(folders) :: x !in seen
    requires forall id | id in Ids(folders) :: id !in ids
    ensures KeepFolders(catalog, seen, ids, folders).Ok?
    ensures Ids(KeepFolders(catalog, seen, ids, folders).value) == Ids(folders)
    ensures (forall x | x in AllItems(folders) :: x in catalog) ==>
              KeepFolders(catalog, seen, ids, folders).value == folders
    decreases folders
  {
    if folders != [] {
      var f, rest := folders[0], folders[1..];
      StorableTail(folders);
      StripStrips(f.id);
      KeepsGoodItems(catalog, seen, f.items);
      var items := KeepItems(catalog, seen, f.items).value;
      KeptItems(catalog, seen, f.items, items);
      assert f.id in Ids(folders);
      KeepsStorable(catalog, seen + Elements(items), ids + {f.id}, rest);
      assert [f] + rest == folders;
    }
  }

  lemma {:induction false} AllReal(folders: seq<Folder>)
    requires forall f | f in folders :: |f.items| >= 2
    ensures Real(folders) == folders
  {
    if folders != [] {
      AllReal(folders[1..]);
      assert [folders[0]] + folders[1..] == folders;
    }
  }

  /** Entries that stand for themselves are placed in order. */
  lemma {:induction false} PlacesAll(
      m: map<string, string>, catalog: seq<string>, claimed: set<string>, root: seq<string>, raw: seq<string>)
    requires NoDuplicates(root + raw)
    requires forall e | e in raw :: Admissible(m, catalog, claimed, e) && Resolve(m, e) == e
    ensures Place(m, catalog, claimed, root, raw) == root + raw
    decreases raw
  {
    if raw == [] {
      assert root + raw == root;
    } else {
      NoDuplicatesConcat(root, raw);
      assert root + raw == root + [raw[0]] + raw[1..];
      PlacesAll(m, catalog, claimed, root + [raw[0]], raw[1..]);
    }
  }

  lemma {:induction false} NothingToAdd(root: seq<string>, folders: seq<Folder>)
    requires forall f | f in folders :: EntryOf(f) in root
    ensures AddFolders(root, folders) == root
    decreases folders
  {
    if folders != [] { NothingToAdd(root, folders[1..]); }
  }

  lemma {:induction false} ItemsInCatalog(folders: seq<Folder>, catalog: seq<string>)
    requires forall f | f in folders :: GoodFolder(f, catalog)
    ensures forall x | x in AllItems(folders) :: x in catalog
  {
    if folders != [] {
      assert GoodFolder(folders[0], catalog);
      ItemsInCatalog(folders[1..], catalog);
    }
  }

  /** The items a normal layout does not show yet. */
  function Missing(l: Layout, catalog: seq<string>): seq<string> {
    Without(catalog, Elements(AllItems(l.folders)) + Elements(l.root))
  }

  lemma {:induction false} NormalRootStands(l: Layout, catalog: seq<string>)
    requires Catalog(catalog) && Normal(l, catalog)
    ensures Place(EntryMap(l.folders), catalog, Elements(AllItems(l.folders)), [], l.root) == l.root
  {
    var m, claimed := EntryMap(l.folders), Elements(AllItems(l.folders));
    EntryMapIsRight(l.folders);
    forall e | e in l.root ensures Admissible(m, catalog, claimed, e) && Resolve(m, e) == e {
      if e in catalog && e !in AllItems(l.folders) {
        forall f ensures EntryOf(f) != e { EntryIsFolderEntry(f); }
        assert e !in m;
      } else {
        var f :| f in l.folders && e == EntryOf(f);
        EntryIsFolderEntry(f);
        assert GoodFolder(f, catalog);
      }
    }
    assert [] + l.root == l.root;
    PlacesAll(m, catalog, claimed, [], l.root);
  }

  /** A pass over a normal layout changes nothing but to append what is missing. */
  lemma NormalPass(l: Layout, catalog: seq<string>)
    requires Catalog(catalog) && Normal(l, catalog)
    ensures Normalize(l, catalog) == Ok(Layout(l.root + Missing(l, catalog), l.folders))
  {
    ItemsInCatalog(l.folders, catalog);
    forall f | f in l.folders ensures |f.items| >= 2 { assert GoodFolder(f, catalog); }
    KeepsStorable(catalog, {}, {}, l.folders);
    AllReal(l.folders);
    NormalRootStands(l, catalog);
    NothingToAdd(l.root, l.folders);
  }

  /** Two passes under one catalog reach a fixpoint that shows every installed item. */
  lemma TwoPassesReachFixpoint(l: Layout, catalog: seq<string>)
    requires Catalog(catalog) && Normalize(l, catalog).Ok?
    ensures var once := Normalize(l, catalog).value;
            var twice := Normalize(once, catalog);
            && twice.Ok? && Covers(twice.value, catalog)
            && Normalize(twice.value, catalog) == twice
            && (Covers(once, catalog) ==> twice.value == once)
  {
    var once := Normalize(l, catalog).value;
    NormalizedIsNormal(l, catalog);
    NormalPass(once, catalog);
    var twice := Normalize(once, catalog).value;
    NormalizedIsNormal(once, catalog);
    WithoutIds(catalog, Elements(AllItems(once.folders)) + Elements(once.root));
    forall x | x in catalog ensures Appears(twice, x) {
      if !Appears(once, x) { assert x in Missing(once, catalog); }
    }
    NormalPass(twice, catalog);
    CoveredHasNoMissing(twice, catalog);
    if Covers(once, catalog) { CoveredHasNoMissing(once, catalog); }
  }

  lemma {:induction false} NothingLeft(catalog: seq<string>, ids: set<string>)
    requires forall x | x in catalog :: x in ids
    ensures Without(catalog, ids) == []
  {
    if catalog != [] { NothingLeft(catalog[1..], ids); }
  }

  lemma CoveredHasNoMissing(l: Layout, catalog: seq<string>)
    requires Covers(l, catalog)
    ensures Missing(l, catalog) == [] && l.root + Missing(l, catalog) == l.root
  {
    forall x | x in catalog ensures x in Elements(AllItems(l.folders)) + Elements(l.root) {
      assert Appears(l, x);
    }
    NothingLeft(catalog, Elements(AllItems(l.folders)) + Elements(l.root));
  }

  // ---- Deletion of installed items -------------------------------------------------------------------

  function RemoveFromFolders(folders: seq<Folder>, ids: set<string>): seq<Folder> {
    if folders == [] then []
    else [folders[0].(items := Without(folders[0].items, ids))] + RemoveFromFolders(folders[1..], ids)
  }

  function RemoveIds(l: Layout, ids: set<string>): Layout {
    Layout(Without(l.root, ids), RemoveFromFolders(l.folders, ids))
  }

  lemma {:induction false} RemovalStorable(folders: seq<Folder>, ids: set<string>)
    requires Storable(folders)
    ensures Storable(RemoveFromFolders(folders, ids))
    ensures Ids(RemoveFromFolders(folders, ids)) == Ids(folders)
    ensures forall x | x in AllItems(RemoveFromFolders(folders, ids)) :: x in AllItems(folders)
  {
    if folders != [] {
      var f, rest := folders[0], folders[1..];
      StorableTail(folders);
      RemovalStorable(rest, ids);
      var g, others := f.(items := Without(f.items, ids)), RemoveFromFolders(rest, ids);
      WithoutIds(f.items, ids);
      AllItemsCons(g, others);
      NoDuplicatesConcat(g.items, AllItems(others));
      NoDuplicatesCons(g.id, Ids(others));
    }
  }

  lemma {:induction false} MemberOfIds(folders: seq<Folder>, id: string)
    requires id in Ids(folders)
    ensures exists f :: f in folders && f.id == id
  {
    if id != folders[0].id { MemberOfIds(folders[1..], id); }
  }

  lemma NormalIsStorable(l: Layout, catalog: seq<string>)
    requires Catalog(catalog) && Normal(l, catalog)
    ensures Storable(l.folders)
  {
    ItemsInCatalog(l.folders, catalog);
    forall f | f in l.folders ensures f.id != "" && Stripped(f.id) && |f.name| <= 80 { assert GoodFolder(f, catalog); }
  }

  /** Deleting items from a normal layout loses no other: the pass that follows is accepted and shows
      every item that is installed then. */
  lemma DeletionLosesNothing(l: Layout, catalog: seq<string>, ids: set<string>, after: seq<string>)
    requires Catalog(catalog) && Catalog(after) && Normal(l, catalog)
    requires forall x | x in ids :: !IsFolderEntry(x)
    ensures var r := Normalize(RemoveIds(l, ids), after);
            r.Ok? && Covers(r.value, after) && Normal(r.value, after)
  {
    NormalIsStorable(l, catalog);
    var removed := RemoveIds(l, ids);
    RemovalStorable(l.folders, ids);
    KeepsStorable(after, {}, {}, removed.folders);
    NormalizedIsNormal(removed, after);
    WithoutIds(l.root, ids);
    var kept := KeepFolders(after, {}, {}, removed.folders).value;
    forall f | f in kept ensures EntryOf(f) in removed.root {
      IdOfMember(kept, f);
      MemberOfIds(l.folders, f.id);
      var g :| g in l.folders && g.id == f.id;
      SameEntry(f, g);
      EntryIsFolderEntry(f);
    }
    forall x | x in after ensures Appears(Normalize(removed, after).value, x) {
      MissingExactlyWhenStranded(removed, after, x);
    }
  }

  // ---- The service -----------------------------------------------------------------------------------

  datatype Stored = Stored(layout: Layout, revision: nat)

  datatype SaveOutcome = Saved | RevisionConflict | Malformed

  /** Reading the state rewrites a stored layout that is not normal any more, under the same revision. */
  function Refreshed(st: Stored, catalog: seq<string>): Stored {
    var n := Normalize(st.layout, catalog);
    if n.Ok? then st.(layout := n.value) else st
  }

  function Save(st: Stored, catalog: seq<string>, expected: nat, layout: Layout): (Stored, SaveOutcome) {
    if Normalize(st.layout, catalog).Err? then (st, Malformed)
    else
      var current := Refreshed(st, catalog);
      if expected != current.revision then (current, RevisionConflict)
      else
        var n := Normalize(layout, catalog);
        if n.Err? then (current, Malformed) else (Stored(n.value, current.revision + 1), Saved)
  }

  function Remove(st: Stored, catalog: seq<string>, ids: set<string>): Stored {
    var n := Normalize(RemoveIds(st.layout, ids), catalog);
    if n.Ok? then Stored(n.value, st.revision + 1) else st
  }

  /** The stored layout survives every change of what is installed. */
  ghost predicate StoredOk(st: Stored) {
    exists catalog :: Catalog(catalog) && Normal(st.layout, catalog)
  }

  lemma StoredRefreshes(st: Stored, catalog: seq<string>)
    requires StoredOk(st) && Catalog(catalog)
    ensures Normalize(st.layout, catalog).Ok?
    ensures StoredOk(Refreshed(st, catalog)) && Covers(Refreshed(st, catalog).layout, catalog)
  {
    var before :| Catalog(before) && Normal(st.layout, before);
    DeletionLosesNothing(st.layout, before, {}, catalog);
    RemoveNothing(st.layout);
  }

  lemma {:induction false} WithoutNothing(s: seq<string>)
    ensures Without(s, {}) == s
  {
    if s != [] { WithoutNothing(s[1..]); assert [s[0]] + s[1..] == s; }
  }

  lemma {:induction false} RemoveNothingFromFolders(folders: seq<Folder>)
    ensures RemoveFromFolders(folders, {}) == folders
  {
    if folders != [] {
      RemoveNothingFromFolders(folders[1..]);
      WithoutNothing(folders[0].items);
      assert [folders[0]] + folders[1..] == folders;
    }
  }

  lemma RemoveNothing(l: Layout)
    ensures RemoveIds(l, {}) == l
  {
    WithoutNothing(l.root);
    RemoveNothingFromFolders(l.folders);
  }

  /** A request to the service, with what is installed when it arrives. */
  datatype Request =
    | Read(catalog: seq<string>)
    | SaveLayout(catalog: seq<string>, expected: nat, layout: Layout)
    | RemoveItems(catalog: seq<string>, ids: set<string>)

  function Serve(st: Stored, q: Request): (Stored, bool) {
    match q
    case Read(catalog) => (Refreshed(st, catalog), false)
    case SaveLayout(catalog, expected, layout) =>
      var (next, outcome) := Save(st, catalog, expected, layout); (next, outcome.Saved?)
    case RemoveItems(catalog, ids) => (Remove(st, catalog, ids), false)
  }

  /** How many saves that expected revision `r` committed. */
  function Commits(st: Stored, requests: seq<Request>, r: nat): nat
    decreases requests
  {
    if requests == [] then 0
    else
      var q := requests[0];
      var (next, saved) := Serve(st, q);
      (if saved && q.SaveLayout? && q.expected == r then 1 else 0) + Commits(next, requests[1..], r)
  }

  predicate Proper(q: Request) {
    Catalog(q.catalog) && (q.RemoveItems? ==> forall x | x in q.ids :: !IsFolderEntry(x))
  }

  lemma ServeKeeps(st: Stored, q: Request)
    requires StoredOk(st) && Proper(q)
    ensures StoredOk(Serve(st, q).0)
    ensures Serve(st, q).0.revision >= st.revision
    ensures Serve(st, q).1 ==> q.SaveLayout? && q.expected == st.revision && Serve(st, q).0.revision == st.revision + 1
    ensures q.RemoveItems? ==> Serve(st, q).0.revision == st.revision + 1
  {
    StoredRefreshes(st, q.catalog);
    match q
    case Read(_) =>
    case SaveLayout(catalog, expected, layout) =>
      if Normalize(layout, catalog).Ok? { NormalizedIsNormal(layout, catalog); }
    case RemoveItems(catalog, ids) =>
      var before :| Catalog(before) && Normal(st.layout, before);
      DeletionLosesNothing(st.layout, before, ids, catalog);
  }

  /** Over any run of reads, saves and deletions, at most one save commits per revision, and none for a
      revision that is already past. */
  lemma {:induction false} OneCommitPerRevision(st: Stored, requests: seq<Request>, r: nat)
    requires StoredOk(st)
    requires forall q | q in requests :: Proper(q)
    ensures Commits(st, requests, r) <= (if st.revision <= r then 1 else 0)
    decreases requests
  {
    if requests != [] {
      assert Proper(requests[0]);
      ServeKeeps(st, requests[0]);
      OneCommitPerRevision(Serve(st, requests[0]).0, requests[1..], r);
    }
  }

  ghost predicate SomeAcceptable(layouts: seq<Layout>, catalog: seq<string>) {
    exists i | 0 <= i < |layouts| :: Normalize(layouts[i], catalog).Ok?
  }

  lemma FirstOrLater(layouts: seq<Layout>, catalog: seq<string>)
    requires layouts != []
    ensures SomeAcceptable(layouts, catalog) <==>
            Normalize(layouts[0], catalog).Ok? || SomeAcceptable(layouts[1..], catalog)
  {
    if i :| 1 <= i < |layouts| && Normalize(layouts[i], catalog).Ok? { assert layouts[1..][i - 1] == layouts[i]; }
  }

  /** Of several saves from the current revision exactly one commits, provided one is acceptable. */
  lemma {:induction false} ExactlyOneSaveWins(st: Stored, catalog: seq<string>, layouts: seq<Layout>)
    requires StoredOk(st) && Catalog(catalog)
    ensures Commits(st, SavesFrom(catalog, st.revision, layouts), st.revision) ==
            if SomeAcceptable(layouts, catalog) then 1 else 0
    decreases layouts
  {
    var requests := SavesFrom(catalog, st.revision, layouts);
    if layouts != [] {
      assert requests[1..] == SavesFrom(catalog, st.revision, layouts[1..]);
      ServeKeeps(st, requests[0]);
      StoredRefreshes(st, catalog);
      FirstOrLater(layouts, catalog);
      var (next, saved) := Serve(st, requests[0]);
      if saved {
        OneCommitPerRevision(next, requests[1..], st.revision);
      } else {
        ExactlyOneSaveWins(next, catalog, layouts[1..]);
      }
    }
  }

  function SavesFrom(catalog: seq<string>, revision: nat, layouts: seq<Layout>): (r: seq<Request>)
    ensures |r| == |layouts|
    ensures forall i | 0 <= i < |r| :: r[i] == SaveLayout(catalog, revision, layouts[i])
  {
    if layouts == [] then []
    else [SaveLayout(catalog, revision, layouts[0])] + SavesFrom(catalog, revision, layouts[1..])
  }
}
