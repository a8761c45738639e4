/** The normalising loops and the service that rewrites the stored layout in place. */
module LayoutService {
  import opened Basics
  import opened Text
  import opened Layout
  import opened LayoutProofs
  import opened LayoutFixpoint

  function Prefixed<T>(front: seq<T>, rest: Result<seq<T>>): Result<seq<T>> {
    if rest.Err? then rest else Ok(front + rest.value)
  }

  lemma PrefixedSnoc<T>(front: seq<T>, x: T, rest: Result<seq<T>>)
    ensures Prefixed(front, Prefixed([x], rest)) == Prefixed(front + [x], rest)
  {
    if rest.Ok? { assert front + ([x] + rest.value) == front + [x] + rest.value; }
  }

  lemma PrefixedEmpty<T>(rest: Result<seq<T>>)
    ensures Prefixed([], rest) == rest
  {
    if rest.Ok? { assert [] + rest.value == rest.value; }
  }

  /** The installed items of one folder, marked as seen one by one. */
  method CollectItems(catalog: seq<string>, seen: set<string>, raw: seq<string>)
    returns (items: Result<seq<string>>, seenItems: set<string>)
    ensures items == KeepItems(catalog, seen, raw)
    ensures items.Ok? ==> seenItems == seen + Elements(items.value)
  {
    var kept: seq<string> := [];
    seenItems := seen;
    var i := 0;
    assert raw[0..] == raw;
    PrefixedEmpty(KeepItems(catalog, seen, raw));
    while i < |raw|
      invariant 0 <= i <= |raw|
      invariant seenItems == seen + Elements(kept)
      invariant KeepItems(catalog, seen, raw) == Prefixed(kept, KeepItems(catalog, seenItems, raw[i..]))
    {
      var id := raw[i];
      assert raw[i..][0] == id && raw[i..][1..] == raw[i + 1..];
      if IsFolderEntry(id) { return Err(BadValue), seenItems; }
      if id in catalog {
        if id in seenItems { return Err(BadValue), seenItems; }
        PrefixedSnoc(kept, id, KeepItems(catalog, seenItems + {id}, raw[i + 1..]));
        seenItems := seenItems + {id};
        kept := kept + [id];
      }
      i := i + 1;
    }
    assert raw[i..] == [] && kept + [] == kept;
    items := Ok(kept);
  }

  lemma {:induction false} SnocItems(folders: seq<Folder>, f: Folder)
    ensures AllItems(folders + [f]) == AllItems(folders) + f.items
  {
    if folders == [] {
      assert [] + [f] == [f];
      AllItemsCons(f, []);
      assert f.items + [] == f.items && [] + f.items == f.items;
    } else {
      assert folders + [f] == [folders[0]] + (folders[1..] + [f]);
      AllItemsCons(folders[0], folders[1..] + [f]);
      SnocItems(folders[1..], f);
      assert folders[0].items + (AllItems(folders[1..]) + f.items) == folders[0].items + AllItems(folders[1..]) + f.items;
    }
  }

  lemma {:induction false} SnocReal(folders: seq<Folder>, f: Folder)
    ensures Real(folders + [f]) == Real(folders) + (if |f.items| >= 2 then [f] else [])
  {
    if folders == [] {
      assert [] + [f] == [f];
      AllItemsCons(f, []);
    } else {
      assert folders + [f] == [folders[0]] + (folders[1..] + [f]);
      AllItemsCons(folders[0], folders[1..] + [f]);
      SnocReal(folders[1..], f);
    }
  }

  /** What one more folder does to the tables of the first loop. */
  lemma AddKept(kept: seq<Folder>, f: Folder)
    ensures Real(kept + [f]) == (if |f.items| >= 2 then Real(kept) + [f] else Real(kept))
    ensures Elements(AllItems(kept + [f])) == Elements(AllItems(kept)) + Elements(f.items)
    ensures EntryMap(kept + [f]) ==
      (if |f.items| >= 2 then EntryMap(kept)[EntryOf(f) := EntryOf(f)]
       else if |f.items| == 1 then EntryMap(kept)[EntryOf(f) := f.items[0]]
       else EntryMap(kept))
  {
    SnocReal(kept, f);
    SnocItems(kept, f);
    assert (kept + [f])[..|kept + [f]| - 1] == kept;
    assert Real(kept) + [] == Real(kept);
  }

  /** A folder with two items stays; one with a single item leaves that item under its entry. */
  method EnterFolder(ghost kept: seq<Folder>, f: Folder, normalized: seq<Folder>, entries: map<string, string>)
    returns (folders: seq<Folder>, table: map<string, string>)
    requires normalized == Real(kept) && entries == EntryMap(kept)
    ensures folders == Real(kept + [f]) && table == EntryMap(kept + [f])
    ensures Elements(AllItems(kept + [f])) == Elements(AllItems(kept)) + Elements(f.items)
  {
    AddKept(kept, f);
    folders, table := normalized, entries;
    if |f.items| >= 2 {
      folders := normalized + [f];
      table := entries[EntryOf(f) := EntryOf(f)];
    } else if |f.items| == 1 {
      table := entries[EntryOf(f) := f.items[0]];
    }
  }

  /** One turn of the loop over the folders, seen from its start. */
  lemma FolderStep(
      catalog: seq<string>, raw: seq<Folder>, i: nat, goal: Result<seq<Folder>>, kept: seq<Folder>,
      seen: set<string>, ids: set<string>)
    requires i < |raw| && goal == Prefixed(kept, KeepFolders(catalog, seen, ids, raw[i..]))
    ensures var id := Strip(raw[i].id);
            var items := KeepItems(catalog, seen, raw[i].items);
            if id == "" || id in ids then goal == Err(BadValue)
            else if items.Err? then goal == Err(items.error)
            else goal == Prefixed(kept + [Folder(id, Cut(raw[i].name), items.value)],
                                  KeepFolders(catalog, seen + Elements(items.value), ids + {id}, raw[i + 1..]))
  {
    assert raw[i..][0] == raw[i] && raw[i..][1..] == raw[i + 1..];
    var id, items := Strip(raw[i].id), KeepItems(catalog, seen, raw[i].items);
    if id != "" && id !in ids && items.Ok? {
      PrefixedSnoc(kept, Folder(id, Cut(raw[i].name), items.value),
                   KeepFolders(catalog, seen + Elements(items.value), ids + {id}, raw[i + 1..]));
    }
  }

  /** The first loop: folders in order, with the two tables the root loop needs. */
  method CollectFolders(catalog: seq<string>, raw: seq<Folder>)
    returns (failure: Option<Error>, normalized: seq<Folder>, entries: map<string, string>, seenItems: set<string>)
    ensures var kept := KeepFolders(catalog, {}, {}, raw);
            if kept.Err? then failure == Some(kept.error)
            else && failure.None?
                 && normalized == Real(kept.value)
                 && entries == EntryMap(kept.value)
                 && seenItems == Elements(AllItems(kept.value))
  {
    failure, normalized, entries, seenItems := None, [], map[], {};
    var seenFolders: set<string> := {};
    ghost var kept: seq<Folder> := [];
    ghost var goal := KeepFolders(catalog, {}, {}, raw);
    var i := 0;
    assert raw[0..] == raw;
    PrefixedEmpty(goal);
    while i < |raw|
      invariant 0 <= i <= |raw|
      invariant failure.None? && normalized == Real(kept) && entries == EntryMap(kept)
      invariant seenItems == Elements(AllItems(kept))
      invariant goal == Prefixed(kept, KeepFolders(catalog, seenItems, seenFolders, raw[i..]))
    {
      FolderStep(catalog, raw, i, goal, kept, seenItems, seenFolders);
      var id := Strip(raw[i].id);
      if id == "" || id in seenFolders { failure := Some(BadValue); return; }
      var items, seen := CollectItems(catalog, seenItems, raw[i].items);
      if items.Err? { failure := Some(items.error); return; }
      var f := Folder(id, Cut(raw[i].name), items.value);
      normalized, entries := EnterFolder(kept, f, normalized, entries);
      seenItems, seenFolders := seen, seenFolders + {id};
      kept := kept + [f];
      i := i + 1;
    }
    assert raw[i..] == [] && kept + [] == kept;
  }

  /** The root loop keeps one table of seen items; placed items and claimed items together are that table. */
  method CollectRoot(entries: map<string, string>, catalog: seq<string>, claimed: set<string>, raw: seq<string>)
    returns (root: seq<string>, seenItems: set<string>)
    ensures root == Place(entries, catalog, claimed, [], raw)
    ensures forall x | x in catalog :: x in seenItems <==> x in claimed || x in root
  {
    root, seenItems := [], claimed;
    var i := 0;
    assert raw[0..] == raw;
    while i < |raw|
      invariant 0 <= i <= |raw|
      invariant forall x | x in catalog :: x in seenItems <==> x in claimed || x in root
      invariant Place(entries, catalog, claimed, [], raw) == Place(entries, catalog, claimed, root, raw[i..])
    {
      var entry := raw[i];
      assert raw[i..][0] == entry && raw[i..][1..] == raw[i + 1..];
      var resolved := if entry in entries then entries[entry] else entry;
      var dissolvedFolderItem := entry in entries && resolved in catalog;
      i := i + 1;
      if IsFolderEntry(resolved) {
        if resolved !in entries { continue; }
      } else if resolved !in catalog {
        continue;
      }
      if resolved in catalog {
        if resolved in seenItems && !dissolvedFolderItem { continue; }
        seenItems := seenItems + {resolved};
      }
      if resolved !in root { root := root + [resolved]; }
    }
    assert raw[i..] == [];
  }

  lemma {:induction false} WithoutSame(catalog: seq<string>, a: set<string>, b: set<string>)
    requires forall x | x in catalog :: x in a <==> x in b
    ensures Without(catalog, a) == Without(catalog, b)
  {
    if catalog != [] { WithoutSame(catalog[1..], a, b); }
  }

  method NormalizeLayout(layout: Layout, catalog: seq<string>) returns (r: Result<Layout>)
    requires Catalog(catalog)
    ensures r == Normalize(layout, catalog)
  {
    var failure, folders, entries, claimed := CollectFolders(catalog, layout.folders);
    if failure.Some? { return Err(failure.value); }
    var root, seenItems := CollectRoot(entries, catalog, claimed, layout.root);
    ghost var placed := root;
    var i := 0;
    assert folders[0..] == folders;
    while i < |folders|
      invariant 0 <= i <= |folders|
      invariant AddFolders(placed, folders) == AddFolders(root, folders[i..])
    {
      assert folders[i..][0] == folders[i] && folders[i..][1..] == folders[i + 1..];
      if EntryOf(folders[i]) !in root { root := root + [EntryOf(folders[i])]; }
      i := i + 1;
    }
    assert folders[i..] == [];
    WithoutSame(catalog, seenItems, claimed + Elements(placed));
    return Ok(Layout(root + Without(catalog, seenItems), folders));
  }

  class AppStoreService {
    var layout: Layout
    var revision: nat

    constructor ()
      ensures Contents() == Stored(Layout([], []), 0) && StoredOk(Contents())
    {
      layout, revision := Layout([], []), 0;
      new;
      assert Catalog([]) && Normal(layout, []);
    }

    ghost function Contents(): Stored
      reads this
    {
      Stored(layout, revision)
    }

    method GetState(catalog: seq<string>) returns (r: Result<Layout>)
      requires Catalog(catalog)
      modifies this`layout
      ensures Contents() == Refreshed(old(Contents()), catalog)
      ensures r == Normalize(old(layout), catalog)
    {
      r := NormalizeLayout(layout, catalog);
      if r.Ok? && r.value != layout { layout := r.value; }
    }

    method SaveLayout(catalog: seq<string>, expected: nat, incoming: Layout) returns (outcome: SaveOutcome)
      requires Catalog(catalog)
      modifies this
      ensures (Contents(), outcome) == Save(old(Contents()), catalog, expected, incoming)
    {
      var current := GetState(catalog);
      if current.Err? { return Malformed; }
      if expected != revision { return RevisionConflict; }
      var normalized := NormalizeLayout(incoming, catalog);
      if normalized.Err? { return Malformed; }
      layout, revision := normalized.value, revision + 1;
      return Saved;
    }

    method RemoveCatalogIds(catalog: seq<string>, ids: set<string>)
      requires Catalog(catalog)
      modifies this
      ensures Contents() == Remove(old(Contents()), catalog, ids)
    {
      var normalized := NormalizeLayout(RemoveIds(layout, ids), catalog);
      if normalized.Ok? { layout, revision := normalized.value, revision + 1; }
    }
  }
}
