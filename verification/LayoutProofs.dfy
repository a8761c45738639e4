/** What normalisation guarantees about every incoming layout. */
module LayoutProofs {
  import opened Basics
  import opened Text
  import opened Layout

  lemma NoDuplicatesCons<T>(x: T, s: seq<T>)
    ensures NoDuplicates([x] + s) <==> x !in s && NoDuplicates(s)
  {
    var w := [x] + s;
    if NoDuplicates(w) {
      forall i | 0 <= i < |s| ensures s[i] != x { assert w[0] != w[i + 1]; }
      forall i, j | 0 <= i < j < |s| ensures s[i] != s[j] { assert w[i + 1] != w[j + 1]; }
    }
  }

  lemma NoDuplicatesConcat<T>(a: seq<T>, b: seq<T>)
    ensures NoDuplicates(a + b) <==> NoDuplicates(a) && NoDuplicates(b) && forall x | x in a :: x !in b
  {
    var w := a + b;
    if NoDuplicates(w) {
      forall i, j | 0 <= i < j < |a| ensures a[i] != a[j] { assert w[i] != w[j]; }
      forall i, j | 0 <= i < j < |b| ensures b[i] != b[j] { assert w[|a| + i] != w[|a| + j]; }
      forall i, j | 0 <= i < |a| && 0 <= j < |b| ensures a[i] != b[j] { assert w[i] != w[|a| + j]; }
    }
    if NoDuplicates(a) && NoDuplicates(b) && forall x | x in a :: x !in b {
      forall i, j | 0 <= i < j < |w| ensures w[i] != w[j] {
        if i < |a| <= j { assert w[i] == a[i] && a[i] in a && w[j] == b[j - |a|] && b[j - |a|] in b; }
      }
    }
  }

  // ---- Folders ---------------------------------------------------------------------------------------

  lemma {:induction false} KeptItems(catalog: seq<string>, seen: set<string>, raw: seq<string>, items: seq<string>)
    requires KeepItems(catalog, seen, raw) == Ok(items)
    ensures NoDuplicates(items)
    ensures forall x | x in items :: x in catalog && x !in seen && x in raw
    ensures forall x | x in raw && x in catalog :: x in items
    decreases raw
  {
    if raw != [] {
      if raw[0] !in catalog {
        KeptItems(catalog, seen, raw[1..], items);
      } else {
        var rest := KeepItems(catalog, seen + {raw[0]}, raw[1..]).value;
        KeptItems(catalog, seen + {raw[0]}, raw[1..], rest);
        NoDuplicatesCons(raw[0], rest);
      }
    }
  }

  /** A folder as the first loop leaves it. */
  predicate KeptFolder(f: Folder, catalog: seq<string>) {
    f.id != "" && Stripped(f.id) && |f.name| <= 80 && forall x | x in f.items :: x in catalog
  }

  lemma AllItemsCons(f: Folder, rest: seq<Folder>)
    ensures AllItems([f] + rest) == f.items + AllItems(rest)
    ensures Ids([f] + rest) == [f.id] + Ids(rest)
    ensures Real([f] + rest) == (if |f.items| >= 2 then [f] else []) + Real(rest)
  {
    assert ([f] + rest)[1..] == rest;
  }

  lemma {:induction false} KeptFolders(
      catalog: seq<string>, seen: set<string>, ids: set<string>, raw: seq<Folder>, kept: seq<Folder>)
    requires KeepFolders(catalog, seen, ids, raw) == Ok(kept)
    ensures NoDuplicates(AllItems(kept)) && NoDuplicates(Ids(kept))
    ensures forall x | x in AllItems(kept) :: x in catalog && x !in seen
    ensures forall id | id in Ids(kept) :: id !in ids
    ensures forall f | f in kept :: KeptFolder(f, catalog)
    decreases raw
  {
    if raw != [] {
      var id := Strip(raw[0].id);
      StripStrips(raw[0].id);
      var items := KeepItems(catalog, seen, raw[0].items).value;
      KeptItems(catalog, seen, raw[0].items, items);
      var rest := KeepFolders(catalog, seen + Elements(items), ids + {id}, raw[1..]).value;
      KeptFolders(catalog, seen + Elements(items), ids + {id}, raw[1..], rest);
      var f := Folder(id, Cut(raw[0].name), items);
      AllItemsCons(f, rest);
      NoDuplicatesConcat(items, AllItems(rest));
      NoDuplicatesCons(id, Ids(rest));
    }
  }

  lemma {:induction false} ItemsOfMember(folders: seq<Folder>, f: Folder, x: string)
    requires f in folders && x in f.items
    ensures x in AllItems(folders)
  {
    if f != folders[0] { ItemsOfMember(folders[1..], f, x); }
  }

  lemma {:induction false} OwnerOfItem(folders: seq<Folder>, x: string) returns (f: Folder)
    requires x in AllItems(folders)
    ensures f in folders && x in f.items
  {
    if x in folders[0].items { f := folders[0]; } else { f := OwnerOfItem(folders[1..], x); }
  }

  /** With no item twice, an item has one owner. */
  lemma {:induction false} OneOwner(folders: seq<Folder>, f: Folder, g: Folder, x: string)
    requires NoDuplicates(AllItems(folders)) && f in folders && g in folders && x in f.items && x in g.items
    ensures f == g
  {
    var head, rest := folders[0], folders[1..];
    NoDuplicatesConcat(head.items, AllItems(rest));
    if f == head && g != head {
      ItemsOfMember(rest, g, x);
    } else if f != head && g == head {
      ItemsOfMember(rest, f, x);
    } else if f != head {
      OneOwner(rest, f, g, x);
    }
  }

  lemma {:induction false} IdOfMember(folders: seq<Folder>, f: Folder)
    requires f in folders
    ensures f.id in Ids(folders)
  {
    if f != folders[0] { IdOfMember(folders[1..], f); }
  }

  lemma {:induction false} SameId(folders: seq<Folder>, f: Folder, g: Folder)
    requires NoDuplicates(Ids(folders)) && f in folders && g in folders && f.id == g.id
    ensures f == g
  {
    var head, rest := folders[0], folders[1..];
    NoDuplicatesCons(head.id, Ids(rest));
    if f == head && g != head {
      IdOfMember(rest, g);
    } else if f != head && g == head {
      IdOfMember(rest, f);
    } else if f != head {
      SameId(rest, f, g);
    }
  }

  lemma EntryIsFolderEntry(f: Folder)
    ensures IsFolderEntry(EntryOf(f))
  {
  }

  lemma SameEntry(f: Folder, g: Folder)
    ensures EntryOf(f) == EntryOf(g) <==> f.id == g.id
  {
    assert EntryOf(f)[|FOLDER_PREFIX|..] == f.id && EntryOf(g)[|FOLDER_PREFIX|..] == g.id;
  }

  lemma {:induction false} RealFolders(kept: seq<Folder>)
    ensures forall f :: f in Real(kept) <==> f in kept && |f.items| >= 2
    ensures forall x | x in AllItems(Real(kept)) :: x in AllItems(kept)
    ensures forall id | id in Ids(Real(kept)) :: id in Ids(kept)
    ensures NoDuplicates(AllItems(kept)) ==> NoDuplicates(AllItems(Real(kept)))
    ensures NoDuplicates(Ids(kept)) ==> NoDuplicates(Ids(Real(kept)))
  {
    if kept != [] {
      var f, rest := kept[0], kept[1..];
      RealFolders(rest);
      NoDuplicatesConcat(f.items, AllItems(rest));
      NoDuplicatesCons(f.id, Ids(rest));
      if |f.items| >= 2 {
        AllItemsCons(f, Real(rest));
        NoDuplicatesConcat(f.items, AllItems(Real(rest)));
        NoDuplicatesCons(f.id, Ids(Real(rest)));
      } else {
        assert Real(kept) == Real(rest);
      }
    }
  }

  // ---- The entry map ---------------------------------------------------------------------------------

  predicate MapsRightly(m: map<string, string>, folders: seq<Folder>) {
    && (forall f | f in folders && |f.items| >= 1 :: EntryOf(f) in m
          && m[EntryOf(f)] == if |f.items| >= 2 then EntryOf(f) else f.items[0])
    && (forall e | e in m :: exists f :: f in folders && |f.items| >= 1 && e == EntryOf(f))
  }

  lemma {:induction false} IdsSnoc(folders: seq<Folder>, f: Folder)
    ensures Ids(folders + [f]) == Ids(folders) + [f.id]
  {
    if folders != [] {
      assert (folders + [f])[1..] == folders[1..] + [f];
      IdsSnoc(folders[1..], f);
    }
  }

  /** One more folder, under an entry of its own. */
  lemma OneMoreMapped(m: map<string, string>, init: seq<Folder>, last: Folder, more: map<string, string>)
    requires MapsRightly(m, init) && forall f | f in init :: EntryOf(f) != EntryOf(last)
    requires more == if |last.items| >= 2 then m[EntryOf(last) := EntryOf(last)]
                     else if |last.items| == 1 then m[EntryOf(last) := last.items[0]] else m
    ensures MapsRightly(more, init + [last])
  {
    var folders := init + [last];
    forall f | f in folders ensures f in init || f == last {}
    forall e | e in more ensures exists f :: f in folders && |f.items| >= 1 && e == EntryOf(f) {
      if e in m {
        var f :| f in init && |f.items| >= 1 && e == EntryOf(f);
        assert f in folders;
      } else {
        assert last in folders;
      }
    }
  }

  lemma {:induction false} EntryMapIsRight(folders: seq<Folder>)
    requires NoDuplicates(Ids(folders))
    ensures MapsRightly(EntryMap(folders), folders)
  {
    if folders != [] {
      var init, last := folders[..|folders| - 1], folders[|folders| - 1];
      assert folders == init + [last];
      IdsSnoc(init, last);
      NoDuplicatesConcat(Ids(init), [last.id]);
      EntryMapIsRight(init);
      forall f | f in init ensures EntryOf(f) != EntryOf(last) {
        SameEntry(f, last);
        IdOfMember(init, f);
      }
      OneMoreMapped(EntryMap(init), init, last, EntryMap(folders));
    }
  }

  // ---- Placing entries ---------------------------------------------------------------------------------

  lemma {:induction false} Placed(
      m: map<string, string>, catalog: seq<string>, claimed: set<string>, root: seq<string>, raw: seq<string>)
    requires NoDuplicates(root)
    ensures var r := Place(m, catalog, claimed, root, raw);
            && NoDuplicates(r)
            && (forall x | x in root :: x in r)
            && (forall x | x in r :: x in root
                  || exists e :: e in raw && Admissible(m, catalog, claimed, e) && Resolve(m, e) == x)
            && (forall e | e in raw && Admissible(m, catalog, claimed, e) :: Resolve(m, e) in r)
    decreases raw
  {
    if raw != [] {
      var target := Resolve(m, raw[0]);
      if Admissible(m, catalog, claimed, raw[0]) && target !in root {
        NoDuplicatesConcat(root, [target]);
        Placed(m, catalog, claimed, root + [target], raw[1..]);
      } else {
        Placed(m, catalog, claimed, root, raw[1..]);
      }
    }
  }

  lemma {:induction false} FoldersAdded(root: seq<string>, folders: seq<Folder>)
    requires NoDuplicates(root)
    ensures var r := AddFolders(root, folders);
            && NoDuplicates(r)
            && (forall x | x in root :: x in r)
            && (forall x | x in r :: x in root || exists f :: f in folders && x == EntryOf(f))
            && (forall f | f in folders :: EntryOf(f) in r)
    decreases folders
  {
    if folders != [] {
      var e := EntryOf(folders[0]);
      var next := if e in root then root else root + [e];
      NoDuplicatesConcat(root, [e]);
      FoldersAdded(next, folders[1..]);
    }
  }

  lemma {:induction false} WithoutIds(catalog: seq<string>, ids: set<string>)
    ensures forall x :: x in Without(catalog, ids) <==> x in catalog && x !in ids
    ensures NoDuplicates(catalog) ==> NoDuplicates(Without(catalog, ids))
  {
    if catalog != [] {
      WithoutIds(catalog[1..], ids);
      NoDuplicatesCons(catalog[0], catalog[1..]);
      NoDuplicatesCons(catalog[0], Without(catalog[1..], ids));
      assert [catalog[0]] + catalog[1..] == catalog;
    }
  }

  // ---- The main results ------------------------------------------------------------------------------

  /** The parts of one normalisation, with what is known of them. */
  ghost predicate Parts(l: Layout, catalog: seq<string>, kept: seq<Folder>, m: map<string, string>, placed: seq<string>) {
    && KeepFolders(catalog, {}, {}, l.folders) == Ok(kept)
    && m == EntryMap(kept)
    && placed == Place(m, catalog, Elements(AllItems(kept)), [], l.root)
    && NoDuplicates(AllItems(kept)) && NoDuplicates(Ids(kept))
    && (forall x | x in AllItems(kept) :: x in catalog)
    && (forall f | f in kept :: KeptFolder(f, catalog))
    && MapsRightly(m, kept)
  }

  lemma PartsOf(l: Layout, catalog: seq<string>) returns (kept: seq<Folder>, m: map<string, string>, placed: seq<string>)
    requires Normalize(l, catalog).Ok?
    ensures Parts(l, catalog, kept, m, placed)
  {
    kept := KeepFolders(catalog, {}, {}, l.folders).value;
    KeptFolders(catalog, {}, {}, l.folders, kept);
    m := EntryMap(kept);
    EntryMapIsRight(kept);
    placed := Place(m, catalog, Elements(AllItems(kept)), [], l.root);
  }

  /** The item is alone in a folder whose entry the root lists. */
  predicate Dissolved(l: Layout, kept: seq<Folder>, x: string) {
    exists f :: f in kept && f.items == [x] && EntryOf(f) in l.root
  }

  lemma {:induction false} TargetHasReason(
      l: Layout, catalog: seq<string>, kept: seq<Folder>, m: map<string, string>, e: string)
    requires Catalog(catalog) && MapsRightly(m, kept) && forall x | x in AllItems(kept) :: x in catalog
    requires e in l.root && Admissible(m, catalog, Elements(AllItems(kept)), e)
    ensures var x := Resolve(m, e);
            if x in catalog then (x in l.root && x !in AllItems(kept)) || Dissolved(l, kept, x)
            else exists f :: f in kept && |f.items| >= 2 && x == EntryOf(f)
  {
    if e in m {
      var f :| f in kept && |f.items| >= 1 && e == EntryOf(f);
      EntryIsFolderEntry(f);
      if |f.items| == 1 {
        assert f.items == [m[e]];
        ItemsOfMember(kept, f, m[e]);
      }
    } else {
      assert e in catalog && e !in AllItems(kept);
    }
  }

  lemma {:induction false} PlacedHasReason(
      l: Layout, catalog: seq<string>, kept: seq<Folder>, m: map<string, string>, placed: seq<string>, x: string)
    requires Catalog(catalog) && Parts(l, catalog, kept, m, placed) && x in placed
    ensures x in catalog ==> (x in l.root && x !in AllItems(kept)) || Dissolved(l, kept, x)
    ensures x !in catalog ==> exists f :: f in Real(kept) && x == EntryOf(f)
  {
    var claimed := Elements(AllItems(kept));
    Placed(m, catalog, claimed, [], l.root);
    var e :| e in l.root && Admissible(m, catalog, claimed, e) && Resolve(m, e) == x;
    TargetHasReason(l, catalog, kept, m, e);
    if x !in catalog {
      var f :| f in kept && |f.items| >= 2 && x == EntryOf(f);
      RealFolders(kept);
    }
  }

  lemma {:induction false} FreeItemIsPlaced(
      l: Layout, catalog: seq<string>, kept: seq<Folder>, m: map<string, string>, placed: seq<string>, x: string)
    requires Catalog(catalog) && Parts(l, catalog, kept, m, placed)
    requires x in catalog && x in l.root && x !in AllItems(kept)
    ensures x in placed
  {
    var claimed := Elements(AllItems(kept));
    Placed(m, catalog, claimed, [], l.root);
    forall f ensures EntryOf(f) != x { EntryIsFolderEntry(f); }
    assert x !in m;
    assert Admissible(m, catalog, claimed, x);
  }

  lemma {:induction false} DissolvedItemIsPlaced(
      l: Layout, catalog: seq<string>, kept: seq<Folder>, m: map<string, string>, placed: seq<string>, x: string)
    requires Catalog(catalog) && Parts(l, catalog, kept, m, placed)
    requires x in catalog && Dissolved(l, kept, x)
    ensures x in placed
  {
    var claimed := Elements(AllItems(kept));
    Placed(m, catalog, claimed, [], l.root);
    var f :| f in kept && f.items == [x] && EntryOf(f) in l.root;
    assert m[EntryOf(f)] == x;
    assert Admissible(m, catalog, claimed, EntryOf(f));
  }

  /** What the placed part of the root holds: entries of real folders, free items, and the only items
      of folders whose entry is listed. */
  lemma {:induction false} PlacedMeans(
      l: Layout, catalog: seq<string>, kept: seq<Folder>, m: map<string, string>, placed: seq<string>, x: string)
    requires Catalog(catalog) && Parts(l, catalog, kept, m, placed)
    ensures x in catalog ==>
      (x in placed <==> (x in l.root && x !in AllItems(kept)) || Dissolved(l, kept, x))
    ensures x in placed && x !in catalog ==> exists f :: f in Real(kept) && x == EntryOf(f)
    ensures NoDuplicates(placed)
  {
    Placed(m, catalog, Elements(AllItems(kept)), [], l.root);
    if x in placed { PlacedHasReason(l, catalog, kept, m, placed, x); }
    if x in catalog {
      if x in l.root && x !in AllItems(kept) { FreeItemIsPlaced(l, catalog, kept, m, placed, x); }
      if Dissolved(l, kept, x) { DissolvedItemIsPlaced(l, catalog, kept, m, placed, x); }
    }
  }

  /** Every accepted layout comes out normal: no item or entry twice, every kept folder with at least
      two installed items and exactly one root entry. */
  lemma NormalizedIsNormal(l: Layout, catalog: seq<string>)
    requires Catalog(catalog) && Normalize(l, catalog).Ok?
    ensures Normal(Normalize(l, catalog).value, catalog)
  {
    var kept, m, placed := PartsOf(l, catalog);
    var out := Normalize(l, catalog).value;
    var claimed := Elements(AllItems(kept));
    RealFolders(kept);
    PlacedMeans(l, catalog, kept, m, placed, "");
    FoldersAdded(placed, Real(kept));
    var withFolders := AddFolders(placed, Real(kept));
    var left := Without(catalog, claimed + Elements(placed));
    WithoutIds(catalog, claimed + Elements(placed));
    forall x | x in withFolders ensures x !in left {
      if x !in placed {
        var f :| f in Real(kept) && x == EntryOf(f);
        EntryIsFolderEntry(f);
      }
    }
    NoDuplicatesConcat(withFolders, left);
    forall e | e in out.root
      ensures (e in catalog && e !in AllItems(out.folders)) || (exists f :: f in out.folders && e == EntryOf(f))
    {
      RootEntryIsGood(l, catalog, kept, m, placed, e);
    }
    forall f | f in out.folders ensures GoodFolder(f, catalog) && EntryOf(f) in out.root {
      assert KeptFolder(f, catalog);
    }
  }

  lemma {:induction false} RootEntryIsGood(
      l: Layout, catalog: seq<string>, kept: seq<Folder>, m: map<string, string>, placed: seq<string>, e: string)
    requires Catalog(catalog) && Parts(l, catalog, kept, m, placed)
    requires e in AddFolders(placed, Real(kept)) + Without(catalog, Elements(AllItems(kept)) + Elements(placed))
    ensures (e in catalog && e !in AllItems(Real(kept))) || (exists f :: f in Real(kept) && e == EntryOf(f))
  {
    RealFolders(kept);
    PlacedMeans(l, catalog, kept, m, placed, e);
    FoldersAdded(placed, Real(kept));
    WithoutIds(catalog, Elements(AllItems(kept)) + Elements(placed));
    if e in placed && e in catalog && e in AllItems(Real(kept)) {
      var f :| f in kept && f.items == [e] && EntryOf(f) in l.root;
      var g := OwnerOfItem(Real(kept), e);
      OneOwner(kept, f, g, e);
    }
  }

  lemma {:induction false} InRootMeansPlaced(catalog: seq<string>, kept: seq<Folder>, placed: seq<string>, x: string)
    requires Catalog(catalog) && x in catalog && NoDuplicates(placed)
    ensures x in AddFolders(placed, Real(kept)) + Without(catalog, Elements(AllItems(kept)) + Elements(placed))
            <==> x in placed || x !in AllItems(kept)
  {
    FoldersAdded(placed, Real(kept));
    WithoutIds(catalog, Elements(AllItems(kept)) + Elements(placed));
    forall f ensures EntryOf(f) != x { EntryIsFolderEntry(f); }
  }

  /** A claimed item is alone in its folder, or in a folder that stays. */
  lemma {:induction false} ClaimedItem(kept: seq<Folder>, x: string) returns (f: Folder)
    requires NoDuplicates(AllItems(kept)) && x in AllItems(kept)
    ensures f in kept && x in f.items && forall g | g in kept && x in g.items :: g == f
    ensures x in AllItems(Real(kept)) <==> |f.items| >= 2
    ensures |f.items| < 2 ==> f.items == [x]
  {
    f := OwnerOfItem(kept, x);
    OnlyOwner(kept, f, x);
    RealOwner(kept, f, x);
  }

  lemma OnlyOwner(kept: seq<Folder>, f: Folder, x: string)
    requires NoDuplicates(AllItems(kept)) && f in kept && x in f.items
    ensures forall g | g in kept && x in g.items :: g == f
  {
    forall g | g in kept && x in g.items ensures g == f { OneOwner(kept, f, g, x); }
  }

  /** The item is in a folder that stays exactly when its owner stays. */
  lemma RealOwner(kept: seq<Folder>, f: Folder, x: string)
    requires f in kept && x in f.items && forall g | g in kept && x in g.items :: g == f
    ensures x in AllItems(Real(kept)) <==> |f.items| >= 2
  {
    RealFolders(kept);
    if |f.items| >= 2 { ItemsOfMember(Real(kept), f, x); }
    if x in AllItems(Real(kept)) { var g := OwnerOfItem(Real(kept), x); }
  }

  /** An installed item is missing from the result exactly when it was left alone in a folder that the
      incoming root does not list; every other one appears, and by normality only once. */
  lemma MissingExactlyWhenStranded(l: Layout, catalog: seq<string>, x: string)
    requires Catalog(catalog) && Normalize(l, catalog).Ok? && x in catalog
    ensures Appears(Normalize(l, catalog).value, x) <==> !Stranded(l, catalog, x)
  {
    var kept, m, placed := PartsOf(l, catalog);
    PlacedMeans(l, catalog, kept, m, placed, x);
    InRootMeansPlaced(catalog, kept, placed, x);
    RealFolders(kept);
    if x in AllItems(kept) {
      var f := ClaimedItem(kept, x);
    } else {
      forall f | f in kept && f.items == [x] ensures false { ItemsOfMember(kept, f, x); }
    }
  }

  /** Such layouts exist: the item is listed in the root and alone in a folder that is not, and one pass
      loses it from both. */
  lemma StrandedItemIsLost(x: string, name: string)
    requires !IsFolderEntry(x)
    ensures var l := Layout([x], [Folder("a", name, [x])]);
            Normalize(l, [x]).Ok? && !Appears(Normalize(l, [x]).value, x)
  {
    var f := Folder("a", name, [x]);
    var l := Layout([x], [f]);
    assert Strip("a") == "a" by { StripStrips("a"); }
    var kept := Folder("a", Cut(name), [x]);
    assert [x][1..] == [] && [f][1..] == [];
    var items := KeepItems([x], {}, f.items);
    assert KeepItems([x], {} + {x}, f.items[1..]) == Ok([]);
    assert items == Ok([x] + []) && [x] + [] == [x];
    var rest := KeepFolders([x], {} + Elements([x]), {} + {"a"}, [f][1..]);
    assert rest == Ok([]);
    assert KeepFolders([x], {}, {}, [f]) == Ok([kept] + rest.value);
    assert [kept] + rest.value == [kept];
    assert kept in [kept] && EntryOf(kept) !in l.root;
    MissingExactlyWhenStranded(l, [x], x);
  }
}
