/** Normalisation of the launcher layout, and the service that stores it under a revision. */
module Layout {
  import opened Basics
  import opened Text

  datatype Folder = Folder(id: string, name: string, items: seq<string>)

  datatype Layout = Layout(root: seq<string>, folders: seq<Folder>)

  const FOLDER_PREFIX := "folder:"

  predicate IsFolderEntry(e: string) {
    |e| >= |FOLDER_PREFIX| && e[..|FOLDER_PREFIX|] == FOLDER_PREFIX
  }

  function EntryOf(f: Folder): string {
    FOLDER_PREFIX + f.id
  }

  predicate NoDuplicates<T(==)>(s: seq<T>) {
    forall i, j | 0 <= i < j < |s| :: s[i] != s[j]
  }

  /** The installed items, sorted: their ids are distinct and none looks like a folder entry. */
  predicate Catalog(catalog: seq<string>) {
    NoDuplicates(catalog) && forall x | x in catalog :: !IsFolderEntry(x)
  }

  function Cut(name: string): string {
    if |name| <= 80 then name else name[..80]
  }

  // ---- Folders ---------------------------------------------------------------------------------------

  /** The installed items of one folder; a folder entry or an item met before refuses the layout. */
  function KeepItems(catalog: seq<string>, seen: set<string>, raw: seq<string>): Result<seq<string>>
    decreases raw
  {
    if raw == [] then Ok([])
    else if IsFolderEntry(raw[0]) then Err(BadValue)
    else if raw[0] !in catalog then KeepItems(catalog, seen, raw[1..])
    else if raw[0] in seen then Err(BadValue)
    else
      var rest := KeepItems(catalog, seen + {raw[0]}, raw[1..]);
      if rest.Err? then rest else Ok([raw[0]] + rest.value)
  }

  function Elements<T(==)>(s: seq<T>): set<T> {
    set x | x in s
  }

  /** Every folder with the items it keeps, however few. */
  function KeepFolders(catalog: seq<string>, seen: set<string>, ids: set<string>, raw: seq<Folder>): Result<seq<Folder>>
    decreases raw
  {
    if raw == [] then Ok([])
    else
      var id := Strip(raw[0].id);
      if id == "" || id in ids then Err(BadValue)
      else
        var items := KeepItems(catalog, seen, raw[0].items);
        if items.Err? then Err(items.error)
        else
          var rest := KeepFolders(catalog, seen + Elements(items.value), ids + {id}, raw[1..]);
          if rest.Err? then rest else Ok([Folder(id, Cut(raw[0].name), items.value)] + rest.value)
  }

  function AllItems(folders: seq<Folder>): seq<string> {
    if folders == [] then [] else folders[0].items + AllItems(folders[1..])
  }

  function Ids(folders: seq<Folder>): seq<string> {
    if folders == [] then [] else [folders[0].id] + Ids(folders[1..])
  }

  /** Folders that stay folders. */
  function Real(folders: seq<Folder>): seq<Folder> {
    if folders == [] then []
    else (if |folders[0].items| >= 2 then [folders[0]] else []) + Real(folders[1..])
  }

  /** What a folder's root entry stands for: itself, its only item, or nothing. */
  function EntryMap(folders: seq<Folder>): map<string, string> {
    if folders == [] then map[]
    else
      var rest, f := EntryMap(folders[..|folders| - 1]), folders[|folders| - 1];
      if |f.items| >= 2 then rest[EntryOf(f) := EntryOf(f)]
      else if |f.items| == 1 then rest[EntryOf(f) := f.items[0]]
      else rest
  }

  // ---- Root ------------------------------------------------------------------------------------------

  function Resolve(m: map<string, string>, entry: string): string {
    if entry in m then m[entry] else entry
  }

  /** The entry has a place in the root, given the items the folders claimed. */
  predicate Admissible(m: map<string, string>, catalog: seq<string>, claimed: set<string>, entry: string) {
    var target := Resolve(m, entry);
    if IsFolderEntry(target) then target in m
    else target in catalog && (target in claimed ==> entry in m)
  }

  function Place(m: map<string, string>, catalog: seq<string>, claimed: set<string>, root: seq<string>, raw: seq<string>)
    : seq<string>
    decreases raw
  {
    if raw == [] then root
    else
      var target := Resolve(m, raw[0]);
      if Admissible(m, catalog, claimed, raw[0]) && target !in root
      then Place(m, catalog, claimed, root + [target], raw[1..])
      else Place(m, catalog, claimed, root, raw[1..])
  }

  function AddFolders(root: seq<string>, folders: seq<Folder>): seq<string>
    decreases folders
  {
    if folders == [] then root
    else AddFolders(if EntryOf(folders[0]) in root then root else root + [EntryOf(folders[0])], folders[1..])
  }

  /** Catalog order, without the ids of a set. */
  function Without(catalog: seq<string>, ids: set<string>): seq<string> {
    if catalog == [] then []
    else (if catalog[0] in ids then [] else [catalog[0]]) + Without(catalog[1..], ids)
  }

  function Normalize(layout: Layout, catalog: seq<string>): Result<Layout> {
    var kept := KeepFolders(catalog, {}, {}, layout.folders);
    if kept.Err? then Err(kept.error)
    else
      var claimed := Elements(AllItems(kept.value));
      var placed := Place(EntryMap(kept.value), catalog, claimed, [], layout.root);
      var withFolders := AddFolders(placed, Real(kept.value));
      Ok(Layout(withFolders + Without(catalog, claimed + Elements(placed)), Real(kept.value)))
  }

  // ---- What a normal layout is -----------------------------------------------------------------------

  predicate GoodFolder(f: Folder, catalog: seq<string>) {
    f.id != "" && Stripped(f.id) && |f.name| <= 80 && |f.items| >= 2 && forall x | x in f.items :: x in catalog
  }

  /** The shape of a layout the launcher can show: nothing twice, folders of two items or more, each
      with one root entry. */
  predicate Normal(l: Layout, catalog: seq<string>) {
    && NoDuplicates(l.root)
    && (forall f | f in l.folders :: GoodFolder(f, catalog) && EntryOf(f) in l.root)
    && NoDuplicates(Ids(l.folders))
    && NoDuplicates(AllItems(l.folders))
    && (forall e | e in l.root ::
          || (e in catalog && e !in AllItems(l.folders))
          || (exists f :: f in l.folders && e == EntryOf(f)))
  }

  predicate Appears(l: Layout, x: string) {
    x in l.root || x in AllItems(l.folders)
  }

  predicate Covers(l: Layout, catalog: seq<string>) {
    forall x | x in catalog :: Appears(l, x)
  }

  /** The item sits alone in a folder whose entry the root does not list. */
  predicate Stranded(l: Layout, catalog: seq<string>, x: string) {
    var kept := KeepFolders(catalog, {}, {}, l.folders);
    kept.Ok? && exists f :: f in kept.value && f.items == [x] && EntryOf(f) !in l.root
  }
}
