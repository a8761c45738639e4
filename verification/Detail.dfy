/** Bounding the depth, the breadth, the texts and the size of a value before it is shown. */
module Detail {
  import opened Basics
  import Sorting
  import opened Budget

  const MAX_TEXT: nat := 512
  const MAX_ITEMS: nat := 32
  const MAX_DEPTH: nat := 4

  const DEPTH_MARKER: Text := Codes("[truncated: maximum detail depth]")

  datatype NotFinite = NotANumber | Infinite | NegativeInfinite

  /** A value of the host language. Keys are already turned into text, and so are values of no JSON type. */
  datatype Raw =
    | RawAtom(width: Option<nat>)
    | RawNumber(kind: NotFinite)
    | RawText(text: Text)
    | RawOther(shown: Text)
    | RawList(items: seq<Raw>)
    | RawMap(entries: seq<RawEntry>)

  datatype RawEntry = RawEntry(key: Text, value: Raw)

  /** The counters; a value counts as truncated when one of them but the sums is positive. */
  datatype Stats = Stats(
    texts: nat, characters: nat, collections: nat, items: nat, depths: nat, budgets: nat, numbers: nat)

  function Nothing(): Stats {
    Stats(0, 0, 0, 0, 0, 0, 0)
  }

  /** The hexadecimal digest of a key. */
  type Hash = Text -> Text

  datatype Visited = Visited(value: Json, stats: Stats)

  datatype Items = Items(values: seq<Json>, stats: Stats)

  datatype Fields = Fields(entries: seq<Entry>, stats: Stats)

  datatype Bound = Bound(text: Text, stats: Stats)

  predicate Truncated(s: Stats) {
    s.texts > 0 || s.collections > 0 || s.depths > 0 || s.budgets > 0 || s.numbers > 0
  }

  function Add(a: Stats, b: Stats): Stats {
    Stats(a.texts + b.texts, a.characters + b.characters, a.collections + b.collections, a.items + b.items,
          a.depths + b.depths, a.budgets + b.budgets, a.numbers + b.numbers)
  }

  function BoundText(s: Text): Bound {
    if |s| <= MAX_TEXT then Bound(s, Nothing())
    else Bound(s[..MAX_TEXT - 1] + [ELLIPSIS], Nothing().(texts := 1, characters := |s| - (MAX_TEXT - 1)))
  }

  /** What marks a long key: an ellipsis and the first twelve digits of its digest. */
  function Suffix(h: Hash, s: Text): (r: Text)
    ensures 2 <= |r| <= 14
  {
    [ELLIPSIS, 0x23] + (if |h(s)| <= 12 then h(s) else h(s)[..12])
  }

  function BoundKey(h: Hash, s: Text): Bound {
    if |s| <= MAX_TEXT then Bound(s, Nothing())
    else
      var retained := MAX_TEXT - |Suffix(h, s)|;
      Bound(s[..retained] + Suffix(h, s), Nothing().(texts := 1, characters := |s| - retained))
  }

  function Label(kind: NotFinite): Text {
    match kind
    case NotANumber => Codes("[non-finite number: NaN]")
    case Infinite => Codes("[non-finite number: Infinity]")
    case NegativeInfinite => Codes("[non-finite number: -Infinity]")
  }

  predicate KeyLess(a: RawEntry, b: RawEntry) {
    Sorting.Lex<int>(Sorting.IntLess, a.key, b.key)
  }

  /** What is left of a collection that is too long, and what that costs. */
  function TakeItems<T>(items: seq<T>): seq<T> {
    if |items| <= MAX_ITEMS then items else items[..MAX_ITEMS]
  }

  function Dropped(n: nat): Stats {
    if n <= MAX_ITEMS then Nothing() else Nothing().(collections := 1, items := n - MAX_ITEMS)
  }

  /** What a visit does to a member. */
  type Visiting = Raw -> Visited

  function VisitItems(visit: Visiting, items: seq<Raw>): (r: Items)
    ensures |r.values| == |items|
  {
    if items == [] then Items([], Nothing())
    else
      var rest := VisitItems(visit, items[..|items| - 1]);
      var last := visit(items[|items| - 1]);
      Items(rest.values + [last.value], Add(rest.stats, last.stats))
  }

  /** One more entry, unless its bounded key is there already. */
  function NextField(h: Hash, visit: Visiting, rest: Fields, e: RawEntry): (r: Fields)
    ensures |r.entries| <= |rest.entries| + 1
  {
    var key := BoundKey(h, e.key);
    if HasKey(rest.entries, key.text) then Fields(rest.entries, Add(rest.stats, key.stats))
    else
      var visited := visit(e.value);
      Fields(rest.entries + [Entry(key.text, visited.value)], Add(Add(rest.stats, key.stats), visited.stats))
  }

  /** The first entry of each bounded key is visited. */
  function VisitFields(h: Hash, visit: Visiting, entries: seq<RawEntry>): (r: Fields)
    ensures |r.entries| <= |entries|
  {
    if entries == [] then Fields([], Nothing())
    else NextField(h, visit, VisitFields(h, visit, entries[..|entries| - 1]), entries[|entries| - 1])
  }

  lemma VisitFieldsTo(h: Hash, visit: Visiting, entries: seq<RawEntry>, i: nat)
    requires i < |entries|
    ensures VisitFields(h, visit, entries[..i + 1]) == NextField(h, visit, VisitFields(h, visit, entries[..i]), entries[i])
  {
    assert entries[..i + 1][..i] == entries[..i];
  }

  function SortedByKey(entries: seq<RawEntry>): (r: seq<RawEntry>)
    ensures |r| == |entries|
  {
    Sorting.Sort(KeyLess, entries)
  }

  function Visit(h: Hash, raw: Raw, depth: nat): Visited
    requires depth <= MAX_DEPTH
    decreases MAX_DEPTH - depth, 2
  {
    match raw
    case RawMap(entries) => VisitMap(h, entries, depth)
    case RawList(items) => VisitList(h, items, depth)
    case RawText(s) => Visited(Chars(BoundText(s).text), BoundText(s).stats)
    case RawOther(s) => Visited(Chars(BoundText(s).text), BoundText(s).stats)
    case RawNumber(kind) => Visited(Chars(Label(kind)), Nothing().(numbers := 1))
    case RawAtom(width) => Visited(Atom(width), Nothing())
  }

  function VisitMap(h: Hash, entries: seq<RawEntry>, depth: nat): Visited
    requires depth <= MAX_DEPTH
    decreases MAX_DEPTH - depth, 1
  {
    if depth >= MAX_DEPTH then Visited(Chars(DEPTH_MARKER), Nothing().(depths := 1))
    else
      var fields := VisitFields(h, Deeper(h, depth), TakeItems(SortedByKey(entries)));
      Visited(Object(fields.entries), Add(Dropped(|entries|), fields.stats))
  }

  function VisitList(h: Hash, items: seq<Raw>, depth: nat): Visited
    requires depth <= MAX_DEPTH
    decreases MAX_DEPTH - depth, 1
  {
    if depth >= MAX_DEPTH then Visited(Chars(DEPTH_MARKER), Nothing().(depths := 1))
    else
      var visited := VisitItems(Deeper(h, depth), TakeItems(items));
      Visited(List(visited.values), Add(Dropped(|items|), visited.stats))
  }

  /** The visit of the members of a collection. */
  function Deeper(h: Hash, depth: nat): Visiting
    requires depth < MAX_DEPTH
    decreases MAX_DEPTH - depth, 0
  {
    raw => Visit(h, raw, depth + 1)
  }

  function OverBudget(s: Stats): Stats {
    s.(budgets := s.budgets + 1)
  }

  function Fitted(visited: Visited): Visited {
    if Fits(visited.value) then visited else Visited(FitValue(visited.value), OverBudget(visited.stats))
  }

  /** `_bounded_json_value`. */
  function BoundedJson(h: Hash, raw: Raw): Visited {
    Fitted(Visit(h, raw, 0))
  }

  // ---- Limits ----------------------------------------------------------------------------------------------------

  predicate DistinctKeys(entries: seq<Entry>) {
    forall i, j | 0 <= i < j < |entries| :: entries[i].key != entries[j].key
  }

  /** No text, key, collection or nesting beyond its limit, this far down. */
  predicate Within(v: Json, depth: nat)
    decreases v
  {
    match v
    case Atom(_) => true
    case Chars(s) => |s| <= MAX_TEXT
    case List(items) =>
      depth < MAX_DEPTH && |items| <= MAX_ITEMS && forall i | 0 <= i < |items| :: Within(items[i], depth + 1)
    case Object(entries) =>
      && depth < MAX_DEPTH && |entries| <= MAX_ITEMS && DistinctKeys(entries)
      && forall i | 0 <= i < |entries| :: |entries[i].key| <= MAX_TEXT && Within(entries[i].value, depth + 1)
  }

  lemma {:induction false} VisitWithin(h: Hash, raw: Raw, depth: nat)
    requires depth <= MAX_DEPTH
    ensures Within(Visit(h, raw, depth).value, depth)
    decreases MAX_DEPTH - depth
  {
    if depth < MAX_DEPTH && (raw.RawMap? || raw.RawList?) {
      var visit := Deeper(h, depth);
      forall r ensures Within(visit(r).value, depth + 1) { VisitWithin(h, r, depth + 1); }
      if raw.RawMap? {
        FieldsWithin(h, visit, TakeItems(SortedByKey(raw.entries)), depth + 1);
      } else {
        ItemsWithin(visit, TakeItems(raw.items), depth + 1);
      }
    }
  }

  lemma {:induction false} ItemsWithin(visit: Visiting, items: seq<Raw>, depth: nat)
    requires forall r :: Within(visit(r).value, depth)
    ensures forall i | 0 <= i < |items| :: Within(VisitItems(visit, items).values[i], depth)
  {
    if items != [] { ItemsWithin(visit, items[..|items| - 1], depth); }
  }

  predicate FieldsFit(fields: seq<Entry>, depth: nat) {
    && DistinctKeys(fields)
    && forall i | 0 <= i < |fields| :: |fields[i].key| <= MAX_TEXT && Within(fields[i].value, depth)
  }

  lemma OneMoreFits(fields: seq<Entry>, field: Entry, depth: nat)
    requires FieldsFit(fields, depth) && !HasKey(fields, field.key)
    requires |field.key| <= MAX_TEXT && Within(field.value, depth)
    ensures FieldsFit(fields + [field], depth)
  {
  }

  lemma {:induction false} FieldsWithin(h: Hash, visit: Visiting, entries: seq<RawEntry>, depth: nat)
    requires forall r :: Within(visit(r).value, depth)
    ensures FieldsFit(VisitFields(h, visit, entries).entries, depth)
  {
    if entries != [] {
      var n := |entries| - 1;
      FieldsWithin(h, visit, entries[..n], depth);
      var rest, key := VisitFields(h, visit, entries[..n]).entries, BoundKey(h, entries[n].key).text;
      if !HasKey(rest, key) { OneMoreFits(rest, Entry(key, visit(entries[n].value).value), depth); }
    }
  }

  /** Cutting to the budget stays within the limits. */
  lemma FitWithin(v: Json)
    requires Within(v, 0)
    ensures Within(FitValue(v), 0)
  {
    if !Fits(v) {
      MarkersArePlain();
      match v {
        case Chars(s) => FitTextMeans(s);
        case Object(entries) =>
          var j := CutObjectMeans(entries);
          var k := LongestPrefix(entries, |entries|);
          FewerLongKeys(entries[..k], |BUDGET_KEY|);
          MarkedWithin(entries, j, MarkerFor(entries));
        case List(items) => var j := CutListMeans(items);
        case Atom(_) =>
      }
    }
  }

  lemma MarkedWithin(entries: seq<Entry>, j: nat, marker: Entry)
    requires Within(Object(entries), 0) && j < |entries| && !HasKey(entries[..j], marker.key)
    requires |marker.key| <= MAX_TEXT && Within(marker.value, 1)
    ensures Within(Object(entries[..j] + [marker]), 0)
  {
    forall i | 0 <= i < j ensures entries[i].key != marker.key { assert entries[..j][i].key == entries[i].key; }
  }

  /** For every value: the result takes at most the budget when serialised and stays within every limit. */
  lemma BoundedMeetsLimits(h: Hash, raw: Raw)
    ensures Fits(BoundedJson(h, raw).value) && Within(BoundedJson(h, raw).value, 0)
  {
    VisitWithin(h, raw, 0);
    FitValueFits(Visit(h, raw, 0).value);
    FitWithin(Visit(h, raw, 0).value);
  }

  // ---- Nothing is lost silently ------------------------------------------------------------------------------------

  /** The whole value, members of an object in any order. */
  ghost predicate Shows(v: Json, raw: Raw)
    decreases raw
  {
    match raw
    case RawAtom(width) => v == Atom(width)
    case RawNumber(_) => false
    case RawText(s) => v == Chars(s)
    case RawOther(s) => v == Chars(s)
    case RawList(items) => v.List? && |v.items| == |items| && forall i | 0 <= i < |items| :: Shows(v.items[i], items[i])
    case RawMap(entries) =>
      && v.Object? && |v.entries| == |entries|
      && forall i | 0 <= i < |entries| ::
           exists j | 0 <= j < |v.entries| :: v.entries[j].key == entries[i].key && Shows(v.entries[j].value, entries[i].value)
  }

  /** Keys of one mapping that differ still differ as text. */
  predicate KeysStayApart(raw: Raw)
    decreases raw
  {
    match raw
    case RawList(items) => forall i | 0 <= i < |items| :: KeysStayApart(items[i])
    case RawMap(entries) =>
      && (forall i, j | 0 <= i < j < |entries| :: entries[i].key != entries[j].key)
      && forall i | 0 <= i < |entries| :: KeysStayApart(entries[i].value)
    case _ => true
  }

  lemma AddTruncated(a: Stats, b: Stats)
    ensures Truncated(Add(a, b)) <==> Truncated(a) || Truncated(b)
  {
  }

  ghost predicate ItemsShown(values: seq<Json>, items: seq<Raw>) {
    |values| == |items| && forall i | 0 <= i < |items| :: Shows(values[i], items[i])
  }

  ghost predicate FieldsShown(fields: seq<Entry>, entries: seq<RawEntry>) {
    |fields| == |entries| && forall i | 0 <= i < |entries| :: EntryShown(fields[i], entries[i])
  }

  ghost predicate EntryShown(field: Entry, e: RawEntry) {
    field.key == e.key && Shows(field.value, e.value)
  }

  predicate DifferentKeys(entries: seq<RawEntry>) {
    forall i, j | 0 <= i < j < |entries| :: entries[i].key != entries[j].key
  }

  /** A visit that reports whatever it cuts. */
  ghost predicate Honest(visit: Visiting) {
    forall r | KeysStayApart(r) :: Faithful(visit(r), r)
  }

  ghost predicate Faithful(visited: Visited, raw: Raw) {
    !Truncated(visited.stats) ==> Shows(visited.value, raw)
  }

  lemma {:induction false} ItemsShow(visit: Visiting, items: seq<Raw>)
    requires Honest(visit) && !Truncated(VisitItems(visit, items).stats)
    requires forall i | 0 <= i < |items| :: KeysStayApart(items[i])
    ensures ItemsShown(VisitItems(visit, items).values, items)
  {
    if items != [] {
      var n := |items| - 1;
      var rest, last := VisitItems(visit, items[..n]), visit(items[n]);
      AddTruncated(rest.stats, last.stats);
      ItemsShow(visit, items[..n]);
      OneMoreItem(rest.values, last.value, items);
    }
  }

  lemma OneMoreItem(values: seq<Json>, v: Json, items: seq<Raw>)
    requires items != [] && ItemsShown(values, items[..|items| - 1]) && Shows(v, items[|items| - 1])
    ensures ItemsShown(values + [v], items)
  {
    forall i | 0 <= i < |items| ensures Shows((values + [v])[i], items[i]) {
      if i < |items| - 1 { assert items[..|items| - 1][i] == items[i]; }
    }
  }

  lemma OneMoreField(fields: seq<Entry>, field: Entry, entries: seq<RawEntry>)
    requires entries != [] && FieldsShown(fields, entries[..|entries| - 1])
    requires EntryShown(field, entries[|entries| - 1])
    ensures FieldsShown(fields + [field], entries)
  {
    forall i | 0 <= i < |entries| ensures EntryShown((fields + [field])[i], entries[i]) {
      if i < |entries| - 1 { assert entries[..|entries| - 1][i] == entries[i]; }
    }
  }

  lemma NewKey(fields: seq<Entry>, entries: seq<RawEntry>)
    requires entries != [] && FieldsShown(fields, entries[..|entries| - 1]) && DifferentKeys(entries)
    ensures !HasKey(fields, entries[|entries| - 1].key)
  {
    forall i | 0 <= i < |fields| ensures fields[i].key != entries[|entries| - 1].key {
      assert EntryShown(fields[i], entries[..|entries| - 1][i]);
    }
  }

  /** Truncation of a part is reported for the whole. */
  lemma NextPart(h: Hash, visit: Visiting, rest: Fields, e: RawEntry)
    requires !Truncated(NextField(h, visit, rest, e).stats)
    ensures !Truncated(rest.stats) && |e.key| <= MAX_TEXT
    ensures !HasKey(rest.entries, e.key) ==> !Truncated(visit(e.value).stats)
  {
    var key := BoundKey(h, e.key);
    AddTruncated(rest.stats, key.stats);
    AddTruncated(Add(rest.stats, key.stats), visit(e.value).stats);
  }

  lemma NextShows(h: Hash, visit: Visiting, rest: Fields, entries: seq<RawEntry>)
    requires entries != [] && DifferentKeys(entries) && FieldsShown(rest.entries, entries[..|entries| - 1])
    requires var e := entries[|entries| - 1]; |e.key| <= MAX_TEXT && Shows(visit(e.value).value, e.value)
    ensures FieldsShown(NextField(h, visit, rest, entries[|entries| - 1]).entries, entries)
  {
    var e := entries[|entries| - 1];
    NewKey(rest.entries, entries);
    OneMoreField(rest.entries, Entry(e.key, visit(e.value).value), entries);
  }

  lemma {:induction false} FieldsShow(h: Hash, visit: Visiting, entries: seq<RawEntry>)
    requires Honest(visit) && !Truncated(VisitFields(h, visit, entries).stats)
    requires (forall i | 0 <= i < |entries| :: KeysStayApart(entries[i].value)) && DifferentKeys(entries)
    ensures FieldsShown(VisitFields(h, visit, entries).entries, entries)
  {
    if entries != [] {
      var n := |entries| - 1;
      var rest := VisitFields(h, visit, entries[..n]);
      NextPart(h, visit, rest, entries[n]);
      FieldsShow(h, visit, entries[..n]);
      NewKey(rest.entries, entries);
      assert Faithful(visit(entries[n].value), entries[n].value);
      NextShows(h, visit, rest, entries);
    }
  }

  lemma SortedEntry(entries: seq<RawEntry>, i: nat) returns (j: nat)
    requires i < |entries|
    ensures j < |entries| && SortedByKey(entries)[j] == entries[i]
  {
    var sorted := SortedByKey(entries);
    Sorting.SortPermutes(KeyLess, entries);
    assert entries[i] in multiset(sorted);
    j :| 0 <= j < |sorted| && sorted[j] == entries[i];
  }

  /** Distinct keys stay distinct in every order. */
  lemma PermutedKeys(entries: seq<RawEntry>, s: seq<RawEntry>)
    requires DifferentKeys(entries) && multiset(entries) == multiset(s)
    ensures DifferentKeys(s)
  {
    forall i, j | 0 <= i < j < |s| ensures s[i].key != s[j].key {
      assert s[i] in multiset(entries) && s[j] in multiset(entries);
      var p :| 0 <= p < |entries| && entries[p] == s[i];
      var q :| 0 <= q < |entries| && entries[q] == s[j];
      if s[i] == s[j] {
        TwiceMeansTwo(s, i, j);
        OnceMeansOne(entries, s[i]);
      } else {
        assert p < q || q < p;
      }
    }
  }

  lemma SortedKeys(entries: seq<RawEntry>)
    ensures DifferentKeys(SortedByKey(entries)) <==> DifferentKeys(entries)
  {
    Sorting.SortPermutes(KeyLess, entries);
    if DifferentKeys(entries) { PermutedKeys(entries, SortedByKey(entries)); }
    if DifferentKeys(SortedByKey(entries)) { PermutedKeys(SortedByKey(entries), entries); }
  }

  lemma TwiceMeansTwo(s: seq<RawEntry>, i: nat, j: nat)
    requires i < j < |s| && s[i] == s[j]
    ensures multiset(s)[s[i]] >= 2
  {
    assert s == s[..j] + [s[j]] + s[j + 1..];
    assert s[..j][i] == s[i];
    assert s[i] in multiset(s[..j]);
  }

  lemma OnceMeansOne(entries: seq<RawEntry>, e: RawEntry)
    requires e in entries && DifferentKeys(entries)
    ensures multiset(entries)[e] == 1
  {
    var i :| 0 <= i < |entries| && entries[i] == e;
    assert entries == entries[..i] + [e] + entries[i + 1..];
    assert e !in entries[..i] && e !in entries[i + 1..];
  }

  lemma SortedShows(v: Json, sorted: seq<RawEntry>, entries: seq<RawEntry>)
    requires v.Object? && FieldsShown(v.entries, sorted) && sorted == SortedByKey(entries)
    ensures Shows(v, RawMap(entries))
  {
    forall i | 0 <= i < |entries|
      ensures exists j | 0 <= j < |v.entries| :: v.entries[j].key == entries[i].key && Shows(v.entries[j].value, entries[i].value) {
      var j := SortedEntry(entries, i);
      assert EntryShown(v.entries[j], sorted[j]);
    }
  }

  lemma SortedMembers(entries: seq<RawEntry>)
    requires forall i | 0 <= i < |entries| :: KeysStayApart(entries[i].value)
    ensures var s := SortedByKey(entries); forall i | 0 <= i < |s| :: KeysStayApart(s[i].value)
  {
    var s := SortedByKey(entries);
    Sorting.SortPermutes(KeyLess, entries);
    forall i | 0 <= i < |s| ensures KeysStayApart(s[i].value) {
      assert s[i] in multiset(entries);
    }
  }

  lemma MapShows(h: Hash, visit: Visiting, entries: seq<RawEntry>)
    requires Honest(visit) && !Truncated(VisitFields(h, visit, SortedByKey(entries)).stats)
    requires DifferentKeys(entries) && forall i | 0 <= i < |entries| :: KeysStayApart(entries[i].value)
    ensures Shows(Object(VisitFields(h, visit, SortedByKey(entries)).entries), RawMap(entries))
  {
    var sorted := SortedByKey(entries);
    SortedKeys(entries);
    SortedMembers(entries);
    FieldsShow(h, visit, sorted);
    SortedShows(Object(VisitFields(h, visit, sorted).entries), sorted, entries);
  }

  /** A collection without truncation is visited whole. */
  lemma WholeMap(h: Hash, entries: seq<RawEntry>, depth: nat)
    requires depth < MAX_DEPTH && !Truncated(Visit(h, RawMap(entries), depth).stats)
    ensures var fields := VisitFields(h, Deeper(h, depth), SortedByKey(entries));
            !Truncated(fields.stats) && Visit(h, RawMap(entries), depth).value == Object(fields.entries)
  {
    AddTruncated(Dropped(|entries|), VisitFields(h, Deeper(h, depth), TakeItems(SortedByKey(entries))).stats);
  }

  lemma WholeList(h: Hash, items: seq<Raw>, depth: nat)
    requires depth < MAX_DEPTH && !Truncated(Visit(h, RawList(items), depth).stats)
    ensures var visited := VisitItems(Deeper(h, depth), items);
            !Truncated(visited.stats) && Visit(h, RawList(items), depth).value == List(visited.values)
  {
    AddTruncated(Dropped(|items|), VisitItems(Deeper(h, depth), TakeItems(items)).stats);
  }

  lemma {:induction false} DeeperIsHonest(h: Hash, depth: nat)
    requires depth < MAX_DEPTH
    ensures Honest(Deeper(h, depth))
    decreases MAX_DEPTH - depth, 0
  {
    var visit := Deeper(h, depth);
    forall r | KeysStayApart(r) ensures Faithful(visit(r), r) {
      assert visit(r) == Visit(h, r, depth + 1);
      if !Truncated(visit(r).stats) { VisitShows(h, r, depth + 1); }
    }
  }

  lemma {:induction false} VisitShows(h: Hash, raw: Raw, depth: nat)
    requires depth <= MAX_DEPTH && KeysStayApart(raw) && !Truncated(Visit(h, raw, depth).stats)
    ensures Shows(Visit(h, raw, depth).value, raw)
    decreases MAX_DEPTH - depth, 1
  {
    match raw {
      case RawMap(entries) =>
        if depth < MAX_DEPTH {
          DeeperIsHonest(h, depth);
          WholeMap(h, entries, depth);
          MapShows(h, Deeper(h, depth), entries);
        }
      case RawList(items) =>
        if depth < MAX_DEPTH {
          DeeperIsHonest(h, depth);
          WholeList(h, items, depth);
          ItemsShow(Deeper(h, depth), items);
        }
      case _ =>
    }
  }

  // ---- What is lost without a report ------------------------------------------------------------------------------

  /** A visit whose result shows the whole value only when no key was repeated. */
  ghost predicate Exact(visit: Visiting) {
    forall r | !Truncated(visit(r).stats) && Shows(visit(r).value, r) :: KeysStayApart(r)
  }

  ghost predicate VisitedWhole(visit: Visiting, fields: seq<Entry>, entries: seq<RawEntry>) {
    && |fields| == |entries| && DifferentKeys(entries)
    && forall i | 0 <= i < |entries| ::
         fields[i] == Entry(entries[i].key, visit(entries[i].value).value) && !Truncated(visit(entries[i].value).stats)
  }

  lemma OneMoreVisited(visit: Visiting, fields: seq<Entry>, entries: seq<RawEntry>)
    requires entries != [] && VisitedWhole(visit, fields, entries[..|entries| - 1])
    requires var e := entries[|entries| - 1]; !HasKey(fields, e.key) && !Truncated(visit(e.value).stats)
    ensures var e := entries[|entries| - 1];
            VisitedWhole(visit, fields + [Entry(e.key, visit(e.value).value)], entries)
  {
    var n := |entries| - 1;
    forall i | 0 <= i < n ensures entries[i].key != entries[n].key && entries[..n][i] == entries[i] {
      assert fields[i].key == entries[..n][i].key;
    }
  }

  /** As many fields as entries: no key was repeated, and every value was visited. */
  lemma {:induction false} AllFieldsVisited(h: Hash, visit: Visiting, entries: seq<RawEntry>)
    requires !Truncated(VisitFields(h, visit, entries).stats) && |VisitFields(h, visit, entries).entries| == |entries|
    ensures VisitedWhole(visit, VisitFields(h, visit, entries).entries, entries)
  {
    if entries != [] {
      var n := |entries| - 1;
      var rest := VisitFields(h, visit, entries[..n]);
      NextPart(h, visit, rest, entries[n]);
      assert |rest.entries| == n && !HasKey(rest.entries, entries[n].key);
      AllFieldsVisited(h, visit, entries[..n]);
      OneMoreVisited(visit, rest.entries, entries);
    }
  }

  lemma MapIsExact(h: Hash, visit: Visiting, entries: seq<RawEntry>)
    requires Exact(visit) && !Truncated(VisitFields(h, visit, SortedByKey(entries)).stats)
    requires Shows(Object(VisitFields(h, visit, SortedByKey(entries)).entries), RawMap(entries))
    ensures KeysStayApart(RawMap(entries))
  {
    var sorted := SortedByKey(entries);
    var fields := VisitFields(h, visit, sorted).entries;
    AllFieldsVisited(h, visit, sorted);
    SortedKeys(entries);
    forall i | 0 <= i < |entries| ensures KeysStayApart(entries[i].value) {
      var j := SortedEntry(entries, i);
      var k :| 0 <= k < |fields| && fields[k].key == entries[i].key && Shows(fields[k].value, entries[i].value);
      assert sorted[k].key == sorted[j].key && k == j;
      assert !Truncated(visit(entries[i].value).stats) && Shows(visit(entries[i].value).value, entries[i].value);
    }
  }

  lemma {:induction false} ItemsAreExact(visit: Visiting, items: seq<Raw>)
    requires Exact(visit) && !Truncated(VisitItems(visit, items).stats)
    requires ItemsShown(VisitItems(visit, items).values, items)
    ensures forall i | 0 <= i < |items| :: KeysStayApart(items[i])
  {
    if items != [] {
      var n := |items| - 1;
      var rest, last := VisitItems(visit, items[..n]), visit(items[n]);
      var values := VisitItems(visit, items).values;
      AddTruncated(rest.stats, last.stats);
      forall i | 0 <= i < n ensures Shows(rest.values[i], items[..n][i]) { assert values[i] == rest.values[i]; }
      ItemsAreExact(visit, items[..n]);
      assert Shows(values[n], items[n]) && values[n] == last.value;
      forall i | 0 <= i < |items| ensures KeysStayApart(items[i]) {
        if i < n { assert items[..n][i] == items[i]; }
      }
    }
  }

  lemma {:induction false} DeeperIsExact(h: Hash, depth: nat)
    requires depth < MAX_DEPTH
    ensures Exact(Deeper(h, depth))
    decreases MAX_DEPTH - depth, 0
  {
    var visit := Deeper(h, depth);
    forall r | !Truncated(visit(r).stats) && Shows(visit(r).value, r) ensures KeysStayApart(r) {
      assert visit(r) == Visit(h, r, depth + 1);
      VisitIsExact(h, r, depth + 1);
    }
  }

  lemma {:induction false} VisitIsExact(h: Hash, raw: Raw, depth: nat)
    requires depth <= MAX_DEPTH && !Truncated(Visit(h, raw, depth).stats)
    requires Shows(Visit(h, raw, depth).value, raw)
    ensures KeysStayApart(raw)
    decreases MAX_DEPTH - depth, 1
  {
    match raw {
      case RawMap(entries) =>
        if depth < MAX_DEPTH {
          DeeperIsExact(h, depth);
          WholeMap(h, entries, depth);
          MapIsExact(h, Deeper(h, depth), entries);
        }
      case RawList(items) =>
        if depth < MAX_DEPTH {
          DeeperIsExact(h, depth);
          WholeList(h, items, depth);
          ItemsAreExact(Deeper(h, depth), items);
        }
      case _ =>
    }
  }

  /** When no truncation is reported, the result is the whole value exactly when different keys of one
      mapping stay different as text, at every depth. */
  lemma NothingIsLostSilently(h: Hash, raw: Raw)
    ensures !Truncated(BoundedJson(h, raw).stats) ==>
              (Shows(BoundedJson(h, raw).value, raw) <==> KeysStayApart(raw))
  {
    if !Truncated(BoundedJson(h, raw).stats) {
      assert BoundedJson(h, raw) == Visit(h, raw, 0);
      if KeysStayApart(raw) { VisitShows(h, raw, 0); }
      if Shows(BoundedJson(h, raw).value, raw) { VisitIsExact(h, raw, 0); }
    }
  }

  /** Two keys that become the same text are one entry, and nothing is reported. */
  lemma RepeatedKeyIsDropped(h: Hash, key: Text, width: nat)
    requires |key| <= 9 && Plain(key) && width <= 9
    ensures var one, two := RawEntry(key, RawAtom(Some(width))), RawEntry(key, RawText([]));
            var r := BoundedJson(h, RawMap([one, two]));
            !Truncated(r.stats) && r.value == Object([Entry(key, Atom(Some(width)))])
  {
    var one, two := RawEntry(key, RawAtom(Some(width))), RawEntry(key, RawText([]));
    VisitTwo(h, one, two, Some(width));
    SmallEntryFits(key, width);
  }

  lemma VisitTwo(h: Hash, one: RawEntry, two: RawEntry, width: Option<nat>)
    requires one.key == two.key && |one.key| <= MAX_TEXT && one.value == RawAtom(width)
    ensures Visit(h, RawMap([one, two]), 0) == Visited(Object([Entry(one.key, Atom(width))]), Nothing())
  {
    SameKey(one, two);
    var visit := Deeper(h, 0);
    assert visit(one.value) == Visit(h, one.value, 1) == Visited(Atom(width), Nothing());
    TwoFields(h, visit, one, two);
  }

  lemma SmallEntryFits(key: Text, width: nat)
    requires |key| <= 9 && Plain(key) && width <= 9
    ensures Fits(Object([Entry(key, Atom(Some(width)))]))
  {
    var kept := Entry(key, Atom(Some(width)));
    PlainBytes(key);
    CollectionSizes([], [kept]);
    assert EntrySizes([kept]) == [EntrySize(kept)] && [EntrySize(kept)][..0] == [];
    assert Total([EntrySize(kept)]) == Some(|key| + 4 + width);
  }

  lemma FirstField(h: Hash, visit: Visiting, one: RawEntry)
    requires |one.key| <= MAX_TEXT && visit(one.value).stats == Nothing()
    ensures VisitFields(h, visit, [one]) == Fields([Entry(one.key, visit(one.value).value)], Nothing())
  {
    var none, kept := [one][..0], Entry(one.key, visit(one.value).value);
    assert none == [];
    assert VisitFields(h, visit, none) == Fields([], Nothing());
    assert [] + [kept] == [kept];
  }

  lemma TwoFields(h: Hash, visit: Visiting, one: RawEntry, two: RawEntry)
    requires one.key == two.key && |one.key| <= MAX_TEXT && visit(one.value).stats == Nothing()
    ensures VisitFields(h, visit, [one, two]) == Fields([Entry(one.key, visit(one.value).value)], Nothing())
  {
    var both, kept := [one, two], Entry(one.key, visit(one.value).value);
    assert both[..1] == [one] && both[..2] == both;
    FirstField(h, visit, one);
    VisitFieldsTo(h, visit, both, 1);
    assert [kept][0].key == two.key && HasKey([kept], two.key);
  }

  lemma AddNothing(a: Stats)
    ensures Add(Nothing(), a) == a
  {
  }

  lemma AddAssociates(a: Stats, b: Stats, c: Stats)
    ensures Add(Add(a, b), c) == Add(a, Add(b, c))
  {
  }

  /** The counters so far do not influence the next entry. */
  lemma NextFieldAdds(h: Hash, visit: Visiting, rest: Fields, e: RawEntry)
    ensures var next := NextField(h, visit, Fields(rest.entries, Nothing()), e);
            NextField(h, visit, rest, e) == Fields(next.entries, Add(rest.stats, next.stats))
  {
  }

  /** One turn of the loop over the entries, from the counters before it. */
  lemma OneMoreEntry(h: Hash, visit: Visiting, start: Stats, entries: seq<RawEntry>, i: nat)
    requires i < |entries|
    ensures var done, all := VisitFields(h, visit, entries[..i]), VisitFields(h, visit, entries[..i + 1]);
            var next := NextField(h, visit, Fields(done.entries, Nothing()), entries[i]);
            all.entries == next.entries && Add(start, all.stats) == Add(Add(start, done.stats), next.stats)
  {
    var done := VisitFields(h, visit, entries[..i]);
    var next := NextField(h, visit, Fields(done.entries, Nothing()), entries[i]);
    VisitFieldsTo(h, visit, entries, i);
    NextFieldAdds(h, visit, done, entries[i]);
    AddAssociates(start, done.stats, next.stats);
  }

  lemma SameKey(one: RawEntry, two: RawEntry)
    requires one.key == two.key
    ensures SortedByKey([one, two]) == [one, two]
  {
    Sorting.LexIrreflexive<int>(Sorting.IntLess, one.key);
    var both := [one, two];
    assert both[..1] == [one] && both[1] == two && [one][..0] == [] && [one][1..] == [];
    assert Sorting.Sort(KeyLess, [one]) == [one];
    assert Sorting.Insert(KeyLess, two, [one]) == [one] + [two];
  }

  // ---- The loops ----------------------------------------------------------------------------------------------------

  /** The nested visit and the counters it updates. */
  class DetailVisitor {
    const hash: Hash
    var stats: Stats

    constructor (hash: Hash)
      ensures this.hash == hash && stats == Nothing()
    {
      this.hash, stats := hash, Nothing();
    }

    method BoundedString(s: Text) returns (r: Text)
      modifies this`stats
      ensures r == BoundText(s).text && stats == Add(old(stats), BoundText(s).stats)
    {
      if |s| <= MAX_TEXT { return s; }
      var retained := MAX_TEXT - 1;
      stats := stats.(texts := stats.texts + 1, characters := stats.characters + (|s| - retained));
      return s[..retained] + [ELLIPSIS];
    }

    method BoundedKey(s: Text) returns (r: Text)
      modifies this`stats
      ensures r == BoundKey(hash, s).text && stats == Add(old(stats), BoundKey(hash, s).stats)
    {
      if |s| <= MAX_TEXT { return s; }
      var suffix := Suffix(hash, s);
      var retained := MAX_TEXT - |suffix|;
      stats := stats.(texts := stats.texts + 1, characters := stats.characters + (|s| - retained));
      return s[..retained] + suffix;
    }

    method CountDropped(n: nat)
      modifies this`stats
      ensures stats == Add(old(stats), Dropped(n))
    {
      if n > MAX_ITEMS {
        stats := stats.(collections := stats.collections + 1, items := stats.items + (n - MAX_ITEMS));
      }
    }

    method VisitValue(raw: Raw, depth: nat) returns (value: Json)
      requires depth <= MAX_DEPTH
      modifies this`stats
      ensures value == Visit(hash, raw, depth).value && stats == Add(old(stats), Visit(hash, raw, depth).stats)
      decreases MAX_DEPTH - depth, 3
    {
      match raw {
        case RawMap(entries) => value := VisitMapping(entries, depth);
        case RawList(items) => value := VisitSequence(items, depth);
        case RawText(s) =>
          var text := BoundedString(s);
          return Chars(text);
        case RawOther(s) =>
          var text := BoundedString(s);
          return Chars(text);
        case RawNumber(kind) =>
          stats := stats.(numbers := stats.numbers + 1);
          return Chars(Label(kind));
        case RawAtom(width) => return Atom(width);
      }
    }

    method VisitMapping(entries: seq<RawEntry>, depth: nat) returns (value: Json)
      requires depth <= MAX_DEPTH
      modifies this`stats
      ensures value == VisitMap(hash, entries, depth).value
      ensures stats == Add(old(stats), VisitMap(hash, entries, depth).stats)
      decreases MAX_DEPTH - depth, 2
    {
      if depth >= MAX_DEPTH {
        stats := stats.(depths := stats.depths + 1);
        return Chars(DEPTH_MARKER);
      }
      CountDropped(|entries|);
      var fields := VisitEntries(TakeItems(SortedByKey(entries)), depth);
      return Object(fields);
    }

    method VisitSequence(items: seq<Raw>, depth: nat) returns (value: Json)
      requires depth <= MAX_DEPTH
      modifies this`stats
      ensures value == VisitList(hash, items, depth).value
      ensures stats == Add(old(stats), VisitList(hash, items, depth).stats)
      decreases MAX_DEPTH - depth, 2
    {
      if depth >= MAX_DEPTH {
        stats := stats.(depths := stats.depths + 1);
        return Chars(DEPTH_MARKER);
      }
      CountDropped(|items|);
      var values := VisitAll(TakeItems(items), depth);
      return List(values);
    }

    method VisitAll(items: seq<Raw>, depth: nat) returns (values: seq<Json>)
      requires depth < MAX_DEPTH
      modifies this`stats
      ensures values == VisitItems(Deeper(hash, depth), items).values
      ensures stats == Add(old(stats), VisitItems(Deeper(hash, depth), items).stats)
      decreases MAX_DEPTH - depth, 0
    {
      values := [];
      var i := 0;
      while i < |items|
        invariant 0 <= i <= |items| && values == VisitItems(Deeper(hash, depth), items[..i]).values
        invariant stats == Add(old(stats), VisitItems(Deeper(hash, depth), items[..i]).stats)
      {
        assert items[..i + 1][..i] == items[..i];
        var value := VisitValue(items[i], depth + 1);
        values := values + [value];
        i := i + 1;
      }
      assert items[..i] == items;
    }

    method VisitEntries(entries: seq<RawEntry>, depth: nat) returns (fields: seq<Entry>)
      requires depth < MAX_DEPTH
      modifies this`stats
      ensures fields == VisitFields(hash, Deeper(hash, depth), entries).entries
      ensures stats == Add(old(stats), VisitFields(hash, Deeper(hash, depth), entries).stats)
      decreases MAX_DEPTH - depth, 1
    {
      fields := [];
      var i := 0;
      while i < |entries|
        invariant 0 <= i <= |entries| && fields == VisitFields(hash, Deeper(hash, depth), entries[..i]).entries
        invariant stats == Add(old(stats), VisitFields(hash, Deeper(hash, depth), entries[..i]).stats)
      {
        OneMoreEntry(hash, Deeper(hash, depth), old(stats), entries, i);
        fields := VisitEntry(fields, entries[i], depth);
        i := i + 1;
      }
      assert entries[..i] == entries;
    }

    method VisitEntry(fields: seq<Entry>, e: RawEntry, depth: nat) returns (r: seq<Entry>)
      requires depth < MAX_DEPTH
      modifies this`stats
      ensures var next := NextField(hash, Deeper(hash, depth), Fields(fields, Nothing()), e);
              r == next.entries && stats == Add(old(stats), next.stats)
      decreases MAX_DEPTH - depth, 0
    {
      r := fields;
      var key := BoundedKey(e.key);
      if HasKey(fields, key) { return; }
      var value := VisitValue(e.value, depth + 1);
      r := r + [Entry(key, value)];
    }

    method FitBudget(value: Json) returns (r: Json)
      modifies this`stats
      ensures Visited(r, stats) == Fitted(Visited(value, old(stats)))
    {
      if Fits(value) { return value; }
      r := FitValueToBudget(value);
      stats := OverBudget(stats);
    }

    /** `_bounded_json_value`, with fresh counters. */
    method Bounded(raw: Raw) returns (value: Json)
      requires stats == Nothing()
      modifies this`stats
      ensures Visited(value, stats) == BoundedJson(hash, raw)
    {
      AddNothing(Visit(hash, raw, 0).stats);
      value := VisitValue(raw, 0);
      value := FitBudget(value);
    }
  }
}
