/** What is shown of each part of a value, and what the counters count. */
module DetailMeaning {
  import opened Basics
  import Sorting
  import opened Budget
  import opened Detail

  // ---- Texts -----------------------------------------------------------------------------------------

  /** A text of at most 512 characters is shown as it is, a longer one as its first 511 and an ellipsis. */
  ghost function ShownText(s: Text): Text {
    if |s| <= 512 then s else s[..511] + [0x2026]
  }

  /** A long key ends in an ellipsis and the first twelve digits of its digest, 512 characters in all. */
  ghost function ShownKey(h: Hash, s: Text): Text {
    if |s| <= 512 then s
    else
      var digits := if |h(s)| > 12 then h(s)[..12] else h(s);
      s[..510 - |digits|] + [0x2026, '#' as int] + digits
  }

  ghost function NumberLabel(kind: NotFinite): Text {
    if kind == NotANumber then Codes("[non-finite number: NaN]")
    else if kind == Infinite then Codes("[non-finite number: Infinity]")
    else Codes("[non-finite number: -Infinity]")
  }

  /** The seven counters by number: texts cut, characters left out, collections cut, members left out, depth
      reached, budget passed, numbers replaced. */
  ghost function Counter(s: Stats, c: nat): nat {
    if c == 0 then s.texts else if c == 1 then s.characters else if c == 2 then s.collections else if c == 3 then s.items
    else if c == 4 then s.depths else if c == 5 then s.budgets else if c == 6 then s.numbers else 0
  }

  /** A text that is cut counts once, with the characters that are not shown. */
  ghost function TextCount(s: Text, kept: nat, c: nat): nat
    requires kept <= |s|
  {
    if |s| > 512 && c == 0 then 1 else if |s| > 512 && c == 1 then |s| - kept else 0
  }

  lemma BoundTextMeans(s: Text, c: nat)
    ensures BoundText(s).text == ShownText(s)
    ensures Counter(BoundText(s).stats, c) == TextCount(s, if |s| > 512 then 511 else |s|, c)
  {
  }

  /** The characters of a long key that are shown. */
  ghost function KeyKept(h: Hash, s: Text): (k: nat)
    ensures k <= |s|
  {
    if |s| <= 512 then |s| else if |h(s)| > 12 then 498 else 510 - |h(s)|
  }

  lemma BoundKeyMeans(h: Hash, s: Text, c: nat)
    ensures BoundKey(h, s).text == ShownKey(h, s) && |ShownKey(h, s)| <= 512
    ensures Counter(BoundKey(h, s).stats, c) == TextCount(s, KeyKept(h, s), c)
    ensures |s| > 512 ==> |ShownKey(h, s)| == 512 && ShownKey(h, s)[..KeyKept(h, s)] == s[..KeyKept(h, s)]
  {
    if |s| > 512 {
      var digits := if |h(s)| > 12 then h(s)[..12] else h(s);
      assert Suffix(h, s) == [0x2026, 0x23] + digits;
      assert s[..510 - |digits|] + ([0x2026, 0x23] + digits) == s[..510 - |digits|] + [0x2026, 0x23] + digits;
    }
  }

  // ---- Lists -----------------------------------------------------------------------------------------

  ghost function Sum(xs: seq<nat>): nat {
    if xs == [] then 0 else Sum(xs[..|xs| - 1]) + xs[|xs| - 1]
  }

  lemma SumSnoc(xs: seq<nat>, x: nat)
    ensures Sum(xs + [x]) == Sum(xs) + x
  {
    assert (xs + [x])[..|xs|] == xs;
  }

  ghost function ItemCounts(visit: Visiting, items: seq<Raw>, c: nat): seq<nat> {
    seq(|items|, i requires 0 <= i < |items| => Counter(visit(items[i]).stats, c))
  }

  lemma {:induction false} ItemsMean(visit: Visiting, items: seq<Raw>, c: nat)
    ensures forall i | 0 <= i < |items| :: VisitItems(visit, items).values[i] == visit(items[i]).value
    ensures Counter(VisitItems(visit, items).stats, c) == Sum(ItemCounts(visit, items, c))
  {
    if items != [] {
      var n := |items| - 1;
      ItemsMean(visit, items[..n], c);
      assert ItemCounts(visit, items, c) == ItemCounts(visit, items[..n], c) + [Counter(visit(items[n]).stats, c)];
      SumSnoc(ItemCounts(visit, items[..n], c), Counter(visit(items[n]).stats, c));
    }
  }

  // ---- Objects ---------------------------------------------------------------------------------------

  /** The first entry whose key is shown so; past the end if there is none. */
  ghost function FirstShown(h: Hash, entries: seq<RawEntry>, key: Text): nat {
    if entries == [] then 0
    else
      var k := FirstShown(h, entries[..|entries| - 1], key);
      if k < |entries| - 1 || ShownKey(h, entries[|entries| - 1].key) == key then k else |entries|
  }

  lemma {:induction false} FirstShownIs(h: Hash, entries: seq<RawEntry>, key: Text)
    ensures var k := FirstShown(h, entries, key);
            && k <= |entries| && (k < |entries| ==> ShownKey(h, entries[k].key) == key)
            && forall j | 0 <= j < k :: ShownKey(h, entries[j].key) != key
  {
    if entries != [] { FirstShownIs(h, entries[..|entries| - 1], key); }
  }

  ghost predicate KeysMatch(h: Hash, entries: seq<RawEntry>, fields: seq<Entry>) {
    forall key {:trigger FirstShown(h, entries, key)} :: HasKey(fields, key) <==> FirstShown(h, entries, key) < |entries|
  }

  /** Each key is shown once, where it first occurs, with the value it has there. */
  ghost predicate FieldsMatch(h: Hash, visit: Visiting, entries: seq<RawEntry>, fields: seq<Entry>) {
    && (forall i | 0 <= i < |fields| ::
          var k := FirstShown(h, entries, fields[i].key);
          k < |entries| && fields[i].value == visit(entries[k].value).value)
    && (forall i, j | 0 <= i < j < |fields| ::
          FirstShown(h, entries, fields[i].key) < FirstShown(h, entries, fields[j].key))
    && KeysMatch(h, entries, fields)
  }

  /** An entry counts its key, and its value if it is the first of its key. */
  ghost function EntryCount(h: Hash, visit: Visiting, entries: seq<RawEntry>, k: nat, c: nat): nat
    requires k < |entries|
  {
    TextCount(entries[k].key, KeyKept(h, entries[k].key), c)
    + if FirstShown(h, entries, ShownKey(h, entries[k].key)) == k then Counter(visit(entries[k].value).stats, c) else 0
  }

  ghost function EntryCounts(h: Hash, visit: Visiting, entries: seq<RawEntry>, c: nat): seq<nat> {
    seq(|entries|, k requires 0 <= k < |entries| => EntryCount(h, visit, entries, k, c))
  }

  lemma FirstShownSnoc(h: Hash, entries: seq<RawEntry>, key: Text)
    requires entries != []
    ensures var n := |entries| - 1;
            var k := FirstShown(h, entries[..n], key);
            FirstShown(h, entries, key) ==
            if k < n then k else if ShownKey(h, entries[n].key) == key then n else n + 1
  {
    FirstShownIs(h, entries[..|entries| - 1], key);
  }

  lemma CountsSnoc(h: Hash, visit: Visiting, entries: seq<RawEntry>, c: nat)
    requires entries != []
    ensures var n := |entries| - 1;
            EntryCounts(h, visit, entries, c) ==
            EntryCounts(h, visit, entries[..n], c) + [EntryCount(h, visit, entries, n, c)]
  {
    var n := |entries| - 1;
    forall k | 0 <= k < n ensures EntryCount(h, visit, entries, k, c) == EntryCount(h, visit, entries[..n], k, c) {
      FirstShownSnoc(h, entries, ShownKey(h, entries[k].key));
      FirstShownIs(h, entries[..n], ShownKey(h, entries[k].key));
      assert entries[..n][k] == entries[k];
    }
  }

  function WithField(fields: seq<Entry>, e: Entry): seq<Entry> {
    if HasKey(fields, e.key) then fields else fields + [e]
  }

  lemma KeysSnoc(h: Hash, entries: seq<RawEntry>, fields: seq<Entry>, e: Entry)
    requires entries != [] && KeysMatch(h, entries[..|entries| - 1], fields)
    requires e.key == ShownKey(h, entries[|entries| - 1].key)
    ensures KeysMatch(h, entries, WithField(fields, e))
  {
    forall key ensures HasKey(WithField(fields, e), key) <==> FirstShown(h, entries, key) < |entries| {
      FirstShownSnoc(h, entries, key);
      HasKeySnoc(fields, e, key);
    }
  }

  lemma NewFieldIsFirst(h: Hash, entries: seq<RawEntry>, fields: seq<Entry>)
    requires entries != [] && KeysMatch(h, entries[..|entries| - 1], fields)
    ensures var n := |entries| - 1;
            var key := ShownKey(h, entries[n].key);
            !HasKey(fields, key) <==> FirstShown(h, entries, key) == n
  {
    var n := |entries| - 1;
    var key := ShownKey(h, entries[n].key);
    FirstShownSnoc(h, entries, key);
    FirstShownIs(h, entries[..n], key);
  }

  lemma FieldsSnoc(h: Hash, visit: Visiting, entries: seq<RawEntry>, fields: seq<Entry>, e: Entry)
    requires entries != [] && FieldsMatch(h, visit, entries[..|entries| - 1], fields)
    requires e == Entry(ShownKey(h, entries[|entries| - 1].key), visit(entries[|entries| - 1].value).value)
    ensures FieldsMatch(h, visit, entries, WithField(fields, e))
  {
    var n, more := |entries| - 1, WithField(fields, e);
    KeysSnoc(h, entries, fields, e);
    NewFieldIsFirst(h, entries, fields);
    forall i | 0 <= i < |fields|
      ensures FirstShown(h, entries, fields[i].key) == FirstShown(h, entries[..n], fields[i].key) < n
    {
      FirstShownSnoc(h, entries, fields[i].key);
    }
    forall i | 0 <= i < |more|
      ensures FirstShown(h, entries, more[i].key) < |entries|
      ensures more[i].value == visit(entries[FirstShown(h, entries, more[i].key)].value).value
    {
      if i < |fields| { assert more[i] == fields[i]; }
    }
  }

  lemma HasKeySnoc(fields: seq<Entry>, e: Entry, key: Text)
    ensures HasKey(fields + [e], key) <==> HasKey(fields, key) || e.key == key
  {
    if HasKey(fields, key) {
      var i :| 0 <= i < |fields| && fields[i].key == key;
      assert (fields + [e])[i].key == key;
    }
    assert (fields + [e])[|fields|] == e;
  }

  lemma NextFieldIs(h: Hash, visit: Visiting, rest: Fields, e: RawEntry, c: nat)
    ensures var r := NextField(h, visit, rest, e);
            && r.entries == WithField(rest.entries, Entry(ShownKey(h, e.key), visit(e.value).value))
            && Counter(r.stats, c) == Counter(rest.stats, c) + TextCount(e.key, KeyKept(h, e.key), c)
                 + if HasKey(rest.entries, ShownKey(h, e.key)) then 0 else Counter(visit(e.value).stats, c)
  {
    BoundKeyMeans(h, e.key, c);
  }

  lemma CountNext(h: Hash, visit: Visiting, entries: seq<RawEntry>, rest: Fields, c: nat)
    requires entries != [] && KeysMatch(h, entries[..|entries| - 1], rest.entries)
    requires Counter(rest.stats, c) == Sum(EntryCounts(h, visit, entries[..|entries| - 1], c))
    ensures Counter(NextField(h, visit, rest, entries[|entries| - 1]).stats, c) == Sum(EntryCounts(h, visit, entries, c))
  {
    var n := |entries| - 1;
    NextFieldIs(h, visit, rest, entries[n], c);
    NewFieldIsFirst(h, entries, rest.entries);
    CountsSnoc(h, visit, entries, c);
    SumSnoc(EntryCounts(h, visit, entries[..n], c), EntryCount(h, visit, entries, n, c));
  }

  lemma {:induction false} FieldsMean(h: Hash, visit: Visiting, entries: seq<RawEntry>, c: nat)
    ensures FieldsMatch(h, visit, entries, VisitFields(h, visit, entries).entries)
    ensures Counter(VisitFields(h, visit, entries).stats, c) == Sum(EntryCounts(h, visit, entries, c))
  {
    if entries == [] {
      assert KeysMatch(h, entries, []);
    } else {
      var n := |entries| - 1;
      var e, rest := entries[n], VisitFields(h, visit, entries[..n]);
      FieldsMean(h, visit, entries[..n], c);
      NextFieldIs(h, visit, rest, e, c);
      FieldsSnoc(h, visit, entries, rest.entries, Entry(ShownKey(h, e.key), visit(e.value).value));
      CountNext(h, visit, entries, rest, c);
    }
  }

  // ---- The order of keys -----------------------------------------------------------------------------

  /** Python's order of texts: the first character that differs decides, and a beginning comes first. */
  ghost predicate TextLess(a: Text, b: Text) {
    exists k :: 0 <= k <= |a| && k < |b| && a[..k] == b[..k] && (k == |a| || a[k] < b[k])
  }

  lemma {:induction false} KeyLessMeans(a: Text, b: Text)
    ensures Sorting.Lex<int>(Sorting.IntLess, a, b) <==> TextLess(a, b)
  {
    if a == [] || b == [] {
      if b != [] { assert a[..0] == b[..0]; }
    } else {
      KeyLessMeans(a[1..], b[1..]);
      assert a == [a[0]] + a[1..] && b == [b[0]] + b[1..];
      if a[0] < b[0] { assert a[..0] == b[..0]; }
      if k :| 0 <= k <= |a| && k < |b| && a[..k] == b[..k] && (k == |a| || a[k] < b[k]) {
        if k > 0 {
          assert a[..k][0] == b[..k][0];
          assert a[1..][..k - 1] == a[..k][1..] && b[1..][..k - 1] == b[..k][1..];
        }
      }
      if a[0] == b[0] && TextLess(a[1..], b[1..]) {
        var k :|
          0 <= k <= |a[1..]| && k < |b[1..]| && a[1..][..k] == b[1..][..k] && (k == |a[1..]| || a[1..][k] < b[1..][k]);
        assert a[..k + 1] == [a[0]] + a[1..][..k] && b[..k + 1] == [b[0]] + b[1..][..k];
      }
    }
  }

  ghost predicate InOrder(s: seq<RawEntry>) {
    forall i, j | 0 <= i < j < |s| :: !KeyLess(s[j], s[i])
  }

  /** The entries of one key, in order. */
  ghost function Only(s: seq<RawEntry>, key: Text): seq<RawEntry> {
    if s == [] then [] else (if s[0].key == key then [s[0]] else []) + Only(s[1..], key)
  }

  lemma IntsStrict()
    ensures Sorting.Strict<int>(Sorting.IntLess)
  {
  }

  lemma KeysOrdered(a: seq<int>, b: seq<int>, c: seq<int>)
    ensures var less := (x: seq<int>, y: seq<int>) => Sorting.Lex<int>(Sorting.IntLess, x, y);
            && !(less(a, b) && less(b, a)) && !less(a, a)
            && (less(a, b) && !less(c, b) ==> less(a, c))
  {
    IntsStrict();
    Sorting.LexIrreflexive<int>(Sorting.IntLess, a);
    Sorting.LexTotal<int>(Sorting.IntLess, b, c);
    if Sorting.Lex<int>(Sorting.IntLess, a, b) {
      if Sorting.Lex<int>(Sorting.IntLess, b, a) { Sorting.LexTransitive<int>(Sorting.IntLess, a, b, a); }
      if Sorting.Lex<int>(Sorting.IntLess, b, c) { Sorting.LexTransitive<int>(Sorting.IntLess, a, b, c); }
    }
  }

  lemma KeysStrict(a: RawEntry, b: RawEntry, c: RawEntry)
    ensures !(KeyLess(a, b) && KeyLess(b, a)) && (a.key == b.key ==> !KeyLess(a, b))
    ensures KeyLess(a, b) && !KeyLess(c, b) ==> KeyLess(a, c)
  {
    KeysOrdered(a.key, b.key, c.key);
  }

  lemma {:induction false} NoneOfKey(s: seq<RawEntry>, key: Text)
    requires forall e | e in s :: e.key != key
    ensures Only(s, key) == []
  {
    if s != [] { NoneOfKey(s[1..], key); }
  }

  lemma LessThanAll(x: RawEntry, s: seq<RawEntry>)
    requires InOrder(s) && s != [] && KeyLess(x, s[0])
    ensures forall i | 0 <= i < |s| :: KeyLess(x, s[i]) && !KeyLess(s[i], x) && s[i].key != x.key
  {
    forall i | 0 <= i < |s| ensures KeyLess(x, s[i]) && !KeyLess(s[i], x) && s[i].key != x.key {
      assert i > 0 ==> !KeyLess(s[i], s[0]);
      KeysStrict(s[0], s[0], x);
      KeysStrict(x, s[0], s[i]);
      KeysStrict(x, s[i], x);
    }
  }

  lemma InsertedFirst(x: RawEntry, s: seq<RawEntry>, key: Text)
    requires InOrder(s) && s != [] && KeyLess(x, s[0])
    ensures InOrder([x] + s) && Only([x] + s, key) == Only(s, key) + if x.key == key then [x] else []
  {
    LessThanAll(x, s);
    if x.key == key {
      forall e | e in s ensures e.key != key { var i :| 0 <= i < |s| && s[i] == e; }
      NoneOfKey(s, key);
    }
    assert ([x] + s)[1..] == s;
  }

  lemma InsertedLater(x: RawEntry, s: seq<RawEntry>, rest: seq<RawEntry>)
    requires InOrder(s) && s != [] && !KeyLess(x, s[0])
    requires InOrder(rest) && multiset(rest) == multiset(s[1..]) + multiset{x}
    ensures InOrder([s[0]] + rest)
  {
    forall i | 0 <= i < |rest| ensures !KeyLess(rest[i], s[0]) {
      assert rest[i] in multiset(rest);
      if rest[i] != x {
        assert rest[i] in multiset(s[1..]);
        var j :| 0 <= j < |s[1..]| && s[1..][j] == rest[i];
        assert s[j + 1] == rest[i];
      }
    }
  }

  lemma {:induction false} InsertInOrder(x: RawEntry, s: seq<RawEntry>)
    requires InOrder(s)
    ensures InOrder(Sorting.Insert(KeyLess, x, s))
  {
    if s != [] && KeyLess(x, s[0]) {
      InsertedFirst(x, s, []);
    } else if s != [] {
      InsertInOrder(x, s[1..]);
      Sorting.InsertAdds(KeyLess, x, s[1..]);
      InsertedLater(x, s, Sorting.Insert(KeyLess, x, s[1..]));
    }
  }

  lemma OnlyCons(e: RawEntry, s: seq<RawEntry>, key: Text)
    ensures Only([e] + s, key) == (if e.key == key then [e] else []) + Only(s, key)
  {
    assert ([e] + s)[1..] == s;
  }

  lemma {:induction false} InsertKeepsOthers(x: RawEntry, s: seq<RawEntry>, key: Text)
    requires InOrder(s)
    ensures Only(Sorting.Insert(KeyLess, x, s), key) == Only(s, key) + if x.key == key then [x] else []
  {
    if s == [] {
      OnlyCons(x, [], key);
      assert [x] + [] == [x];
    } else if KeyLess(x, s[0]) {
      InsertedFirst(x, s, key);
    } else {
      InsertKeepsOthers(x, s[1..], key);
      OnlyCons(s[0], Sorting.Insert(KeyLess, x, s[1..]), key);
    }
  }

  lemma {:induction false} OnlySnoc(s: seq<RawEntry>, x: RawEntry, key: Text)
    ensures Only(s + [x], key) == Only(s, key) + if x.key == key then [x] else []
  {
    if s == [] {
      assert s + [x] == [x] && [x][1..] == [];
    } else {
      assert (s + [x])[1..] == s[1..] + [x];
      OnlySnoc(s[1..], x, key);
    }
  }

  lemma {:induction false} SortInOrder(s: seq<RawEntry>, key: Text)
    ensures InOrder(SortedByKey(s)) && Only(SortedByKey(s), key) == Only(s, key)
  {
    if s != [] {
      var n := |s| - 1;
      SortInOrder(s[..n], key);
      InsertInOrder(s[n], SortedByKey(s[..n]));
      InsertKeepsOthers(s[n], SortedByKey(s[..n]), key);
      OnlySnoc(s[..n], s[n], key);
      assert s[..n] + [s[n]] == s;
    }
  }

  /** `sorted`: the same entries, in the order of their keys, those of one key as they stood. */
  ghost predicate SortedOf(entries: seq<RawEntry>, s: seq<RawEntry>) {
    && multiset(s) == multiset(entries)
    && (forall i, j | 0 <= i < j < |s| :: !TextLess(s[j].key, s[i].key))
    && (forall key :: Only(s, key) == Only(entries, key))
  }

  lemma SortedMeans(entries: seq<RawEntry>)
    ensures SortedOf(entries, SortedByKey(entries))
  {
    var s := SortedByKey(entries);
    Sorting.SortPermutes(KeyLess, entries);
    SortInOrder(entries, []);
    forall key ensures Only(s, key) == Only(entries, key) { SortInOrder(entries, key); }
    forall i, j | 0 <= i < j < |s| ensures !TextLess(s[j].key, s[i].key) { KeyLessMeans(s[j].key, s[i].key); }
  }

  // ---- One value -------------------------------------------------------------------------------------

  ghost function Least(a: nat, b: nat): nat {
    if a < b then a else b
  }

  /** A collection that is cut counts once, with the members left out. */
  ghost function CutCount(n: nat, c: nat): nat {
    if n > 32 && c == 2 then 1 else if n > 32 && c == 3 then n - 32 else 0
  }

  /** What is shown of a value this far down, in terms of what is shown of its members: a text cut, a number that is
      not finite named, of a list the first 32 members, of a mapping the first 32 entries by key with each shown
      key once; below four levels only the marker. And every counter is the sum over the parts. */
  ghost predicate ShowsOf(h: Hash, raw: Raw, depth: nat, v: Visited)
    requires depth <= 4
  {
    match raw
    case RawAtom(width) => v == Visited(Atom(width), Stats(0, 0, 0, 0, 0, 0, 0))
    case RawNumber(kind) => v == Visited(Chars(NumberLabel(kind)), Stats(0, 0, 0, 0, 0, 0, 1))
    case RawText(s) =>
      v.value == Chars(ShownText(s)) && forall c :: Counter(v.stats, c) == TextCount(s, Least(|s|, 511), c)
    case RawOther(s) =>
      v.value == Chars(ShownText(s)) && forall c :: Counter(v.stats, c) == TextCount(s, Least(|s|, 511), c)
    case RawList(items) =>
      if depth == 4 then v == Visited(Chars(Codes("[truncated: maximum detail depth]")), Stats(0, 0, 0, 0, 1, 0, 0))
      else
        var kept := items[..Least(|items|, 32)];
        var visit := Deeper(h, depth);
        && v.value.List? && |v.value.items| == |kept|
        && (forall i | 0 <= i < |kept| :: v.value.items[i] == visit(kept[i]).value)
        && forall c :: Counter(v.stats, c) == CutCount(|items|, c) + Sum(ItemCounts(visit, kept, c))
    case RawMap(entries) =>
      if depth == 4 then v == Visited(Chars(Codes("[truncated: maximum detail depth]")), Stats(0, 0, 0, 0, 1, 0, 0))
      else
        v.value.Object? && exists s ::
          SortedOf(entries, s) && ShowsEntries(h, Deeper(h, depth), s, v.value.entries, v.stats)
  }

  ghost predicate ShowsEntries(h: Hash, visit: Visiting, s: seq<RawEntry>, fields: seq<Entry>, stats: Stats) {
    var kept := s[..Least(|s|, 32)];
    && FieldsMatch(h, visit, kept, fields)
    && forall c :: Counter(stats, c) == CutCount(|s|, c) + Sum(EntryCounts(h, visit, kept, c))
  }

  lemma AddCounts(a: Stats, b: Stats, c: nat)
    ensures Counter(Add(a, b), c) == Counter(a, c) + Counter(b, c)
  {
  }

  lemma DroppedCounts(n: nat, c: nat)
    ensures Counter(Dropped(n), c) == CutCount(n, c)
  {
  }

  lemma ListMeans(h: Hash, items: seq<Raw>, depth: nat)
    requires depth <= 4
    ensures ShowsOf(h, RawList(items), depth, Visit(h, RawList(items), depth))
  {
    if depth < 4 {
      var kept, visit := TakeItems(items), Deeper(h, depth);
      assert kept == items[..Least(|items|, 32)];
      var visited := VisitItems(visit, kept);
      forall c
        ensures Counter(Add(Dropped(|items|), visited.stats), c) == CutCount(|items|, c) + Sum(ItemCounts(visit, kept, c))
      {
        ItemsMean(visit, kept, c);
        AddCounts(Dropped(|items|), visited.stats, c);
        DroppedCounts(|items|, c);
      }
      ItemsMean(visit, kept, 0);
    }
  }

  lemma MapMeans(h: Hash, entries: seq<RawEntry>, depth: nat)
    requires depth <= 4
    ensures ShowsOf(h, RawMap(entries), depth, Visit(h, RawMap(entries), depth))
  {
    if depth < 4 {
      var s, visit := SortedByKey(entries), Deeper(h, depth);
      var kept := TakeItems(s);
      assert kept == s[..Least(|s|, 32)];
      SortedMeans(entries);
      var fields := VisitFields(h, visit, kept);
      forall c
        ensures Counter(Add(Dropped(|s|), fields.stats), c) == CutCount(|s|, c) + Sum(EntryCounts(h, visit, kept, c))
      {
        FieldsMean(h, visit, kept, c);
        AddCounts(Dropped(|s|), fields.stats, c);
        DroppedCounts(|s|, c);
      }
      FieldsMean(h, visit, kept, 0);
      assert ShowsEntries(h, visit, s, fields.entries, Add(Dropped(|s|), fields.stats));
    }
  }

  /** What is shown of every value, at every depth. */
  lemma VisitMeans(h: Hash, raw: Raw, depth: nat)
    requires depth <= 4
    ensures ShowsOf(h, raw, depth, Visit(h, raw, depth))
    ensures depth < 4 ==> forall r :: Deeper(h, depth)(r) == Visit(h, r, depth + 1)
  {
    match raw
    case RawList(items) => ListMeans(h, items, depth);
    case RawMap(entries) => MapMeans(h, entries, depth);
    case RawText(s) => forall c { BoundTextMeans(s, c); }
    case RawOther(s) => forall c { BoundTextMeans(s, c); }
    case _ =>
  }

  /** The whole: shown from the top, and shortened once more, which counts, exactly if it is over the budget. */
  lemma BoundedMeans(h: Hash, raw: Raw)
    ensures var whole, shown := Visit(h, raw, 0), BoundedJson(h, raw);
            && (JsonSize(whole.value) <= 8192 ==> shown == whole)
            && (JsonSize(whole.value) > 8192 ==>
                  && shown.value == FitValue(whole.value)
                  && forall c :: Counter(shown.stats, c) == Counter(whole.stats, c) + if c == 5 then 1 else 0)
  {
  }
}
