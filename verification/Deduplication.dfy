/** Records and edges shown once each, whatever order they arrive in. */
module Deduplication {
  import opened Basics
  import opened Sorting

  /** One component of a sort key: the code points of a text, or the truncation counters. */
  type Part = seq<int>

  /** The sort key of a projected record or edge: the parts that name it (an id, or two endpoints and a
      type), its canonical JSON and its truncation counters. It determines what is shown. */
  type Key = seq<Part>

  predicate PartLess(a: Part, b: Part) {
    Lex(IntLess, a, b)
  }

  predicate KeyLess(a: Key, b: Key) {
    Lex(PartLess, a, b)
  }

  lemma PartLessIsStrict()
    ensures Strict(PartLess)
  {
    forall a: Part ensures !PartLess(a, a) { LexIrreflexive(IntLess, a); }
    forall a: Part, b: Part, c: Part | PartLess(a, b) && PartLess(b, c) ensures PartLess(a, c) {
      LexTransitive(IntLess, a, b, c);
    }
    forall a: Part, b: Part ensures a == b || PartLess(a, b) || PartLess(b, a) { LexTotal(IntLess, a, b); }
  }

  lemma KeyLessIsStrict()
    ensures Strict(KeyLess)
  {
    PartLessIsStrict();
    forall a: Key ensures !KeyLess(a, a) { LexIrreflexive(PartLess, a); }
    forall a: Key, b: Key, c: Key | KeyLess(a, b) && KeyLess(b, c) ensures KeyLess(a, c) {
      LexTransitive(PartLess, a, b, c);
    }
    forall a: Key, b: Key ensures a == b || KeyLess(a, b) || KeyLess(b, a) { LexTotal(PartLess, a, b); }
  }

  /** What names a record: the first n parts of its key. */
  function Name(key: Key, n: nat): Key {
    if |key| <= n then key else key[..n]
  }

  predicate HasName(keys: seq<Key>, name: Key, n: nat) {
    exists i | 0 <= i < |keys| :: Name(keys[i], n) == name
  }

  /** `setdefault` over the sorted candidates: the first of each name stays. */
  function FirstOfEach(sorted: seq<Key>, n: nat): (r: seq<Key>)
    ensures forall key | key in r :: key in sorted
    decreases sorted
  {
    if sorted == [] then []
    else
      var rest := FirstOfEach(sorted[..|sorted| - 1], n);
      var last := sorted[|sorted| - 1];
      if HasName(rest, Name(last, n), n) then rest else rest + [last]
  }

  /** The candidates of a list of rows; rows without an id or an endpoint have none. */
  function Candidates<R>(project: R -> Option<Key>, rows: seq<R>): seq<Key> {
    if rows == [] then []
    else
      var rest := Candidates(project, rows[..|rows| - 1]);
      var key := project(rows[|rows| - 1]);
      if key.Some? then rest + [key.value] else rest
  }

  function Unique<R>(project: R -> Option<Key>, n: nat, rows: seq<R>): seq<Key> {
    FirstOfEach(Sort(KeyLess, Candidates(project, rows)), n)
  }

  /** `_unique_records` with n = 1, `_unique_graph_edges` with n = 3. */
  method UniqueRows<R>(project: R -> Option<Key>, n: nat, rows: seq<R>) returns (unique: seq<Key>)
    ensures unique == Unique(project, n, rows)
  {
    var candidates: seq<Key> := [];
    var i := 0;
    while i < |rows|
      invariant 0 <= i <= |rows| && candidates == Candidates(project, rows[..i])
    {
      assert rows[..i + 1][..i] == rows[..i];
      var key := project(rows[i]);
      if key.Some? { candidates := candidates + [key.value]; }
      i := i + 1;
    }
    assert rows[..i] == rows;
    var sorted := Sort(KeyLess, candidates);
    unique := [];
    i := 0;
    while i < |sorted|
      invariant 0 <= i <= |sorted| && unique == FirstOfEach(sorted[..i], n)
    {
      assert sorted[..i + 1][..i] == sorted[..i];
      if !HasName(unique, Name(sorted[i], n), n) { unique := unique + [sorted[i]]; }
      i := i + 1;
    }
    assert sorted[..i] == sorted;
  }

  // ---- Permutations ---------------------------------------------------------------------------------------

  lemma {:induction false} CandidatesWithout<R>(project: R -> Option<Key>, rows: seq<R>, i: nat)
    requires i < |rows|
    ensures multiset(Candidates(project, rows)) ==
            multiset(Candidates(project, rows[..i] + rows[i + 1..])) +
            (if project(rows[i]).Some? then multiset{project(rows[i]).value} else multiset{})
  {
    var n := |rows| - 1;
    var rest := rows[..i] + rows[i + 1..];
    if i == n {
      assert rest == rows[..n];
    } else {
      TakeOutEarlier(rows, i);
      CandidatesWithout(project, rows[..n], i);
    }
  }

  lemma {:induction false} CandidatesOfPermutation<R>(project: R -> Option<Key>, a: seq<R>, b: seq<R>)
    requires multiset(a) == multiset(b)
    ensures multiset(Candidates(project, a)) == multiset(Candidates(project, b))
    decreases a
  {
    assert |multiset(a)| == |a| && |multiset(b)| == |b|;
    if a != [] {
      var n := |a| - 1;
      assert a[n] in multiset(b);
      var i :| 0 <= i < |b| && b[i] == a[n];
      WithoutOne(a, n);
      WithoutOne(b, i);
      assert a[..n] + a[n + 1..] == a[..n];
      CandidatesOfPermutation(project, a[..n], b[..i] + b[i + 1..]);
      CandidatesWithout(project, b, i);
    }
  }

  /** The same rows in any order give the same output. */
  lemma OrderDoesNotMatter<R>(project: R -> Option<Key>, n: nat, a: seq<R>, b: seq<R>)
    requires multiset(a) == multiset(b)
    ensures Unique(project, n, a) == Unique(project, n, b)
  {
    KeyLessIsStrict();
    CandidatesOfPermutation(project, a, b);
    SortOfPermutation(KeyLess, Candidates(project, a), Candidates(project, b));
  }

  // ---- What is kept ------------------------------------------------------------------------------------------

  /** Distinct names, in the order of the keys. */
  ghost predicate Listed(r: seq<Key>, n: nat) {
    forall i, j | 0 <= i < j < |r| :: Name(r[i], n) != Name(r[j], n) && !KeyLess(r[j], r[i])
  }

  ghost predicate Covers(r: seq<Key>, all: seq<Key>, n: nat) {
    forall key | key in all :: HasName(r, Name(key, n), n)
  }

  ghost predicate Least(r: seq<Key>, all: seq<Key>, n: nat) {
    forall key, other | key in r && other in all && Name(other, n) == Name(key, n) :: !KeyLess(other, key)
  }

  /** One key for each name among the candidates, the least of them, in order. */
  ghost predicate Represents(r: seq<Key>, all: seq<Key>, n: nat) {
    Listed(r, n) && Covers(r, all, n) && Least(r, all, n) && forall key | key in r :: key in all
  }

  lemma LongerCovers(r: seq<Key>, all: seq<Key>, last: Key, n: nat)
    requires Covers(r, all, n)
    ensures Covers(r + [last], all + [last], n)
  {
    var longer := r + [last];
    assert longer[|r|] == last && HasName(longer, Name(last, n), n);
    forall key | key in all ensures HasName(longer, Name(key, n), n) {
      var i :| 0 <= i < |r| && Name(r[i], n) == Name(key, n);
      assert longer[i] == r[i];
    }
  }

  lemma LongerIsListed(r: seq<Key>, last: Key, n: nat)
    requires Listed(r, n) && !HasName(r, Name(last, n), n)
    requires forall key | key in r :: !KeyLess(last, key)
    ensures Listed(r + [last], n)
  {
  }

  lemma LongerIsLeast(r: seq<Key>, all: seq<Key>, last: Key, n: nat)
    requires Least(r, all, n) && Covers(r, all, n) && !HasName(r, Name(last, n), n) && Strict(KeyLess)
    ensures Least(r + [last], all + [last], n)
  {
    forall key | key in r ensures Name(key, n) != Name(last, n) {
      var i :| 0 <= i < |r| && r[i] == key;
    }
    forall other | other in all ensures Name(other, n) != Name(last, n) {}
  }

  lemma LastIsNew(r: seq<Key>, all: seq<Key>, last: Key, n: nat)
    requires Represents(r, all, n) && Strict(KeyLess)
    requires !HasName(r, Name(last, n), n) && forall key | key in all :: !KeyLess(last, key)
    ensures Represents(r + [last], all + [last], n)
  {
    LongerIsListed(r, last, n);
    LongerCovers(r, all, last, n);
    LongerIsLeast(r, all, last, n);
  }

  lemma LastIsKnown(r: seq<Key>, all: seq<Key>, last: Key, n: nat)
    requires Represents(r, all, n) && HasName(r, Name(last, n), n) && forall key | key in all :: !KeyLess(last, key)
    ensures Represents(r, all + [last], n)
  {
  }

  lemma {:induction false} FirstOfEachMeans(sorted: seq<Key>, n: nat)
    requires Strict(KeyLess) && Sorted(KeyLess, sorted)
    ensures Represents(FirstOfEach(sorted, n), sorted, n)
    decreases sorted
  {
    if sorted != [] {
      var m := |sorted| - 1;
      FirstOfEachMeans(sorted[..m], n);
      var rest, last := FirstOfEach(sorted[..m], n), sorted[m];
      assert sorted == sorted[..m] + [last];
      forall key | key in sorted[..m] ensures !KeyLess(last, key) {
        var k :| 0 <= k < m && sorted[k] == key;
      }
      if HasName(rest, Name(last, n), n) {
        LastIsKnown(rest, sorted[..m], last, n);
      } else {
        LastIsNew(rest, sorted[..m], last, n);
      }
    }
  }

  lemma SameElementsRepresent(r: seq<Key>, a: seq<Key>, b: seq<Key>, n: nat)
    requires Represents(r, a, n) && forall key :: key in a <==> key in b
    ensures Represents(r, b, n)
  {
  }

  /** The output lists each name among the candidates once, in order, with its least candidate. */
  lemma UniqueMeans<R>(project: R -> Option<Key>, n: nat, rows: seq<R>)
    ensures Represents(Unique(project, n, rows), Candidates(project, rows), n)
  {
    KeyLessIsStrict();
    var all := Candidates(project, rows);
    var sorted := Sort(KeyLess, all);
    SortSorts(KeyLess, all);
    SortPermutes(KeyLess, all);
    forall key ensures key in sorted <==> key in all {
      assert key in multiset(sorted) <==> key in multiset(all);
    }
    FirstOfEachMeans(sorted, n);
    SameElementsRepresent(FirstOfEach(sorted, n), sorted, all, n);
  }
}
