/** Lexicographic order and stable insertion, for the places where the program calls `sorted`. */
module Sorting {
  /** A strict total order. */
  ghost predicate Strict<T(!new)>(lt: (T, T) -> bool) {
    && (forall a :: !lt(a, a))
    && (forall a, b, c :: lt(a, b) && lt(b, c) ==> lt(a, c))
    && (forall a, b :: a == b || lt(a, b) || lt(b, a))
  }

  predicate IntLess(a: int, b: int) {
    a < b
  }

  /** Python compares sequences element by element. */
  predicate Lex<T(==)>(lt: (T, T) -> bool, a: seq<T>, b: seq<T>) {
    b != [] && (a == [] || lt(a[0], b[0]) || (a[0] == b[0] && Lex(lt, a[1..], b[1..])))
  }

  lemma {:induction false} LexIrreflexive<T(!new)>(lt: (T, T) -> bool, a: seq<T>)
    requires Strict(lt)
    ensures !Lex(lt, a, a)
  {
    if a != [] { LexIrreflexive(lt, a[1..]); }
  }

  lemma {:induction false} LexTransitive<T(!new)>(lt: (T, T) -> bool, a: seq<T>, b: seq<T>, c: seq<T>)
    requires Strict(lt) && Lex(lt, a, b) && Lex(lt, b, c)
    ensures Lex(lt, a, c)
  {
    if a != [] && a[0] == b[0] == c[0] { LexTransitive(lt, a[1..], b[1..], c[1..]); }
  }

  lemma {:induction false} LexTotal<T(!new)>(lt: (T, T) -> bool, a: seq<T>, b: seq<T>)
    requires Strict(lt)
    ensures a == b || Lex(lt, a, b) || Lex(lt, b, a)
  {
    if a != [] && b != [] && a[0] == b[0] {
      LexTotal(lt, a[1..], b[1..]);
      if a[1..] == b[1..] { assert a == [a[0]] + a[1..] && b == [b[0]] + b[1..]; }
    }
  }

  /** Insertion after everything that is not greater. */
  function Insert<T>(lt: (T, T) -> bool, x: T, s: seq<T>): (r: seq<T>)
    ensures |r| == |s| + 1
  {
    if s == [] then [x]
    else if lt(x, s[0]) then [x] + s
    else [s[0]] + Insert(lt, x, s[1..])
  }

  /** `sorted`: stable, because later elements go after equal ones. */
  function Sort<T>(lt: (T, T) -> bool, s: seq<T>): (r: seq<T>)
    ensures |r| == |s|
  {
    if s == [] then [] else Insert(lt, s[|s| - 1], Sort(lt, s[..|s| - 1]))
  }

  lemma {:induction false} InsertAdds<T>(lt: (T, T) -> bool, x: T, s: seq<T>)
    ensures multiset(Insert(lt, x, s)) == multiset(s) + multiset{x}
  {
    if s != [] && !lt(x, s[0]) {
      InsertAdds(lt, x, s[1..]);
      assert s == [s[0]] + s[1..];
    }
  }

  lemma {:induction false} SortPermutes<T>(lt: (T, T) -> bool, s: seq<T>)
    ensures multiset(Sort(lt, s)) == multiset(s)
  {
    if s != [] {
      SortPermutes(lt, s[..|s| - 1]);
      InsertAdds(lt, s[|s| - 1], Sort(lt, s[..|s| - 1]));
      assert s == s[..|s| - 1] + [s[|s| - 1]];
    }
  }

  ghost predicate Sorted<T>(lt: (T, T) -> bool, s: seq<T>) {
    forall i, j | 0 <= i < j < |s| :: !lt(s[j], s[i])
  }

  lemma {:induction false} InsertSorts<T(!new)>(lt: (T, T) -> bool, x: T, s: seq<T>)
    requires Strict(lt) && Sorted(lt, s)
    ensures Sorted(lt, Insert(lt, x, s))
  {
    if s != [] && !lt(x, s[0]) {
      InsertSorts(lt, x, s[1..]);
      InsertAdds(lt, x, s[1..]);
      var rest := Insert(lt, x, s[1..]);
      forall y | y in rest ensures !lt(y, s[0]) {
        assert y in multiset(rest);
        assert y == x || y in multiset(s[1..]);
      }
    }
  }

  lemma {:induction false} SortSorts<T(!new)>(lt: (T, T) -> bool, s: seq<T>)
    requires Strict(lt)
    ensures Sorted(lt, Sort(lt, s))
  {
    if s != [] {
      SortSorts(lt, s[..|s| - 1]);
      InsertSorts(lt, s[|s| - 1], Sort(lt, s[..|s| - 1]));
    }
  }

  /** The order of two insertions does not matter. */
  lemma {:induction false} InsertsCommute<T(!new)>(lt: (T, T) -> bool, x: T, y: T, s: seq<T>)
    requires Strict(lt)
    ensures Insert(lt, x, Insert(lt, y, s)) == Insert(lt, y, Insert(lt, x, s))
  {
    if s != [] {
      assert ([x] + s)[1..] == s && ([y] + s)[1..] == s;
      if !lt(x, s[0]) && !lt(y, s[0]) {
        InsertsCommute(lt, x, y, s[1..]);
      }
    }
  }

  /** Taking out an element before the last one. */
  lemma TakeOutEarlier<T>(s: seq<T>, i: nat)
    requires i < |s| - 1
    ensures var rest, n := s[..i] + s[i + 1..], |s| - 1;
            rest != [] && rest[..|rest| - 1] == s[..n][..i] + s[..n][i + 1..] && rest[|rest| - 1] == s[n]
  {
  }

  lemma PullOutStep<T(!new)>(lt: (T, T) -> bool, s: seq<T>, rest: seq<T>, x: T)
    requires Strict(lt) && s != [] && rest != [] && s[|s| - 1] == rest[|rest| - 1]
    requires Sort(lt, s[..|s| - 1]) == Insert(lt, x, Sort(lt, rest[..|rest| - 1]))
    ensures Sort(lt, s) == Insert(lt, x, Sort(lt, rest))
  {
    InsertsCommute(lt, s[|s| - 1], x, Sort(lt, rest[..|rest| - 1]));
  }

  lemma {:induction false} PullOut<T(!new)>(lt: (T, T) -> bool, s: seq<T>, i: nat)
    requires Strict(lt) && i < |s|
    ensures Sort(lt, s) == Insert(lt, s[i], Sort(lt, s[..i] + s[i + 1..]))
  {
    var n := |s| - 1;
    var rest := s[..i] + s[i + 1..];
    if i == n {
      assert rest == s[..n];
    } else {
      TakeOutEarlier(s, i);
      PullOut(lt, s[..n], i);
      PullOutStep(lt, s, rest, s[i]);
    }
  }

  lemma {:induction false} WithoutOne<T>(a: seq<T>, i: nat)
    requires i < |a|
    ensures multiset(a[..i] + a[i + 1..]) == multiset(a) - multiset{a[i]}
  {
    assert a == a[..i] + [a[i]] + a[i + 1..];
  }

  /** Sorting depends only on which elements there are. */
  lemma {:induction false} SortOfPermutation<T(!new)>(lt: (T, T) -> bool, a: seq<T>, b: seq<T>)
    requires Strict(lt) && multiset(a) == multiset(b)
    ensures Sort(lt, a) == Sort(lt, b)
    decreases a
  {
    assert |multiset(a)| == |a| && |multiset(b)| == |b|;
    if a != [] {
      var n := |a| - 1;
      assert a[n] in multiset(b);
      var i :| 0 <= i < |b| && b[i] == a[n];
      WithoutOne(a, n);
      WithoutOne(b, i);
      assert a[..n] + a[n + 1..] == a[..n];
      SortOfPermutation(lt, a[..n], b[..i] + b[i + 1..]);
      PullOut(lt, b, i);
    }
  }

  ghost predicate Ascending<T>(lt: (T, T) -> bool, s: seq<T>) {
    forall i, j | 0 <= i < j < |s| :: lt(s[i], s[j])
  }

  ghost predicate Asymmetric<T(!new)>(lt: (T, T) -> bool) {
    forall a, b :: !(lt(a, b) && lt(b, a))
  }

  lemma EmptyOrMember<T>(s: seq<T>)
    ensures s == [] || exists x :: x in s
  {
    if s != [] { assert s[0] in s; }
  }

  lemma TailMembers<T(!new)>(lt: (T, T) -> bool, a: seq<T>, b: seq<T>)
    requires Asymmetric(lt) && a != [] && b != [] && a[0] == b[0] && Ascending(lt, a)
    requires forall x :: x in a ==> x in b
    ensures forall x | x in a[1..] :: x in b[1..]
  {
    forall x | x in a[1..] ensures x in b[1..] {
      var i :| 0 <= i < |a[1..]| && a[1..][i] == x;
      assert lt(a[0], a[i + 1]);
      assert x in b && b == [b[0]] + b[1..];
    }
  }

  lemma SameHead<T(!new)>(lt: (T, T) -> bool, a: seq<T>, b: seq<T>)
    requires Asymmetric(lt) && Ascending(lt, a) && Ascending(lt, b) && a != [] && b != []
    requires a[0] in b && b[0] in a
    ensures a[0] == b[0]
  {
    var j :| 0 <= j < |b| && b[j] == a[0];
    var i :| 0 <= i < |a| && a[i] == b[0];
  }

  /** Two ascending sequences with the same elements are equal. */
  lemma {:induction false} AscendingUnique<T(!new)>(lt: (T, T) -> bool, a: seq<T>, b: seq<T>)
    requires Asymmetric(lt) && Ascending(lt, a) && Ascending(lt, b)
    requires forall x :: x in a <==> x in b
    ensures a == b
    decreases a
  {
    EmptyOrMember(a);
    EmptyOrMember(b);
    if a != [] {
      assert a[0] in b && b[0] in a;
      SameHead(lt, a, b);
      TailMembers(lt, a, b);
      TailMembers(lt, b, a);
      AscendingUnique(lt, a[1..], b[1..]);
      assert a == [a[0]] + a[1..] && b == [b[0]] + b[1..];
    }
  }
}
