// Sorting by a strict total order, as sort.Strings and sort.Slice do it for
// elements that are pairwise different.

module Sorting {

  ghost predicate StrictTotalOrder<T(!new)>(less: (T, T) -> bool) {
    && (forall a :: !less(a, a))
    && (forall a, b, c :: less(a, b) && less(b, c) ==> less(a, c))
    && (forall a, b :: a == b || less(a, b) || less(b, a))
  }

  ghost predicate Sorted<T>(s: seq<T>, less: (T, T) -> bool) {
    forall i, j :: 0 <= i < j < |s| ==> less(s[i], s[j])
  }

  function Insert<T>(x: T, s: seq<T>, less: (T, T) -> bool): seq<T> {
    if s == [] || less(x, s[0]) then [x] + s else [s[0]] + Insert(x, s[1..], less)
  }

  function Sort<T>(s: seq<T>, less: (T, T) -> bool): seq<T> {
    if s == [] then [] else Insert(s[0], Sort(s[1..], less), less)
  }

  ghost predicate Distinct<T>(s: seq<T>) {
    forall i, j :: 0 <= i < j < |s| ==> s[i] != s[j]
  }

  lemma {:induction false} InsertSorts<T(!new)>(x: T, s: seq<T>, less: (T, T) -> bool)
    requires StrictTotalOrder(less) && Sorted(s, less) && x !in s
    ensures Sorted(Insert(x, s, less), less)
    ensures forall y :: y in Insert(x, s, less) <==> y == x || y in s
  {
    if s != [] && !less(x, s[0]) {
      var rest := Insert(x, s[1..], less);
      InsertSorts(x, s[1..], less);
      assert forall y :: y in s <==> y == s[0] || y in s[1..];
      forall j | 0 <= j < |rest|
        ensures less(s[0], rest[j])
      {
        assert rest[j] in rest;
      }
    }
  }

  lemma {:induction false} SortSorts<T(!new)>(s: seq<T>, less: (T, T) -> bool)
    requires StrictTotalOrder(less) && Distinct(s)
    ensures Sorted(Sort(s, less), less)
    ensures forall y :: y in Sort(s, less) <==> y in s
  {
    if s != [] {
      SortSorts(s[1..], less);
      assert s[0] !in s[1..];
      InsertSorts(s[0], Sort(s[1..], less), less);
      assert forall y :: y in s <==> y == s[0] || y in s[1..];
    }
  }

  lemma NonEmptyHasElement<T(!new)>(s: seq<T>)
    ensures s == [] || exists y :: y in s
  {
    if s != [] {
      assert s[0] in s;
    }
  }

  // A sorted sequence is determined by its elements.
  lemma {:induction false} SortedIsUnique<T(!new)>(a: seq<T>, b: seq<T>, less: (T, T) -> bool)
    requires StrictTotalOrder(less) && Sorted(a, less) && Sorted(b, less)
    requires forall y :: y in a <==> y in b
    ensures a == b
  {
    if a == [] {
      NonEmptyHasElement(b);
    } else {
      assert a[0] in b && b != [];
      assert b[0] in a;
      assert a[0] == b[0];
      forall y
        ensures y in a[1..] <==> y in b[1..]
      {
        SortedTail(a, less, y);
        SortedTail(b, less, y);
      }
      SortedIsUnique(a[1..], b[1..], less);
      assert a == [a[0]] + a[1..] && b == [b[0]] + b[1..];
    }
  }

  lemma SortedTail<T(!new)>(s: seq<T>, less: (T, T) -> bool, y: T)
    requires StrictTotalOrder(less) && Sorted(s, less) && s != []
    ensures y in s[1..] <==> y in s && y != s[0]
  {
  }

  // ---- Lexicographic order ----

  predicate Lex<T(==)>(a: seq<T>, b: seq<T>, lt: (T, T) -> bool) {
    if b == [] then false
    else if a == [] then true
    else lt(a[0], b[0]) || (a[0] == b[0] && Lex(a[1..], b[1..], lt))
  }

  lemma {:induction false} LexTransitive<T(!new)>(a: seq<T>, b: seq<T>, c: seq<T>, lt: (T, T) -> bool)
    requires StrictTotalOrder(lt) && Lex(a, b, lt) && Lex(b, c, lt)
    ensures Lex(a, c, lt)
  {
    if a != [] && a[0] == b[0] == c[0] {
      LexTransitive(a[1..], b[1..], c[1..], lt);
    }
  }

  lemma {:induction false} LexTotal<T(!new)>(a: seq<T>, b: seq<T>, lt: (T, T) -> bool)
    requires StrictTotalOrder(lt)
    ensures a == b || Lex(a, b, lt) || Lex(b, a, lt)
  {
    if a != [] && b != [] {
      LexTotal(a[1..], b[1..], lt);
      assert a == [a[0]] + a[1..] && b == [b[0]] + b[1..];
    }
  }

  lemma {:induction false} LexIrreflexive<T(!new)>(a: seq<T>, lt: (T, T) -> bool)
    requires StrictTotalOrder(lt)
    ensures !Lex(a, a, lt)
  {
    if a != [] {
      LexIrreflexive(a[1..], lt);
    }
  }

  predicate CharLess(a: char, b: char) {
    a < b
  }

  predicate StringLess(a: string, b: string) {
    Lex(a, b, CharLess)
  }

  lemma StringLessIsOrder()
    ensures StrictTotalOrder(StringLess)
  {
    assert StrictTotalOrder(CharLess);
    forall a, b
      ensures !StringLess(a, a) && (a == b || StringLess(a, b) || StringLess(b, a))
    {
      LexIrreflexive(a, CharLess);
      LexTotal(a, b, CharLess);
    }
    forall a, b, c | StringLess(a, b) && StringLess(b, c)
      ensures StringLess(a, c)
    {
      LexTransitive(a, b, c, CharLess);
    }
  }
}
