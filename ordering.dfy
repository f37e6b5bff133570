/** Sequence utilities shared by the option lists and the aggregate tables:
    de-duplication in order of first appearance (pandas `unique`), a sort
    that is parametric in its comparison (Python `sorted`, pandas
    `sort_values`) and the code-point order on strings that Python uses. */
module Ordering {

  /** No element occurs twice. */
  predicate NoDups<T(==)>(s: seq<T>) {
    forall i, j :: 0 <= i < j < |s| ==> s[i] != s[j]
  }

  /** `le` is total and transitive, which is all a comparison sort needs. */
  ghost predicate IsTotalPreorder<T(!new)>(le: (T, T) -> bool) {
    && (forall a, b :: le(a, b) || le(b, a))
    && (forall a, b, c :: le(a, b) && le(b, c) ==> le(a, c))
  }

  /** Every element is `le` every later element. */
  ghost predicate Ascending<T>(s: seq<T>, le: (T, T) -> bool) {
    forall i, j :: 0 <= i < j < |s| ==> le(s[i], s[j])
  }

  /** The distinct elements of `s`, each once. (The order is that of first
      appearance, but every caller sorts the result.) */
  function Unique<T(==)>(s: seq<T>): (u: seq<T>)
    ensures NoDups(u)
    ensures forall i :: 0 <= i < |s| ==> s[i] in u
    ensures forall i :: 0 <= i < |u| ==> u[i] in s
    ensures |u| <= |s|
  {
    if s == [] then []
    else
      var init, last := s[..|s| - 1], s[|s| - 1];
      assert s == init + [last];
      var u := Unique(init);
      if last in u then u else u + [last]
  }

  /** Puts `x` before the first element it is `le`. */
  function Insert<T>(x: T, s: seq<T>, le: (T, T) -> bool): (r: seq<T>)
    ensures multiset(r) == multiset(s) + multiset{x}
  {
    if s == [] || le(x, s[0]) then [x] + s
    else
      assert s == [s[0]] + s[1..];
      [s[0]] + Insert(x, s[1..], le)
  }

  /** Insertion sort of `s` by `le`. */
  function SortBy<T>(s: seq<T>, le: (T, T) -> bool): (r: seq<T>)
    ensures multiset(r) == multiset(s)
    ensures |r| == |s|
  {
    if s == [] then []
    else
      assert s == [s[0]] + s[1..];
      Insert(s[0], SortBy(s[1..], le), le)
  }

  lemma {:induction false} InsertAscending<T(!new)>(x: T, s: seq<T>, le: (T, T) -> bool)
    requires IsTotalPreorder(le)
    requires Ascending(s, le)
    ensures Ascending(Insert(x, s, le), le)
  {
    if s == [] || le(x, s[0]) {
    } else {
      var tail := Insert(x, s[1..], le);
      InsertAscending(x, s[1..], le);
      assert le(s[0], x);
      forall y | y in tail ensures le(s[0], y) {
        assert y in multiset(tail);
        if y != x {
          assert y in s[1..];
        }
      }
    }
  }

  lemma {:induction false} InsertNoDups<T>(x: T, s: seq<T>, le: (T, T) -> bool)
    requires NoDups(s) && x !in s
    ensures NoDups(Insert(x, s, le))
  {
    if s == [] || le(x, s[0]) {
    } else {
      var tail := Insert(x, s[1..], le);
      InsertNoDups(x, s[1..], le);
      assert s[0] !in multiset(tail);
    }
  }

  /** `SortBy` orders its result whenever `le` is a total preorder. */
  lemma {:induction false} SortAscending<T(!new)>(s: seq<T>, le: (T, T) -> bool)
    requires IsTotalPreorder(le)
    ensures Ascending(SortBy(s, le), le)
  {
    if s != [] {
      SortAscending(s[1..], le);
      InsertAscending(s[0], SortBy(s[1..], le), le);
    }
  }

  /** `SortBy` never introduces duplicates. */
  lemma {:induction false} SortNoDups<T>(s: seq<T>, le: (T, T) -> bool)
    requires NoDups(s)
    ensures NoDups(SortBy(s, le))
  {
    if s != [] {
      var sorted := SortBy(s[1..], le);
      SortNoDups(s[1..], le);
      assert s[0] !in multiset(sorted);
      InsertNoDups(s[0], sorted, le);
    }
  }

  /** `SortBy` keeps exactly the elements it is given. */
  lemma SortMembers<T>(s: seq<T>, le: (T, T) -> bool, x: T)
    ensures x in SortBy(s, le) <==> x in s
  {
    assert x in SortBy(s, le) <==> x in multiset(SortBy(s, le));
  }

  /** Python's `<=` on `str`: lexicographic by code point, a proper prefix
      first. */
  predicate TextLe(a: string, b: string)
    ensures |a| <= |b| && a == b[..|a|] ==> TextLe(a, b)
  {
    if a == [] then true
    else if b == [] then false
    else a[0] < b[0] || (a[0] == b[0] && TextLe(a[1..], b[1..]))
  }

  lemma {:induction false} TextLeTotal(a: string, b: string)
    ensures TextLe(a, b) || TextLe(b, a)
  {
    if a != [] && b != [] && a[0] == b[0] {
      TextLeTotal(a[1..], b[1..]);
    }
  }

  lemma {:induction false} TextLeTransitive(a: string, b: string, c: string)
    requires TextLe(a, b) && TextLe(b, c)
    ensures TextLe(a, c)
  {
    if a != [] && a[0] == b[0] && b[0] == c[0] {
      TextLeTransitive(a[1..], b[1..], c[1..]);
    }
  }

  /** Only equal strings are ordered both ways, so `sorted` has one
      result. */
  lemma {:induction false} TextLeAntisymmetric(a: string, b: string)
    requires TextLe(a, b) && TextLe(b, a)
    ensures a == b
  {
    if a != [] && b != [] {
      TextLeAntisymmetric(a[1..], b[1..]);
      assert a == [a[0]] + a[1..] && b == [b[0]] + b[1..];
    }
  }

  lemma TextLeIsTotalPreorder()
    ensures IsTotalPreorder(TextLe)
  {
    forall a, b ensures TextLe(a, b) || TextLe(b, a) {
      TextLeTotal(a, b);
    }
    forall a, b, c | TextLe(a, b) && TextLe(b, c) ensures TextLe(a, c) {
      TextLeTransitive(a, b, c);
    }
  }
}
