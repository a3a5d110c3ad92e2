/** Sorting by a strict order, as far as it matters here: elements are pairwise comparable, so the result is unique. */
module SortedLists {

  ghost predicate StrictOrder<T(!new)>(before: (T, T) -> bool) {
    && (forall a, b :: !(before(a, b) && before(b, a)))
    && (forall a, b, c :: before(a, b) && before(b, c) ==> before(a, c))
  }

  predicate StrictlySorted<T>(s: seq<T>, before: (T, T) -> bool) {
    forall i, j :: 0 <= i < j < |s| ==> before(s[i], s[j])
  }

  /** Any two elements are comparable. */
  predicate Comparable<T>(s: seq<T>, before: (T, T) -> bool) {
    forall i, j :: 0 <= i < j < |s| ==> before(s[i], s[j]) || before(s[j], s[i])
  }

  function Insert<T>(s: seq<T>, e: T, before: (T, T) -> bool): seq<T> {
    if s == [] || before(e, s[0]) then [e] + s else [s[0]] + Insert(s[1..], e, before)
  }

  /** A stable sort. */
  function Sort<T>(s: seq<T>, before: (T, T) -> bool): seq<T> {
    if s == [] then [] else Insert(Sort(s[..|s| - 1], before), s[|s| - 1], before)
  }

  lemma {:induction false} InsertKeeps<T(!new)>(s: seq<T>, e: T, before: (T, T) -> bool)
    ensures forall x :: x in Insert(s, e, before) <==> x in s || x == e
  {
    if s != [] && !before(e, s[0]) {
      InsertKeeps(s[1..], e, before);
      assert s == [s[0]] + s[1..];
    }
  }

  lemma {:induction false} InsertSorts<T(!new)>(s: seq<T>, e: T, before: (T, T) -> bool)
    requires StrictOrder(before) && StrictlySorted(s, before)
    requires forall i :: 0 <= i < |s| ==> before(s[i], e) || before(e, s[i])
    ensures StrictlySorted(Insert(s, e, before), before)
  {
    if s != [] && !before(e, s[0]) {
      var rest := Insert(s[1..], e, before);
      InsertSorts(s[1..], e, before);
      InsertKeeps(s[1..], e, before);
      forall i | 0 <= i < |rest| ensures before(s[0], rest[i]) {
        assert rest[i] in rest;
        if rest[i] in s[1..] {
          var j :| 0 <= j < |s[1..]| && s[1..][j] == rest[i];
          assert s[j + 1] == rest[i];
        }
      }
    }
  }

  lemma {:induction false} SortKeeps<T(!new)>(s: seq<T>, before: (T, T) -> bool)
    ensures forall x :: x in Sort(s, before) <==> x in s
  {
    if s != [] {
      var init := s[..|s| - 1];
      SortKeeps(init, before);
      InsertKeeps(Sort(init, before), s[|s| - 1], before);
      assert s == init + [s[|s| - 1]];
    }
  }

  lemma {:induction false} SortSorts<T(!new)>(s: seq<T>, before: (T, T) -> bool)
    requires StrictOrder(before) && Comparable(s, before)
    ensures StrictlySorted(Sort(s, before), before)
  {
    if s != [] {
      var init := s[..|s| - 1];
      SortSorts(init, before);
      SortKeeps(init, before);
      var sorted := Sort(init, before);
      forall i | 0 <= i < |sorted| ensures before(sorted[i], s[|s| - 1]) || before(s[|s| - 1], sorted[i]) {
        assert sorted[i] in sorted;
        var j :| 0 <= j < |init| && init[j] == sorted[i];
        assert s[j] == sorted[i];
      }
      InsertSorts(sorted, s[|s| - 1], before);
    }
  }

  /** Strictly sorted lists with the same elements are the same list. */
  lemma {:induction false} SortedIsUnique<T(!new)>(a: seq<T>, b: seq<T>, before: (T, T) -> bool)
    requires StrictOrder(before) && StrictlySorted(a, before) && StrictlySorted(b, before)
    requires forall e :: e in a <==> e in b
    ensures a == b
    decreases |a|
  {
    assert a != [] ==> a[0] in b;
    assert b != [] ==> b[0] in a;
    if a != [] && b != [] {
      assert a[0] == b[0];
      forall e ensures e in a[1..] <==> e in b[1..] {
        RestOfSorted(a, e, before);
        RestOfSorted(b, e, before);
      }
      SortedIsUnique(a[1..], b[1..], before);
    }
  }

  lemma RestOfSorted<T(!new)>(a: seq<T>, e: T, before: (T, T) -> bool)
    requires StrictOrder(before) && a != [] && StrictlySorted(a, before)
    ensures e in a[1..] <==> e in a && e != a[0]
  {
    assert a == [a[0]] + a[1..];
    if e in a[1..] {
      var i :| 0 <= i < |a[1..]| && a[1..][i] == e;
      assert a[i + 1] == e && before(a[0], a[i + 1]);
    }
  }
}
