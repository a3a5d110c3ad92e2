/**
 Arrays of keyed entries as the projection reducer keeps them (surfaces/webui/src/adapters/executionProjection.ts,
 `upsert` and the removals), and the finite maps they stand for. Keys are ordered by a strict total order.
 */
module KeyedTables {
  import opened SortedLists

  datatype Entry = Entry(key: int, body: int)

  predicate Unique(s: seq<Entry>) {
    forall i, j :: 0 <= i < j < |s| ==> s[i].key != s[j].key
  }

  /** The order of the arrays. */
  predicate ByKey(a: Entry, b: Entry) {
    a.key < b.key
  }

  function Without(s: seq<Entry>, key: int): seq<Entry> {
    if s == [] then [] else (if s[0].key != key then [s[0]] else []) + Without(s[1..], key)
  }

  function Only(s: seq<Entry>, keys: set<int>): seq<Entry> {
    if s == [] then [] else (if s[0].key in keys then [s[0]] else []) + Only(s[1..], keys)
  }

  /** Filter out the key, push the entry, sort. */
  function Upsert(s: seq<Entry>, e: Entry): seq<Entry> {
    Sort(Without(s, e.key) + [e], ByKey)
  }

  /** The finite map an array with unique keys stands for. */
  function ToMap(s: seq<Entry>): map<int, Entry>
    requires Unique(s)
  {
    map e | e in s :: e.key := e
  }

  // ----- Filters -----

  lemma {:induction false} WithoutMembers(s: seq<Entry>, key: int)
    ensures forall e :: e in Without(s, key) <==> e in s && e.key != key
  {
    if s != [] {
      WithoutMembers(s[1..], key);
      assert s == [s[0]] + s[1..];
    }
  }

  /** A relation that holds between every two entries still does. */
  lemma {:induction false} WithoutKeepsPairs(s: seq<Entry>, key: int, related: (Entry, Entry) -> bool)
    requires forall i, j :: 0 <= i < j < |s| ==> related(s[i], s[j])
    ensures forall i, j :: 0 <= i < j < |Without(s, key)| ==> related(Without(s, key)[i], Without(s, key)[j])
  {
    if s != [] {
      var rest := Without(s[1..], key);
      WithoutKeepsPairs(s[1..], key, related);
      WithoutMembers(s[1..], key);
      forall i | 0 <= i < |rest| ensures related(s[0], rest[i]) {
        assert rest[i] in s[1..];
      }
    }
  }

  lemma WithoutKeeps(s: seq<Entry>, key: int)
    ensures forall e :: e in Without(s, key) <==> e in s && e.key != key
    ensures Unique(s) ==> Unique(Without(s, key))
    ensures StrictlySorted(s, ByKey) ==> StrictlySorted(Without(s, key), ByKey)
  {
    WithoutMembers(s, key);
    if Unique(s) { WithoutKeepsPairs(s, key, (a: Entry, b: Entry) => a.key != b.key); }
    if StrictlySorted(s, ByKey) { WithoutKeepsPairs(s, key, ByKey); }
  }

  lemma {:induction false} OnlyKeeps(s: seq<Entry>, keys: set<int>)
    ensures forall e :: e in Only(s, keys) <==> e in s && e.key in keys
    ensures Unique(s) ==> Unique(Only(s, keys))
  {
    if s != [] {
      OnlyKeeps(s[1..], keys);
      assert s == [s[0]] + s[1..];
      forall i | 0 <= i < |Only(s[1..], keys)| ensures Only(s[1..], keys)[i] in s[1..] {
        assert Only(s[1..], keys)[i] in Only(s[1..], keys);
      }
    }
  }

  lemma {:induction false} WithoutCommutes(s: seq<Entry>, j: int, k: int)
    ensures Without(Without(s, j), k) == Without(Without(s, k), j)
  {
    if s != [] {
      WithoutCommutes(s[1..], j, k);
      WithoutHead(s, j, k);
      WithoutHead(s, k, j);
    }
  }

  lemma WithoutHead(s: seq<Entry>, j: int, k: int)
    requires s != []
    ensures Without(Without(s, j), k)
         == (if s[0].key != j && s[0].key != k then [s[0]] else []) + Without(Without(s[1..], j), k)
  {
    if s[0].key != j {
      var t := Without(s[1..], j);
      assert Without(s, j) == [s[0]] + t && ([s[0]] + t)[1..] == t;
    } else {
      assert Without(s, j) == [] + Without(s[1..], j) == Without(s[1..], j);
    }
  }

  // ----- Upserts and removals on arrays refine updates of maps -----

  lemma UpsertKeeps(s: seq<Entry>, e: Entry)
    requires Unique(s)
    ensures StrictlySorted(Upsert(s, e), ByKey)
    ensures forall x :: x in Upsert(s, e) <==> x == e || (x in s && x.key != e.key)
  {
    WithoutKeeps(s, e.key);
    var pushed := Without(s, e.key) + [e];
    forall i | 0 <= i < |Without(s, e.key)| ensures pushed[i].key != e.key {
      assert pushed[i] in Without(s, e.key);
    }
    SortKeeps(pushed, ByKey);
    SortSorts(pushed, ByKey);
  }

  lemma StandsFor(s: seq<Entry>, m: map<int, Entry>)
    requires Unique(s)
    requires forall k :: k in m ==> m[k] in s && m[k].key == k
    requires forall e :: e in s ==> e.key in m && m[e.key] == e
    ensures ToMap(s) == m
  {
    assert ToMap(s).Keys == m.Keys by {
      forall k ensures k in ToMap(s) <==> k in m {}
    }
  }

  lemma ToMapHolds(s: seq<Entry>)
    requires Unique(s)
    ensures forall k :: k in ToMap(s) ==> ToMap(s)[k] in s && ToMap(s)[k].key == k
    ensures forall e :: e in s ==> e.key in ToMap(s) && ToMap(s)[e.key] == e
  {
  }

  /** An upsert is a map update, from unique keys to unique keys. */
  lemma UpsertRefinesUpdate(s: seq<Entry>, e: Entry)
    requires Unique(s)
    ensures Unique(Upsert(s, e)) && ToMap(Upsert(s, e)) == ToMap(s)[e.key := e]
  {
    UpsertKeeps(s, e);
    ToMapHolds(s);
    StandsFor(Upsert(s, e), ToMap(s)[e.key := e]);
  }

  /** A removal is a map removal. */
  lemma WithoutRefinesRemoval(s: seq<Entry>, key: int)
    requires Unique(s)
    ensures Unique(Without(s, key)) && ToMap(Without(s, key)) == ToMap(s) - {key}
  {
    WithoutKeeps(s, key);
    ToMapHolds(s);
    StandsFor(Without(s, key), ToMap(s) - {key});
  }

  /** Keeping some keys is restricting the map. */
  lemma OnlyRefinesRestriction(s: seq<Entry>, keys: set<int>)
    requires Unique(s)
    ensures Unique(Only(s, keys)) && ToMap(Only(s, keys)) == map k | k in ToMap(s) && k in keys :: ToMap(s)[k]
  {
    OnlyKeeps(s, keys);
    ToMapHolds(s);
    StandsFor(Only(s, keys), map k | k in ToMap(s) && k in keys :: ToMap(s)[k]);
  }

  // ----- Operations on distinct keys commute to the identical array -----

  lemma UpsertsCommute(s: seq<Entry>, a: Entry, b: Entry)
    requires Unique(s) && a.key != b.key
    ensures Upsert(Upsert(s, a), b) == Upsert(Upsert(s, b), a)
  {
    UpsertKeeps(s, a);
    UpsertKeeps(s, b);
    UpsertKeeps(Upsert(s, a), b);
    UpsertKeeps(Upsert(s, b), a);
    SortedIsUnique(Upsert(Upsert(s, a), b), Upsert(Upsert(s, b), a), ByKey);
  }

  lemma UpsertAndRemovalCommute(s: seq<Entry>, e: Entry, key: int)
    requires Unique(s) && e.key != key
    ensures Without(Upsert(s, e), key) == Upsert(Without(s, key), e)
  {
    UpsertKeeps(s, e);
    WithoutKeeps(Upsert(s, e), key);
    WithoutKeeps(s, key);
    UpsertKeeps(Without(s, key), e);
    SortedIsUnique(Without(Upsert(s, e), key), Upsert(Without(s, key), e), ByKey);
  }
}
