/**
 Merging the activities of several projections into one list (surfaces/webui/src/adapters/executionActivity.ts,
 `canonicalActivityEvents` and `compareActivities`).
 */
module ActivityEvents {
  import opened SortedLists
  import opened Wrappers

  datatype Visibility = Narrative | Operational | Audit

  datatype Event = Event(id: int, cursor: int, started: int, sequence: int, shown: set<Visibility>, body: int)

  /** A missing projection, or one without activities, is `None`. */
  type Projection = Option<seq<Event>>

  // ----- The comparator -----

  predicate Before(a: Event, b: Event) {
    a.started < b.started || (a.started == b.started
    && (a.cursor < b.cursor || (a.cursor == b.cursor
    && (a.sequence < b.sequence || (a.sequence == b.sequence && a.id < b.id)))))
  }

  /** A strict order, total on events with distinct ids. */
  lemma BeforeIsAStrictTotalOrder()
    ensures StrictOrder(Before)
    ensures forall a: Event, b: Event :: a.id != b.id ==> Before(a, b) || Before(b, a)
  {
  }

  // ----- The rows -----

  /** The visible activities, projection by projection. */
  function Visible(projections: seq<Projection>, only: Option<Visibility>): seq<Event> {
    if projections == [] then []
    else
      Visible(projections[..|projections| - 1], only)
      + (match projections[|projections| - 1] case None => [] case Some(activities) => Shown(activities, only))
  }

  function Shown(activities: seq<Event>, only: Option<Visibility>): seq<Event> {
    if activities == [] then []
    else
      var last := activities[|activities| - 1];
      Shown(activities[..|activities| - 1], only) + if only.None? || only.value in last.shown then [last] else []
  }

  /** `rows` in insertion order: an id keeps its place, and its row is replaced unless the row's cursor is greater. */
  function Put(rows: seq<Event>, e: Event): seq<Event> {
    if rows == [] then [e]
    else if rows[0].id != e.id then [rows[0]] + Put(rows[1..], e)
    else if rows[0].cursor > e.cursor then rows
    else [e] + rows[1..]
  }

  function Rows(s: seq<Event>): seq<Event> {
    if s == [] then [] else Put(Rows(s[..|s| - 1]), s[|s| - 1])
  }

  /** `canonicalActivityEvents` on the visible activities. */
  function Canonical(s: seq<Event>): seq<Event> {
    Sort(Rows(s), Before)
  }

  // ----- Which entry wins -----

  predicate DistinctIds(s: seq<Event>) {
    forall i, j :: 0 <= i < j < |s| ==> s[i].id != s[j].id
  }

  /** The entry at `i` is the last one of its id with the greatest cursor. */
  predicate LastGreatest(s: seq<Event>, i: nat)
    requires i < |s|
  {
    forall j :: 0 <= j < |s| && s[j].id == s[i].id ==>
        s[j].cursor < s[i].cursor || (s[j].cursor == s[i].cursor && j <= i)
  }

  predicate Wins(s: seq<Event>, e: Event) {
    exists i :: 0 <= i < |s| && s[i] == e && LastGreatest(s, i)
  }

  lemma {:induction false} PutKeeps(rows: seq<Event>, x: Event, e: Event)
    requires DistinctIds(rows)
    ensures DistinctIds(Put(rows, x))
    ensures e in Put(rows, x) <==>
      if e.id != x.id then e in rows
      else (e == x && !Outranked(rows, x)) || (e in rows && e.cursor > x.cursor)
  {
    if rows != [] {
      var rest := rows[1..];
      PutKeeps(rest, x, e);
      PutKeepsIds(rest, x);
      assert rows == [rows[0]] + rest;
      if rows[0].id == x.id { assert !Outranked(rest, x); }
    }
  }

  predicate Outranked(rows: seq<Event>, x: Event) {
    exists i :: 0 <= i < |rows| && rows[i].id == x.id && rows[i].cursor > x.cursor
  }

  lemma {:induction false} PutKeepsIds(rows: seq<Event>, x: Event)
    ensures forall i :: 0 <= i < |Put(rows, x)| ==>
        Put(rows, x)[i].id == x.id || exists j :: 0 <= j < |rows| && rows[j].id == Put(rows, x)[i].id
  {
    if rows != [] {
      PutKeepsIds(rows[1..], x);
      assert rows == [rows[0]] + rows[1..];
    }
  }

  /** Some entry has the same id, and a cursor at least as great, and wins. */
  lemma {:induction false} WinnerExists(s: seq<Event>, i: nat) returns (w: nat)
    requires i < |s|
    ensures w < |s| && LastGreatest(s, w) && s[w].id == s[i].id && s[w].cursor >= s[i].cursor
  {
    var last := |s| - 1;
    if s[last].id != s[i].id {
      w := WinnerExists(s[..last], i);
      assert s[..last][w] == s[w];
      assert forall j :: 0 <= j < last ==> s[..last][j] == s[j];
    } else if j :| 0 <= j < last && s[j].id == s[i].id && s[j].cursor > s[last].cursor {
      w := WinnerExists(s[..last], j);
      var v := WinnerExists(s[..last], if i < last then i else j);
      assert forall k :: 0 <= k < last ==> s[..last][k] == s[k];
      assert s[v].cursor <= s[w].cursor;
    } else {
      w := last;
    }
  }

  lemma WinsAfter(s: seq<Event>, x: Event, e: Event)
    ensures Wins(s + [x], e) <==>
      if e.id != x.id then Wins(s, e)
      else (e == x && !Outranked(s, x)) || (Wins(s, e) && e.cursor > x.cursor)
  {
    var t := s + [x];
    assert forall j :: 0 <= j < |s| ==> t[j] == s[j];
    assert t[|s|] == x;
    if Wins(t, e) {
      var i :| 0 <= i < |t| && t[i] == e && LastGreatest(t, i);
      if i < |s| {
        assert LastGreatest(s, i);
      }
    }
    if i :| 0 <= i < |s| && s[i] == e && LastGreatest(s, i) && (e.id != x.id || e.cursor > x.cursor) {
      assert t[i] == e && LastGreatest(t, i);
    }
    if e == x && !Outranked(s, x) {
      assert LastGreatest(t, |s|);
    }
  }

  lemma OutrankedByWinner(s: seq<Event>, rows: seq<Event>, x: Event)
    requires forall e :: e in rows <==> Wins(s, e)
    ensures Outranked(rows, x) <==> Outranked(s, x)
  {
    if Outranked(rows, x) {
      var i :| 0 <= i < |rows| && rows[i].id == x.id && rows[i].cursor > x.cursor;
      assert rows[i] in rows;
    }
    if Outranked(s, x) {
      var i :| 0 <= i < |s| && s[i].id == x.id && s[i].cursor > x.cursor;
      var w := WinnerExists(s, i);
      assert Wins(s, s[w]);
    }
  }

  /** One row per id: the last entry with the greatest cursor. */
  lemma {:induction false} RowsAreWinners(s: seq<Event>)
    ensures DistinctIds(Rows(s)) && forall e :: e in Rows(s) <==> Wins(s, e)
  {
    if s != [] {
      var init, x := s[..|s| - 1], s[|s| - 1];
      assert s == init + [x];
      RowsAreWinners(init);
      OutrankedByWinner(init, Rows(init), x);
      forall e ensures e in Put(Rows(init), x) <==> Wins(s, e) {
        PutKeeps(Rows(init), x, e);
        WinsAfter(init, x, e);
      }
      PutKeeps(Rows(init), x, x);
    }
  }

  // ----- The sorted result -----

  /** The result is the one strictly sorted list of the winning entries. */
  lemma CanonicalIsSortedWinners(s: seq<Event>, r: seq<Event>)
    ensures r == Canonical(s) <==> StrictlySorted(r, Before) && forall e :: e in r <==> Wins(s, e)
  {
    RowsAreWinners(s);
    SortKeeps(Rows(s), Before);
    SortSorts(Rows(s), Before);
    if StrictlySorted(r, Before) && forall e :: e in r <==> Wins(s, e) {
      SortedIsUnique(r, Canonical(s), Before);
    }
  }

  // ----- Independence of the order -----

  predicate Greatest(s: seq<Event>, i: nat)
    requires i < |s|
  {
    forall j :: 0 <= j < |s| && s[j].id == s[i].id ==> s[j].cursor <= s[i].cursor
  }

  /** Entries of one id that share its greatest cursor are the same entry. */
  predicate GreatestAgree(s: seq<Event>) {
    forall i, j :: 0 <= i < |s| && 0 <= j < |s| && s[i].id == s[j].id && Greatest(s, i) && Greatest(s, j) ==>
        s[i] == s[j]
  }

  predicate SameEntries(s: seq<Event>, t: seq<Event>) {
    (forall i :: 0 <= i < |s| ==> s[i] in t) && (forall i :: 0 <= i < |t| ==> t[i] in s)
  }

  /** With agreeing greatest entries, an entry wins when nothing with its id has a greater cursor. */
  lemma WinsIff(s: seq<Event>, e: Event)
    requires GreatestAgree(s)
    ensures Wins(s, e) <==> e in s && !Outranked(s, e)
  {
    if e in s && !Outranked(s, e) {
      var i :| 0 <= i < |s| && s[i] == e;
      var w := WinnerExists(s, i);
      assert Greatest(s, i) && Greatest(s, w);
    }
  }

  lemma OutrankedInBoth(s: seq<Event>, t: seq<Event>, e: Event)
    requires SameEntries(s, t) && Outranked(s, e)
    ensures Outranked(t, e)
  {
    var i :| 0 <= i < |s| && s[i].id == e.id && s[i].cursor > e.cursor;
    var j :| 0 <= j < |t| && t[j] == s[i];
  }

  lemma GreatestAgreeInBoth(s: seq<Event>, t: seq<Event>)
    requires SameEntries(s, t) && GreatestAgree(s)
    ensures GreatestAgree(t)
  {
    forall i, j | 0 <= i < |t| && 0 <= j < |t| && t[i].id == t[j].id && Greatest(t, i) && Greatest(t, j)
        ensures t[i] == t[j] {
      var k :| 0 <= k < |s| && s[k] == t[i];
      var l :| 0 <= l < |s| && s[l] == t[j];
      GreatestInBoth(s, t, i, k);
      GreatestInBoth(s, t, j, l);
    }
  }

  lemma GreatestInBoth(s: seq<Event>, t: seq<Event>, i: nat, k: nat)
    requires SameEntries(s, t) && i < |t| && k < |s| && s[k] == t[i] && Greatest(t, i)
    ensures Greatest(s, k)
  {
    forall j | 0 <= j < |s| && s[j].id == s[k].id ensures s[j].cursor <= s[k].cursor {
      var l :| 0 <= l < |t| && t[l] == s[j];
    }
  }

  lemma SameEntriesSameResult(s: seq<Event>, t: seq<Event>)
    requires SameEntries(s, t) && GreatestAgree(s)
    ensures Canonical(s) == Canonical(t)
  {
    GreatestAgreeInBoth(s, t);
    forall e ensures Wins(s, e) <==> Wins(t, e) {
      WinsIff(s, e);
      WinsIff(t, e);
      if Outranked(s, e) { OutrankedInBoth(s, t, e); }
      if Outranked(t, e) { OutrankedInBoth(t, s, e); }
    }
    CanonicalIsSortedWinners(s, Canonical(s));
    CanonicalIsSortedWinners(t, Canonical(t));
    SortedIsUnique(Canonical(s), Canonical(t), Before);
  }

  /** The same entries with one of them moved to the end. */
  function MovedLast<T>(s: seq<T>, i: nat): seq<T>
    requires i < |s|
  {
    s[..i] + s[i + 1..] + [s[i]]
  }

  lemma MovedLastWins(s: seq<Event>, i: nat)
    requires i < |s| && Greatest(s, i)
    ensures SameEntries(s, MovedLast(s, i)) && s[i] in Canonical(MovedLast(s, i))
  {
    var t := MovedLast(s, i);
    forall j | 0 <= j < |s| ensures s[j] in t {
      assert t[if j < i then j else if j == i then |s| - 1 else j - 1] == s[j];
    }
    forall j | 0 <= j < |t| ensures t[j] == s[if j < i then j else if j == |s| - 1 then i else j + 1] {}
    assert LastGreatest(t, |s| - 1);
    assert Wins(t, s[i]);
    CanonicalIsSortedWinners(t, Canonical(t));
  }

  lemma OneRowPerId(s: seq<Event>, a: Event, b: Event)
    requires a in Canonical(s) && b in Canonical(s) && a.id == b.id
    ensures a == b
  {
    CanonicalIsSortedWinners(s, Canonical(s));
  }

  /**
   The result runs forward in time: by start, then by commit cursor, then by sequence, and by id at last.
   */
  lemma ResultRunsForward(s: seq<Event>, i: nat, j: nat)
    requires i < j < |Canonical(s)|
    ensures var a, b := Canonical(s)[i], Canonical(s)[j];
            && a.started <= b.started
            && (a.started == b.started ==> a.cursor <= b.cursor)
            && (a.started == b.started && a.cursor == b.cursor ==> a.sequence <= b.sequence)
            && (a.started == b.started && a.cursor == b.cursor && a.sequence == b.sequence ==> a.id < b.id)
  {
    CanonicalIsSortedWinners(s, Canonical(s));
  }

  /** The result is the same for every order of the entries exactly when the greatest entries of each id agree. */
  lemma OrderIsIrrelevantIff(s: seq<Event>)
    ensures (forall t :: SameEntries(s, t) ==> Canonical(t) == Canonical(s)) <==> GreatestAgree(s)
  {
    if GreatestAgree(s) {
      forall t | SameEntries(s, t) ensures Canonical(t) == Canonical(s) {
        SameEntriesSameResult(s, t);
      }
    }
    if forall t :: SameEntries(s, t) ==> Canonical(t) == Canonical(s) {
      forall i, j | 0 <= i < |s| && 0 <= j < |s| && s[i].id == s[j].id && Greatest(s, i) && Greatest(s, j)
          ensures s[i] == s[j] {
        MovedLastWins(s, i);
        MovedLastWins(s, j);
        OneRowPerId(s, s[i], s[j]);
      }
    }
  }

  // ----- Projections -----

  lemma {:induction false} ShownHolds(activities: seq<Event>, only: Option<Visibility>)
    ensures forall e :: e in Shown(activities, only) <==> e in activities && (only.None? || only.value in e.shown)
  {
    if activities != [] {
      var init, last := activities[..|activities| - 1], activities[|activities| - 1];
      ShownHolds(init, only);
      assert activities == init + [last];
    }
  }

  predicate ShownIn(p: Projection, only: Option<Visibility>, e: Event) {
    p.Some? && e in p.value && (only.None? || only.value in e.shown)
  }

  ghost predicate ShownInSome(ps: seq<Projection>, only: Option<Visibility>, e: Event) {
    exists i :: 0 <= i < |ps| && ShownIn(ps[i], only, e)
  }

  lemma ShownInOneMore(init: seq<Projection>, last: Projection, only: Option<Visibility>, e: Event)
    ensures ShownInSome(init + [last], only, e) <==> ShownInSome(init, only, e) || ShownIn(last, only, e)
  {
    var ps := init + [last];
    assert ps[|init|] == last;
    assert forall i :: 0 <= i < |init| ==> ps[i] == init[i];
  }

  lemma VisibleOneMore(init: seq<Projection>, last: Projection, only: Option<Visibility>, e: Event)
    ensures e in Visible(init + [last], only) <==> e in Visible(init, only) || ShownIn(last, only, e)
  {
    var ps := init + [last];
    assert ps[..|ps| - 1] == init && ps[|ps| - 1] == last;
    if last.Some? { ShownHolds(last.value, only); }
  }

  lemma {:induction false} VisibleHolds(ps: seq<Projection>, only: Option<Visibility>, e: Event)
    ensures e in Visible(ps, only) <==> ShownInSome(ps, only, e)
  {
    if ps != [] {
      var init, last := ps[..|ps| - 1], ps[|ps| - 1];
      VisibleHolds(init, only, e);
      VisibleOneMore(init, last, only, e);
      ShownInOneMore(init, last, only, e);
      assert ps == init + [last];
    }
  }

  /** The entry of its id that this projection alone would give. */
  predicate Champion(p: Projection, only: Option<Visibility>, e: Event) {
    p.Some? && Wins(Shown(p.value, only), e)
  }

  /** The champion of some projection, of the greatest cursor over all of them. */
  ghost predicate Contends(ps: seq<Projection>, only: Option<Visibility>, e: Event) {
    (exists i :: 0 <= i < |ps| && Champion(ps[i], only, e)) && !Outranked(Visible(ps, only), e)
  }

  /** Projections that hold an id's greatest cursor have the same entry for it. */
  ghost predicate ContendersAgree(ps: seq<Projection>, only: Option<Visibility>) {
    forall a, b :: Contends(ps, only, a) && Contends(ps, only, b) && a.id == b.id ==> a == b
  }

  lemma WinsInPart(s: seq<Event>, t: seq<Event>, e: Event)
    requires Wins(s + t, e)
    ensures Wins(s, e) || Wins(t, e)
  {
    var i :| 0 <= i < |s + t| && (s + t)[i] == e && LastGreatest(s + t, i);
    if i < |s| {
      assert s[i] == e;
      forall j | 0 <= j < |s| && s[j].id == s[i].id
        ensures s[j].cursor < s[i].cursor || (s[j].cursor == s[i].cursor && j <= i)
      {
        assert (s + t)[j] == s[j];
      }
      assert LastGreatest(s, i);
    } else {
      var k := i - |s|;
      assert t[k] == e;
      forall j | 0 <= j < |t| && t[j].id == t[k].id
        ensures t[j].cursor < t[k].cursor || (t[j].cursor == t[k].cursor && j <= k)
      {
        assert (s + t)[|s| + j] == t[j];
      }
      assert LastGreatest(t, k);
    }
  }

  lemma WinsAtTheEnd(s: seq<Event>, t: seq<Event>, e: Event)
    requires Wins(t, e) && !Outranked(s, e)
    ensures Wins(s + t, e)
  {
    var k :| 0 <= k < |t| && t[k] == e && LastGreatest(t, k);
    assert (s + t)[|s| + k] == e;
    forall j | 0 <= j < |s + t| && (s + t)[j].id == e.id
      ensures (s + t)[j].cursor < e.cursor || ((s + t)[j].cursor == e.cursor && j <= |s| + k)
    {
      assert (s + t)[j] == if j < |s| then s[j] else t[j - |s|];
    }
    assert LastGreatest(s + t, |s| + k);
  }

  lemma {:induction false} WinnerIsChampion(ps: seq<Projection>, only: Option<Visibility>, e: Event)
    requires Wins(Visible(ps, only), e)
    ensures exists i :: 0 <= i < |ps| && Champion(ps[i], only, e)
  {
    if ps != [] {
      var init, last := ps[..|ps| - 1], ps[|ps| - 1];
      WinsInPart(Visible(init, only), if last.Some? then Shown(last.value, only) else [], e);
      if Wins(Visible(init, only), e) {
        WinnerIsChampion(init, only, e);
        var i :| 0 <= i < |init| && Champion(init[i], only, e);
        assert ps[i] == init[i];
      } else {
        assert Champion(ps[|ps| - 1], only, e);
      }
    }
  }

  lemma WinnersContend(ps: seq<Projection>, only: Option<Visibility>, e: Event)
    requires Wins(Visible(ps, only), e)
    ensures Contends(ps, only, e)
  {
    WinnerIsChampion(ps, only, e);
  }

  lemma ChampionIsVisible(ps: seq<Projection>, only: Option<Visibility>, i: nat, e: Event)
    requires i < |ps| && Champion(ps[i], only, e)
    ensures e in Visible(ps, only)
  {
    ShownHolds(ps[i].value, only);
    VisibleHolds(ps, only, e);
    assert ShownIn(ps[i], only, e);
  }

  lemma ContenderIsVisible(ps: seq<Projection>, only: Option<Visibility>, e: Event)
    requires Contends(ps, only, e)
    ensures e in Visible(ps, only)
  {
    var i :| 0 <= i < |ps| && Champion(ps[i], only, e);
    ChampionIsVisible(ps, only, i, e);
  }

  lemma ContendersWin(ps: seq<Projection>, only: Option<Visibility>, e: Event)
    requires ContendersAgree(ps, only) && Contends(ps, only, e)
    ensures Wins(Visible(ps, only), e)
  {
    var s := Visible(ps, only);
    var i :| 0 <= i < |ps| && Champion(ps[i], only, e);
    ChampionIsVisible(ps, only, i, e);
    var k :| 0 <= k < |s| && s[k] == e;
    var w := WinnerExists(s, k);
    assert Wins(s, s[w]);
    WinnersContend(ps, only, s[w]);
  }

  lemma OutrankedInWhole(s: seq<Event>, t: seq<Event>, e: Event)
    requires Outranked(s, e)
    ensures Outranked(s + t, e)
  {
    var i :| 0 <= i < |s| && s[i].id == e.id && s[i].cursor > e.cursor;
    assert (s + t)[i] == s[i];
  }

  predicate SameProjections(ps: seq<Projection>, qs: seq<Projection>) {
    (forall i :: 0 <= i < |ps| ==> ps[i] in qs) && (forall i :: 0 <= i < |qs| ==> qs[i] in ps)
  }

  lemma SameProjectionsSameEntries(ps: seq<Projection>, qs: seq<Projection>, only: Option<Visibility>)
    requires SameProjections(ps, qs)
    ensures SameEntries(Visible(ps, only), Visible(qs, only))
  {
    forall e ensures e in Visible(ps, only) <==> e in Visible(qs, only) {
      VisibleHolds(ps, only, e);
      VisibleHolds(qs, only, e);
    }
  }

  lemma ContendsInBoth(ps: seq<Projection>, qs: seq<Projection>, only: Option<Visibility>, e: Event)
    requires SameProjections(ps, qs) && Contends(ps, only, e)
    ensures Contends(qs, only, e)
  {
    SameProjectionsSameEntries(ps, qs, only);
    var i :| 0 <= i < |ps| && Champion(ps[i], only, e);
    var j :| 0 <= j < |qs| && qs[j] == ps[i];
    if Outranked(Visible(qs, only), e) { OutrankedInBoth(Visible(qs, only), Visible(ps, only), e); }
  }

  /** Reordering the projections, or repeating some, changes nothing when the contenders agree. */
  lemma ProjectionOrderIsIrrelevant(ps: seq<Projection>, qs: seq<Projection>, only: Option<Visibility>)
    requires SameProjections(ps, qs) && ContendersAgree(ps, only)
    ensures Canonical(Visible(ps, only)) == Canonical(Visible(qs, only))
  {
    forall a, b | Contends(qs, only, a) && Contends(qs, only, b) && a.id == b.id ensures a == b {
      ContendsInBoth(qs, ps, only, a);
      ContendsInBoth(qs, ps, only, b);
    }
    forall e ensures Wins(Visible(ps, only), e) <==> Wins(Visible(qs, only), e) {
      if Wins(Visible(ps, only), e) {
        WinnersContend(ps, only, e);
        ContendsInBoth(ps, qs, only, e);
        ContendersWin(qs, only, e);
      }
      if Wins(Visible(qs, only), e) {
        WinnersContend(qs, only, e);
        ContendsInBoth(qs, ps, only, e);
        ContendersWin(ps, only, e);
      }
    }
    SameWinnersSameResult(Visible(ps, only), Visible(qs, only));
  }

  lemma SameWinnersSameResult(s: seq<Event>, t: seq<Event>)
    requires forall e :: Wins(s, e) <==> Wins(t, e)
    ensures Canonical(s) == Canonical(t)
  {
    CanonicalIsSortedWinners(s, Canonical(s));
    CanonicalIsSortedWinners(t, Canonical(s));
  }

  lemma MovedLastIsReordered<T>(s: seq<T>, i: nat)
    requires i < |s|
    ensures multiset(MovedLast(s, i)) == multiset(s)
  {
    assert s == s[..i] + [s[i]] + s[i + 1..];
  }

  lemma ReorderedIsSame(ps: seq<Projection>, qs: seq<Projection>)
    requires multiset(ps) == multiset(qs)
    ensures SameProjections(ps, qs)
  {
    forall i | 0 <= i < |ps| ensures ps[i] in qs { assert ps[i] in multiset(ps); }
    forall i | 0 <= i < |qs| ensures qs[i] in ps { assert qs[i] in multiset(qs); }
  }

  /** Every contender comes out when its projection comes last. */
  lemma ContenderComesOut(ps: seq<Projection>, only: Option<Visibility>, e: Event) returns (qs: seq<Projection>)
    requires Contends(ps, only, e)
    ensures multiset(qs) == multiset(ps) && e in Canonical(Visible(qs, only))
  {
    var i :| 0 <= i < |ps| && Champion(ps[i], only, e);
    qs := MovedLast(ps, i);
    MovedLastIsReordered(ps, i);
    ReorderedIsSame(ps, qs);
    ContendsInBoth(ps, qs, only, e);
    var init := qs[..|qs| - 1];
    assert qs[|qs| - 1] == ps[i] && Visible(qs, only) == Visible(init, only) + Shown(ps[i].value, only);
    if Outranked(Visible(init, only), e) { OutrankedInWhole(Visible(init, only), Shown(ps[i].value, only), e); }
    WinsAtTheEnd(Visible(init, only), Shown(ps[i].value, only), e);
    CanonicalIsSortedWinners(Visible(qs, only), Canonical(Visible(qs, only)));
  }

  /** Every order of the projections gives the same result. */
  ghost predicate OrderOfProjectionsIsIrrelevant(ps: seq<Projection>, only: Option<Visibility>) {
    forall qs :: multiset(qs) == multiset(ps) ==> Canonical(Visible(qs, only)) == Canonical(Visible(ps, only))
  }

  lemma AgreementIsNecessary(ps: seq<Projection>, only: Option<Visibility>, a: Event, b: Event)
    requires OrderOfProjectionsIsIrrelevant(ps, only)
    requires Contends(ps, only, a) && Contends(ps, only, b) && a.id == b.id
    ensures a == b
  {
    var qa := ContenderComesOut(ps, only, a);
    var qb := ContenderComesOut(ps, only, b);
    OneRowPerId(Visible(ps, only), a, b);
  }

  /** The result is the same for every order of the projections exactly when the contenders of each id agree. */
  lemma ProjectionOrderIsIrrelevantIff(ps: seq<Projection>, only: Option<Visibility>)
    ensures OrderOfProjectionsIsIrrelevant(ps, only) <==> ContendersAgree(ps, only)
  {
    if ContendersAgree(ps, only) {
      forall qs | multiset(qs) == multiset(ps) ensures Canonical(Visible(qs, only)) == Canonical(Visible(ps, only)) {
        ReorderedIsSame(ps, qs);
        ProjectionOrderIsIrrelevant(ps, qs, only);
      }
    }
    if OrderOfProjectionsIsIrrelevant(ps, only) {
      forall a, b | Contends(ps, only, a) && Contends(ps, only, b) && a.id == b.id ensures a == b {
        AgreementIsNecessary(ps, only, a, b);
      }
    }
  }

  /** Distinct commit cursors per id, the promise of the source, make the contenders agree. */
  lemma DistinctCursorsAgree(ps: seq<Projection>, only: Option<Visibility>)
    requires forall a, b :: a in Visible(ps, only) && b in Visible(ps, only) && a.id == b.id && a.cursor == b.cursor ==>
        a == b
    ensures ContendersAgree(ps, only)
  {
    forall a, b | Contends(ps, only, a) && Contends(ps, only, b) && a.id == b.id ensures a == b {
      ContenderIsVisible(ps, only, a);
      ContenderIsVisible(ps, only, b);
    }
  }

  /** Two projections with different entries of one id at one cursor: the later projection decides. */
  lemma TiesDependOnTheOrder(a: Event, b: Event)
    requires a.id == b.id && a.cursor == b.cursor
    ensures Canonical(Visible([Some([a]), Some([b])], None)) == [b]
    ensures Canonical(Visible([Some([b]), Some([a])], None)) == [a]
  {
    TheLaterTieWins(a, b);
    TheLaterTieWins(b, a);
  }

  lemma ShownOne(e: Event)
    ensures Shown([e], None) == [e]
  {
    assert [e][..0] == [];
    assert Shown([e], None) == [] + [e];
  }

  lemma VisibleAdds(ps: seq<Projection>, e: Event)
    ensures Visible(ps + [Some([e])], None) == Visible(ps, None) + [e]
  {
    assert (ps + [Some([e])])[..|ps|] == ps;
    ShownOne(e);
  }

  lemma TheLaterTieWins(a: Event, b: Event)
    requires a.id == b.id && a.cursor == b.cursor
    ensures Canonical(Visible([Some([a]), Some([b])], None)) == [b]
  {
    var none: seq<Projection> := [];
    assert none + [Some([a])] == [Some([a])] && [Some([a])] + [Some([b])] == [Some([a]), Some([b])];
    VisibleAdds(none, a);
    VisibleAdds([Some([a])], b);
    assert Visible(none, None) + [a] == [] + [a] == [a];
    RowsAfter([], a);
    RowsAfter([a], b);
    assert [] + [a] == [a] && [b] + [a][1..] == [b] && [b][..0] == [];
    assert Sort([b], Before) == [b];
  }

  // ----- The merge in the source's own form -----

  lemma RowsAfter(s: seq<Event>, e: Event)
    ensures Rows(s + [e]) == Put(Rows(s), e)
  {
    assert (s + [e])[..|s|] == s;
  }

  lemma ShownAfter(before: seq<Event>, activities: seq<Event>, k: nat, only: Option<Visibility>)
    requires k < |activities|
    ensures before + Shown(activities[..k + 1], only)
         == before + Shown(activities[..k], only) + if only.None? || only.value in activities[k].shown
             then [activities[k]] else []
  {
    assert activities[..k + 1][..k] == activities[..k];
  }

  /** The rows of what was seen before, and then of the visible activities of one projection. */
  method MergeProjection(rows: seq<Event>, ghost before: seq<Event>, activities: seq<Event>, only: Option<Visibility>)
    returns (merged: seq<Event>)
    requires rows == Rows(before)
    ensures merged == Rows(before + Shown(activities, only))
  {
    merged := rows;
    assert before + Shown(activities[..0], only) == before;
    for k := 0 to |activities|
      invariant merged == Rows(before + Shown(activities[..k], only))
    {
      ShownAfter(before, activities, k, only);
      var e := activities[k];
      if only.Some? && only.value !in e.shown {
        assert before + Shown(activities[..k], only) + [] == before + Shown(activities[..k], only);
        continue;
      }
      RowsAfter(before + Shown(activities[..k], only), e);
      merged := Put(merged, e);
    }
    assert activities[..|activities|] == activities;
  }

  lemma VisibleAfter(ps: seq<Projection>, i: nat, only: Option<Visibility>)
    requires i < |ps|
    ensures Visible(ps[..i + 1], only)
         == Visible(ps[..i], only) + match ps[i] case None => [] case Some(activities) => Shown(activities, only)
  {
    assert ps[..i + 1][..i] == ps[..i];
  }

  method CanonicalActivityEvents(projections: seq<Projection>, only: Option<Visibility>) returns (events: seq<Event>)
    ensures events == Canonical(Visible(projections, only))
  {
    var rows: seq<Event> := [];
    for i := 0 to |projections|
      invariant rows == Rows(Visible(projections[..i], only))
    {
      VisibleAfter(projections, i, only);
      if projections[i].None? {
        assert Visible(projections[..i], only) + [] == Visible(projections[..i], only);
        continue;
      }
      rows := MergeProjection(rows, Visible(projections[..i], only), projections[i].value, only);
    }
    assert projections[..|projections|] == projections;
    return Sort(rows, Before);
  }
}
