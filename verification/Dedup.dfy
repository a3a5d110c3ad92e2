/**
 The bounded store of seen message ids (crates/edge-adapters/src/platform/dedup.rs) and the unbounded history of
 admissions it stands for. Clock readings are parameters and need not grow.
 */
module Dedup {
  import opened Wrappers

  /** Message ids are only ever compared. */
  type MessageId = int

  datatype Admission = Admission(id: MessageId, at: int)

  function Ids(h: seq<Admission>): set<MessageId> {
    if h == [] then {} else {h[0].id} + Ids(h[1..])
  }

  lemma {:induction false} IdsHold(h: seq<Admission>, id: MessageId)
    ensures id in Ids(h) <==> exists i :: 0 <= i < |h| && h[i].id == id
  {
    if h != [] {
      IdsHold(h[1..], id);
      if id in Ids(h[1..]) {
        var i :| 0 <= i < |h[1..]| && h[1..][i].id == id;
        assert h[i + 1].id == id;
      }
      if i :| 1 <= i < |h| && h[i].id == id {
        assert h[1..][i - 1].id == id;
      }
    }
  }

  lemma {:induction false} IdsSplit(a: seq<Admission>, b: seq<Admission>)
    ensures Ids(a + b) == Ids(a) + Ids(b)
  {
    if a == [] {
      assert a + b == b;
    } else {
      assert (a + b)[1..] == a[1..] + b;
      IdsSplit(a[1..], b);
    }
  }

  predicate Unique(s: seq<Admission>) {
    forall i, j :: 0 <= i < j < |s| ==> s[i].id != s[j].id
  }

  // ----- What the unbounded history says -----

  predicate LastAdmission(h: seq<Admission>, i: int, id: MessageId) {
    0 <= i < |h| && h[i].id == id && id !in Ids(h[i + 1..])
  }

  /**
   Fewer than `maxSize` other ids were admitted since the last admission of `id`, and that one is younger than the TTL.
   */
  predicate Duplicate(h: seq<Admission>, maxSize: nat, ttl: int, id: MessageId, now: int) {
    exists i {:trigger h[i]} :: 0 <= i < |h| && LastAdmission(h, i, id) && |Ids(h[i + 1..])| < maxSize &&
        now - h[i].at < ttl
  }

  // ----- The store as a value -----

  function Position(s: seq<Admission>, id: MessageId): Option<nat> {
    if s == [] then None
    else if s[0].id == id then Some(0)
    else match Position(s[1..], id) case None => None case Some(p) => Some(p + 1)
  }

  /** Removes the first entry of the id. */
  function Without(s: seq<Admission>, id: MessageId): seq<Admission> {
    if s == [] then [] else if s[0].id == id then s[1..] else [s[0]] + Without(s[1..], id)
  }

  /** The newest `n` entries. */
  function Newest(s: seq<Admission>, n: nat): seq<Admission> {
    if |s| <= n then s else s[|s| - n..]
  }

  /** Remove the id's entry, evict down to one below capacity, push. */
  function Admit(s: seq<Admission>, maxSize: nat, a: Admission): seq<Admission>
    requires maxSize >= 1
  {
    Newest(Without(s, a.id), maxSize - 1) + [a]
  }

  predicate Fresh(s: seq<Admission>, ttl: int, id: MessageId, now: int) {
    var p := Position(s, id);
    p.Some? && p.value < |s| && now - s[p.value].at < ttl
  }

  lemma {:induction false} PositionFinds(s: seq<Admission>, id: MessageId)
    ensures match Position(s, id)
            case None => forall j :: 0 <= j < |s| ==> s[j].id != id
            case Some(p) => p < |s| && s[p].id == id && forall j :: 0 <= j < p ==> s[j].id != id
  {
    if s != [] && s[0].id != id {
      PositionFinds(s[1..], id);
      assert forall j :: 0 < j < |s| ==> s[j] == s[1..][j - 1];
    }
  }

  lemma {:induction false} WithoutNone(s: seq<Admission>, id: MessageId)
    requires forall j :: 0 <= j < |s| ==> s[j].id != id
    ensures Without(s, id) == s
  {
    if s != [] {
      WithoutNone(s[1..], id);
      assert s == [s[0]] + s[1..];
    }
  }

  lemma {:induction false} WithoutAt(s: seq<Admission>, id: MessageId, p: nat)
    requires p < |s| && s[p].id == id && forall j :: 0 <= j < p ==> s[j].id != id
    ensures Without(s, id) == s[..p] + s[p + 1..]
  {
    if p > 0 {
      WithoutAt(s[1..], id, p - 1);
      assert s[..p] == [s[0]] + s[1..][..p - 1];
      assert s[p + 1..] == s[1..][p..];
    }
  }

  lemma {:induction false} WithoutLength(s: seq<Admission>, id: MessageId)
    ensures |s| - 1 <= |Without(s, id)| <= |s|
  {
    if s != [] && s[0].id != id { WithoutLength(s[1..], id); }
  }

  // ----- The entries an unbounded store would hold -----

  /** The last admission of every id, oldest first. */
  function Latest(h: seq<Admission>): seq<Admission> {
    if h == [] then [] else (if h[0].id in Ids(h[1..]) then [] else [h[0]]) + Latest(h[1..])
  }

  lemma {:induction false} LatestKeepsIds(h: seq<Admission>)
    ensures Ids(Latest(h)) == Ids(h) && Unique(Latest(h)) && |Latest(h)| == |Ids(h)|
  {
    if h != [] {
      var t := Latest(h[1..]);
      LatestKeepsIds(h[1..]);
      if h[0].id !in Ids(h[1..]) {
        assert ([h[0]] + t)[1..] == t;
        IdsHold(t, h[0].id);
      } else {
        assert Latest(h) == t && Ids(h) == Ids(h[1..]);
      }
    }
  }

  /** Every entry is a last admission, with the later ids after it. */
  lemma {:induction false} LatestIsLast(h: seq<Admission>, q: nat) returns (i: nat)
    requires q < |Latest(h)|
    ensures LastAdmission(h, i, Latest(h)[q].id) && h[i] == Latest(h)[q]
    ensures |Latest(h)| - 1 - q == |Latest(h[i + 1..])|
  {
    var shown := if h[0].id in Ids(h[1..]) then 0 else 1;
    if q < shown {
      i := 0;
    } else {
      var k := LatestIsLast(h[1..], q - shown);
      i := k + 1;
      assert h[1..][k + 1..] == h[i + 1..];
    }
  }

  lemma {:induction false} LastIsLatest(h: seq<Admission>, i: nat)
    requires i < |h| && LastAdmission(h, i, h[i].id)
    ensures |Latest(h[i + 1..])| < |Latest(h)|
    ensures Latest(h)[|Latest(h)| - 1 - |Latest(h[i + 1..])|] == h[i]
  {
    if i > 0 {
      assert h[1..][i..] == h[i + 1..];
      LastIsLatest(h[1..], i - 1);
    }
  }

  lemma WithoutAbsent(s: seq<Admission>, id: MessageId)
    requires id !in Ids(s)
    ensures Without(s, id) == s
  {
    IdsHold(s, id);
    WithoutNone(s, id);
  }

  lemma LatestOf(x: Admission, h: seq<Admission>)
    ensures Latest([x] + h) == (if x.id in Ids(h) then [] else [x]) + Latest(h)
  {
    assert ([x] + h)[1..] == h;
  }

  lemma WithoutOf(x: Admission, s: seq<Admission>, id: MessageId)
    ensures Without([x] + s, id) == if x.id == id then s else [x] + Without(s, id)
  {
    assert ([x] + s)[1..] == s;
  }

  /** Admitting an id moves it to the end. */
  lemma {:induction false} LatestAfter(h: seq<Admission>, a: Admission)
    ensures Latest(h + [a]) == Without(Latest(h), a.id) + [a]
  {
    if h == [] {
      LatestOf(a, []);
      assert h + [a] == [a] + [];
    } else {
      LatestAfter(h[1..], a);
      LatestAfterHead(h[0], h[1..], a);
      assert h == [h[0]] + h[1..];
    }
  }

  lemma LatestAfterHead(x: Admission, h: seq<Admission>, a: Admission)
    requires Latest(h + [a]) == Without(Latest(h), a.id) + [a]
    ensures Latest([x] + h + [a]) == Without(Latest([x] + h), a.id) + [a]
  {
    assert [x] + h + [a] == [x] + (h + [a]);
    LatestOf(x, h);
    LatestOf(x, h + [a]);
    IdsAfter(h, a);
    LatestKeepsIds(h);
    MovedToTheEnd(x, Latest(h), Latest(h + [a]), a, x.id in Ids(h));
  }

  lemma IdsAfter(h: seq<Admission>, a: Admission)
    ensures Ids(h + [a]) == Ids(h) + {a.id}
  {
    IdsSplit(h, [a]);
    assert Ids([a]) == {a.id};
  }

  /** The case analysis on the head: seen again later, the id that is admitted, or another. */
  lemma MovedToTheEnd(x: Admission, before: seq<Admission>, after: seq<Admission>, a: Admission, again: bool)
    requires after == Without(before, a.id) + [a] && (again <==> x.id in Ids(before))
    ensures (if again || x.id == a.id then [] else [x]) + after
         == Without((if again then [] else [x]) + before, a.id) + [a]
  {
    if again {
      assert [] + before == before && [] + after == after;
    } else {
      WithoutOf(x, before, a.id);
      if x.id == a.id {
        WithoutAbsent(before, a.id);
        assert [] + after == after;
      } else {
        assert [x] + (Without(before, a.id) + [a]) == [x] + Without(before, a.id) + [a];
      }
    }
  }

  // ----- The bounded store holds the newest of them -----

  lemma NewestDropsHead(x: Admission, s: seq<Admission>, n: nat)
    requires |s| >= n
    ensures Newest([x] + s, n) == Newest(s, n)
  {
  }

  lemma NewestPush(s: seq<Admission>, n: nat, a: Admission)
    requires n >= 1
    ensures Newest(s, n - 1) + [a] == Newest(s + [a], n)
  {
  }

  lemma UniqueTail(x: Admission, s: seq<Admission>)
    requires Unique([x] + s)
    ensures Unique(s) && forall j :: 0 <= j < |s| ==> s[j].id != x.id
  {
    var all := [x] + s;
    assert all[0] == x;
    forall i, j | 0 <= i < j < |s| ensures s[i].id != s[j].id {
      assert all[i + 1] == s[i] && all[j + 1] == s[j];
    }
    forall j | 0 <= j < |s| ensures s[j].id != x.id {
      assert all[j + 1] == s[j];
    }
  }

  lemma {:induction false} AdmitKeepsNewest(all: seq<Admission>, maxSize: nat, a: Admission)
    requires maxSize >= 1 && Unique(all)
    ensures Admit(Newest(all, maxSize), maxSize, a) == Newest(Without(all, a.id) + [a], maxSize)
    decreases |all|
  {
    if |all| <= maxSize {
      NewestPush(Without(all, a.id), maxSize, a);
    } else {
      var x, rest := all[0], all[1..];
      assert all == [x] + rest;
      UniqueTail(x, rest);
      AdmitKeepsNewest(rest, maxSize, a);
      AdmitKeepsNewestHead(x, rest, maxSize, a);
    }
  }

  lemma AdmitKeepsNewestHead(x: Admission, rest: seq<Admission>, maxSize: nat, a: Admission)
    requires |rest| >= maxSize >= 1 && Unique([x] + rest)
    requires Admit(Newest(rest, maxSize), maxSize, a) == Newest(Without(rest, a.id) + [a], maxSize)
    ensures Admit(Newest([x] + rest, maxSize), maxSize, a) == Newest(Without([x] + rest, a.id) + [a], maxSize)
  {
    NewestDropsHead(x, rest, maxSize);
    WithoutOf(x, rest, a.id);
    if x.id == a.id {
      UniqueTail(x, rest);
      WithoutNone(rest, a.id);
    } else {
      WithoutLength(rest, a.id);
      PushPastHead(x, Without(rest, a.id), maxSize, a);
    }
  }

  lemma PushPastHead(x: Admission, s: seq<Admission>, n: nat, a: Admission)
    requires |s| + 1 >= n
    ensures Newest([x] + s + [a], n) == Newest(s + [a], n)
  {
    assert [x] + s + [a] == [x] + (s + [a]);
    NewestDropsHead(x, s + [a], n);
  }

  ghost predicate Represents(s: seq<Admission>, maxSize: nat, h: seq<Admission>) {
    s == Newest(Latest(h), maxSize)
  }

  lemma AdmitRepresents(s: seq<Admission>, maxSize: nat, h: seq<Admission>, a: Admission)
    requires maxSize >= 1 && Represents(s, maxSize, h)
    ensures Represents(Admit(s, maxSize, a), maxSize, h + [a])
  {
    LatestKeepsIds(h);
    LatestAfter(h, a);
    AdmitKeepsNewest(Latest(h), maxSize, a);
  }

  /** Ids are unique in the store, and it never holds more than its capacity. */
  lemma StoreIsBounded(s: seq<Admission>, maxSize: nat, h: seq<Admission>)
    requires Represents(s, maxSize, h)
    ensures Unique(s) && |s| <= maxSize && |s| <= |Ids(h)|
  {
    LatestKeepsIds(h);
  }

  lemma AdmitIsBounded(s: seq<Admission>, maxSize: nat, h: seq<Admission>, a: Admission)
    requires maxSize >= 1 && Represents(s, maxSize, h)
    ensures Represents(Admit(s, maxSize, a), maxSize, h + [a])
    ensures Unique(Admit(s, maxSize, a)) && |Admit(s, maxSize, a)| <= maxSize
  {
    AdmitRepresents(s, maxSize, h, a);
    StoreIsBounded(Admit(s, maxSize, a), maxSize, h + [a]);
  }

  /** The store calls an id a duplicate exactly when the unbounded history does. */
  lemma StoreDecidesAsHistory(s: seq<Admission>, maxSize: nat, h: seq<Admission>, ttl: int, id: MessageId, now: int)
    requires Represents(s, maxSize, h)
    ensures Fresh(s, ttl, id, now) <==> Duplicate(h, maxSize, ttl, id, now)
  {
    PositionFinds(s, id);
    LatestKeepsIds(h);
    var all := Latest(h);
    if Fresh(s, ttl, id, now) {
      var p := Position(s, id).value;
      var q := if |all| <= maxSize then p else |all| - maxSize + p;
      assert all[q] == s[p];
      var i := LatestIsLast(h, q);
      LatestKeepsIds(h[i + 1..]);
    }
    if Duplicate(h, maxSize, ttl, id, now) {
      var i :| 0 <= i < |h| && LastAdmission(h, i, id) && |Ids(h[i + 1..])| < maxSize && now - h[i].at < ttl;
      DuplicateIsHeld(s, maxSize, h, i);
    }
  }

  lemma NewestFinds(all: seq<Admission>, n: nat, k: nat)
    requires Unique(all) && k < |all| && |all| - 1 - k < n
    ensures var s := Newest(all, n);
            var p := Position(s, all[k].id);
            p.Some? && p.value < |s| && s[p.value] == all[k]
  {
    var s := Newest(all, n);
    assert s[|s| - |all| + k] == all[k];
    PositionFinds(s, all[k].id);
  }

  lemma PlaceInLatest(h: seq<Admission>, i: nat)
    requires i < |h| && LastAdmission(h, i, h[i].id)
    ensures var k := |Latest(h)| - 1 - |Ids(h[i + 1..])|; Unique(Latest(h)) && k >= 0 && Latest(h)[k] == h[i]
  {
    LastIsLatest(h, i);
    LatestKeepsIds(h[i + 1..]);
    LatestKeepsIds(h);
  }

  lemma DuplicateIsHeld(s: seq<Admission>, maxSize: nat, h: seq<Admission>, i: nat)
    requires Represents(s, maxSize, h) && i < |h| && LastAdmission(h, i, h[i].id) && |Ids(h[i + 1..])| < maxSize
    ensures var p := Position(s, h[i].id); p.Some? && p.value < |s| && s[p.value] == h[i]
  {
    PlaceInLatest(h, i);
    NewestFinds(Latest(h), maxSize, |Latest(h)| - 1 - |Ids(h[i + 1..])|);
  }

  // ----- Whole runs -----

  datatype Call = IsDuplicate(id: MessageId, now: int) | MarkSeen(id: MessageId, now: int)

  /** What each call of a run answers; `MarkSeen` answers nothing, shown as false. */
  function StoreRun(s: seq<Admission>, maxSize: nat, ttl: int, calls: seq<Call>): seq<bool>
    requires maxSize >= 1
    decreases |calls|
  {
    if calls == [] then []
    else
      var c := calls[0];
      var duplicate := c.IsDuplicate? && Fresh(s, ttl, c.id, c.now);
      var s' := if duplicate then s else Admit(s, maxSize, Admission(c.id, c.now));
      [duplicate] + StoreRun(s', maxSize, ttl, calls[1..])
  }

  function HistoryRun(h: seq<Admission>, maxSize: nat, ttl: int, calls: seq<Call>): seq<bool>
    decreases |calls|
  {
    if calls == [] then []
    else
      var c := calls[0];
      var duplicate := c.IsDuplicate? && Duplicate(h, maxSize, ttl, c.id, c.now);
      [duplicate] + HistoryRun(if duplicate then h else h + [Admission(c.id, c.now)], maxSize, ttl, calls[1..])
  }

  lemma {:induction false} RunsAgree(s: seq<Admission>, h: seq<Admission>, maxSize: nat, ttl: int, calls: seq<Call>)
    requires maxSize >= 1 && Represents(s, maxSize, h)
    ensures StoreRun(s, maxSize, ttl, calls) == HistoryRun(h, maxSize, ttl, calls)
    decreases |calls|
  {
    if calls != [] {
      var c := calls[0];
      StoreDecidesAsHistory(s, maxSize, h, ttl, c.id, c.now);
      if c.IsDuplicate? && Fresh(s, ttl, c.id, c.now) {
        RunsAgree(s, h, maxSize, ttl, calls[1..]);
      } else {
        var a := Admission(c.id, c.now);
        AdmitRepresents(s, maxSize, h, a);
        RunsAgree(Admit(s, maxSize, a), h + [a], maxSize, ttl, calls[1..]);
      }
    }
  }

  /** From an empty store, every sequence of calls is answered as the unbounded history would answer it. */
  lemma BoundedStoreIsUnboundedHistory(maxSize: nat, ttl: int, calls: seq<Call>)
    requires maxSize >= 1
    ensures StoreRun([], maxSize, ttl, calls) == HistoryRun([], maxSize, ttl, calls)
  {
    RunsAgree([], [], maxSize, ttl, calls);
  }

  // ----- The eviction loop -----

  /** `n` rounds of the loop body; popping an empty queue changes nothing. */
  function Evict(s: seq<Admission>, n: nat): seq<Admission> {
    if n == 0 then s else Evict(if s == [] then s else s[1..], n - 1)
  }

  lemma {:induction false} EvictDrops(s: seq<Admission>, n: nat)
    ensures Evict(s, n) == if n <= |s| then s[n..] else []
  {
    if n > 0 { EvictDrops(if s == [] then s else s[1..], n - 1); }
  }

  /** The loop comes to an end exactly when the capacity is at least one. */
  lemma EvictionEndsIff(s: seq<Admission>, maxSize: nat)
    ensures (exists n: nat :: |Evict(s, n)| < maxSize) <==> maxSize >= 1
  {
    EvictDrops(s, |s|);
    assert |Evict(s, |s|)| == 0;
  }

  // ----- The store in the source's own form -----

  class DedupStore {
    var seen: seq<Admission>
    const maxSize: nat
    const ttl: int
    ghost var history: seq<Admission>

    ghost predicate Valid()
      reads this
    {
      maxSize >= 1 && Represents(seen, maxSize, history)
    }

    constructor (maxSize: nat, ttl: int)
      requires maxSize >= 1
      ensures Valid() && history == [] && this.maxSize == maxSize && this.ttl == ttl
    {
      this.maxSize, this.ttl, seen, history := maxSize, ttl, [], [];
    }

    method FindPosition(id: MessageId) returns (pos: Option<nat>)
      ensures pos == Position(seen, id)
    {
      PositionFinds(seen, id);
      for i := 0 to |seen|
        invariant forall j :: 0 <= j < i ==> seen[j].id != id
      {
        if seen[i].id == id { return Some(i); }
      }
      return None;
    }

    /** Removes the entry found for the id, if any, evicts and pushes. */
    method Store(pos: Option<nat>, a: Admission)
      requires maxSize >= 1 && pos == Position(seen, a.id)
      modifies `seen
      ensures seen == Admit(old(seen), maxSize, a)
    {
      PositionFinds(seen, a.id);
      if pos.Some? {
        WithoutAt(seen, a.id, pos.value);
        seen := seen[..pos.value] + seen[pos.value + 1..];
      } else {
        WithoutNone(seen, a.id);
      }
      EvictAndPush(a);
    }

    method EvictAndPush(a: Admission)
      requires maxSize >= 1
      modifies `seen
      ensures seen == Newest(old(seen), maxSize - 1) + [a]
    {
      while |seen| >= maxSize
        invariant |seen| <= |old(seen)| && seen == old(seen)[|old(seen)| - |seen|..]
        invariant |seen| >= maxSize - 1 || seen == old(seen)
      {
        seen := seen[1..];
      }
      seen := seen + [a];
    }

    method IsDuplicate(id: MessageId, now: int) returns (duplicate: bool)
      requires Valid()
      modifies this
      ensures Valid() && Unique(seen) && |seen| <= maxSize
      ensures duplicate == Duplicate(old(history), maxSize, ttl, id, now)
      ensures history == old(history) + if duplicate then [] else [Admission(id, now)]
      ensures duplicate ==> seen == old(seen)
    {
      StoreDecidesAsHistory(seen, maxSize, history, ttl, id, now);
      StoreIsBounded(seen, maxSize, history);
      AdmitIsBounded(seen, maxSize, history, Admission(id, now));
      PositionFinds(seen, id);
      var pos := FindPosition(id);
      if pos.Some? && now - seen[pos.value].at < ttl { return true; }
      Store(pos, Admission(id, now));
      history := history + [Admission(id, now)];
      return false;
    }

    method MarkSeen(id: MessageId, now: int)
      requires Valid()
      modifies this
      ensures Valid() && Unique(seen) && |seen| <= maxSize
      ensures history == old(history) + [Admission(id, now)]
    {
      AdmitIsBounded(seen, maxSize, history, Admission(id, now));
      var pos := FindPosition(id);
      Store(pos, Admission(id, now));
      history := history + [Admission(id, now)];
    }
  }
}
