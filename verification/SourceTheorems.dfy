/** What a whole chain of incremental runs delivers, over any append-only growth of the table. */
module SourceTheorems {
  import opened Wrappers
  import opened TextOrder
  import opened IncrementalSource

  // ----- Positions -----

  function Value(w: Option<Watermark>, mode: Mode): Option<string> {
    if w.Some? then PreviousValue(w.value, mode) else None
  }

  function Offset(w: Option<Watermark>): nat {
    if w.Some? then GetOr(w.value.offset, 0) else 0
  }

  /** The rows at or below the watermark value; none when it is null. */
  function Floor(s: Source, cast: string -> int, mode: Mode): (n: nat)
    ensures n <= |s.table|
  {
    var v := Value(s.watermark, mode);
    if mode == ByOffset || v.None? then 0 else Base(s.table, cast(v.value))
  }

  function Position(s: Source, cast: string -> int, mode: Mode): nat {
    Floor(s, cast, mode) + Offset(s.watermark)
  }

  /** The string order of the field agrees with the database order. */
  ghost predicate Agrees(table: seq<Row>) {
    forall i, j :: 0 <= i < |table| && 0 <= j < |table| && table[i].key < table[j].key ==>
        !LexLe(table[j].text, table[i].text)
  }

  predicate Tops(rows: seq<Row>, i: nat)
    requires i < |rows|
  {
    forall j :: 0 <= j < |rows| ==> LexLe(rows[j].text, rows[i].text)
  }

  /** The greatest text of a page belongs to a row with the key of its last row. */
  predicate TopIsLast(rows: seq<Row>) {
    exists i :: 0 <= i < |rows| && rows[i].key == rows[|rows| - 1].key && Tops(rows, i)
  }

  /**
   The rows from `p` to `e` may be the last page of a window: they fit one page, and the table may have ended there.
   */
  predicate MayClose(table: seq<Row>, p: nat, e: nat) {
    p < e <= |table| && e - p <= 1000 && (e < |table| ==> table[e - 1].key < table[e].key)
  }

  /** The agreement that matters: on every page that may close a window. */
  ghost predicate PagesAgree(table: seq<Row>) {
    forall p: nat, e: nat :: MayClose(table, p, e) ==> TopIsLast(table[p..e])
  }

  lemma {:induction false} SomeRowTops(rows: seq<Row>) returns (i: nat)
    requires rows != []
    ensures i < |rows| && Tops(rows, i) && MaxText(rows) == Some(rows[i].text)
  {
    MaxTextIsGreatest(rows);
    i :| 0 <= i < |rows| && rows[i].text == MaxText(rows).value;
  }

  /** Agreement of the whole table gives agreement on its pages. */
  lemma AgreementCoversPages(table: seq<Row>)
    requires SortedByKey(table) && Agrees(table)
    ensures PagesAgree(table)
  {
    forall p: nat, e: nat | MayClose(table, p, e) ensures TopIsLast(table[p..e]) {
      var rows := table[p..e];
      var i := SomeRowTops(rows);
      assert rows[i] == table[p + i] && rows[|rows| - 1] == table[e - 1];
      assert LexLe(table[e - 1].text, table[p + i].text);
    }
  }

  /** With distinct field values the two are the same. */
  lemma DistinctKeysAgreeIff(table: seq<Row>, cast: string -> int)
    requires Typed(table, cast) && forall i, j :: 0 <= i < j < |table| ==> table[i].key < table[j].key
    ensures PagesAgree(table) <==> Agrees(table)
  {
    if Agrees(table) { AgreementCoversPages(table); }
    if PagesAgree(table) {
      forall i, j | 0 <= i < |table| && 0 <= j < |table| && table[i].key < table[j].key
        ensures !LexLe(table[j].text, table[i].text)
      {
        TextsRise(table, cast, i, j);
      }
    }
  }

  lemma {:induction false} TextsRise(table: seq<Row>, cast: string -> int, i: nat, j: nat)
    requires Typed(table, cast) && (forall i, j :: 0 <= i < j < |table| ==> table[i].key < table[j].key)
    requires PagesAgree(table) && i < j < |table|
    ensures LexLe(table[i].text, table[j].text) && !LexLe(table[j].text, table[i].text)
    decreases j - i
  {
    NeighboursRise(table, j - 1);
    if i < j - 1 {
      TextsRise(table, cast, i, j - 1);
      LexTransitive(table[i].text, table[j - 1].text, table[j].text);
    }
    if LexLe(table[j].text, table[i].text) {
      LexAntisymmetric(table[i].text, table[j].text);
    }
  }

  lemma NeighboursRise(table: seq<Row>, k: nat)
    requires PagesAgree(table) && k + 1 < |table|
    requires table[k].key < table[k + 1].key && (k + 2 < |table| ==> table[k + 1].key < table[k + 2].key)
    ensures LexLe(table[k].text, table[k + 1].text)
  {
    var rows := table[k..k + 2];
    assert MayClose(table, k, k + 2);
    assert TopIsLast(rows) && rows[0] == table[k] && rows[1] == table[k + 1];
  }

  // ----- The invariant -----

  ghost predicate TableOk(table: seq<Row>, cast: string -> int, mode: Mode) {
    && |table| <= I64_MAX
    && (mode != ByOffset ==> Typed(table, cast) && SortedByKey(table))
  }

  /** The watermark has the shape its mode gives it. */
  predicate Shaped(watermark: Option<Watermark>, mode: Mode) {
    match watermark
    case None => true
    case Some(w) =>
      match mode
      case ByUpdatedAt => w.strategy == UpdatedAtField && w.cursor.None?
      case ByCursor => w.strategy == CursorField && w.cursor == w.high
      case ByOffset => w.strategy == OffsetOnly && w.cursor.None? && w.high.None?
  }

  /** ... and its value is that of some row. */
  ghost predicate WatermarkOk(s: Source, mode: Mode) {
    Shaped(s.watermark, mode) && ValueOfRow(s.table, Value(s.watermark, mode))
  }

  ghost predicate ValueOfRow(table: seq<Row>, value: Option<string>) {
    value.Some? ==> exists i :: 0 <= i < |table| && table[i].text == value.value
  }

  ghost predicate Placed(s: Source, cast: string -> int, mode: Mode) {
    && TableOk(s.table, cast, mode) && WatermarkOk(s, mode)
    && Position(s, cast, mode) <= |s.table|
    && (mode != ByOffset && Offset(s.watermark) > 0 ==> Position(s, cast, mode) < |s.table|)
  }

  /** Every row before the position has been delivered, as often as it occurs. */
  ghost predicate Covered(table: seq<Row>, position: nat, delivered: seq<Row>) {
    position <= |table| && multiset(table[..position]) <= multiset(delivered)
  }

  /** Exactly the rows before the position have been delivered, in order. */
  ghost predicate Exact(table: seq<Row>, position: nat, delivered: seq<Row>) {
    position <= |table| && delivered == table[..position]
  }

  // ----- One run -----

  /** The rows the query selects are those above the floor. */
  lemma SelectsAboveTheFloor(s: Source, cast: string -> int, mode: Mode, limit: Option<nat>)
    requires TableOk(s.table, cast, mode) && WatermarkOk(s, mode)
    ensures var plan := WithWatermark(Plan(limit, None, None, None), s.watermark);
            var value := IncrementalValue(plan, mode);
            && (if value.Some? then RowsAbove(s.table, cast(value.value))
                else s.table) == s.table[Floor(s, cast, mode)..]
            && plan.limit == limit && GetOr(plan.offset, 0) == Offset(s.watermark)
  {
    if mode != ByOffset && Value(s.watermark, mode).Some? {
      var v := Value(s.watermark, mode).value;
      assert ValueOfRow(s.table, Some(v));
      RowsAboveIsASuffix(s.table, cast(v));
    }
  }

  /** The batch holds the table's rows from `floor + offset` on, at most `n`, and says whether there are more. */
  ghost predicate IsSlice(batch: Batch, table: seq<Row>, floor: nat, offset: nat, n: nat) {
    var p := floor + offset;
    && p <= |table|
    && batch.rows == table[p..if p + n < |table| then p + n else |table|]
    && (batch.truncated <==> p + n < |table|)
    && batch.offset == offset
    && batch.nextOffset.Some? == batch.truncated
    && (batch.truncated ==> batch.nextOffset.value == offset + n)
  }

  lemma PageIsASlice(table: seq<Row>, floor: nat, offset: nat, n: nat)
    requires floor + offset <= |table| <= I64_MAX && 1 <= n <= 1000
    ensures IsSlice(MakeBatch(Take(Skip(table[floor..], offset), SaturatingAdd(n, 1)), n, offset), table, floor, offset,
        n)
  {
    assert Skip(table[floor..], offset) == table[floor + offset..];
  }

  lemma ReadsASlice(table: seq<Row>, cast: string -> int, mode: Mode, plan: Plan, floor: nat, offset: nat)
    requires floor + offset <= |table| <= I64_MAX && GetOr(plan.offset, 0) == offset
    requires var value := IncrementalValue(plan, mode);
             (if value.Some? then RowsAbove(table, cast(value.value)) else table) == table[floor..]
    ensures IsSlice(ReadBatch(table, cast, plan, mode), table, floor, offset, ClampLimit(plan.limit))
  {
    PageIsASlice(table, floor, offset, ClampLimit(plan.limit));
  }

  /** The batch of a run is the slice of the table that starts at the position. */
  lemma RunReadsTheNextSlice(s: Source, cast: string -> int, mode: Mode, limit: Option<nat>)
    requires TableOk(s.table, cast, mode) && WatermarkOk(s, mode) && Position(s, cast, mode) <= |s.table|
    ensures IsSlice(ReadBatch(s.table, cast, WithWatermark(Plan(limit, None, None, None), s.watermark), mode),
                    s.table, Floor(s, cast, mode), Offset(s.watermark), ClampLimit(limit))
  {
    SelectsAboveTheFloor(s, cast, mode, limit);
    ReadsASlice(s.table, cast, mode, WithWatermark(Plan(limit, None, None, None), s.watermark),
                Floor(s, cast, mode), Offset(s.watermark));
  }

  /** A truncated batch keeps the value and moves the offset; a complete one takes the greatest text and starts over. */
  lemma WatermarkMoves(batch: Batch, before: Option<Watermark>, mode: Mode)
    requires Shaped(before, mode) && batch.offset + |batch.rows| <= I64_MAX
    requires batch.truncated == batch.nextOffset.Some? &&
        (batch.truncated ==> batch.nextOffset.value == batch.offset + |batch.rows|)
    ensures var after := Some(WatermarkAfter(batch, before, mode));
            && Shaped(after, mode)
            && Offset(after) == (if batch.truncated || mode == ByOffset then batch.offset + |batch.rows| else 0)
            && Value(after, mode) ==
               if mode == ByOffset then None
               else if batch.truncated then Value(before, mode) else OrElse(MaxText(batch.rows), Value(before, mode))
  {
  }

  /** The state after a run whose batch is known. */
  lemma RunEffect(s: Source, cast: string -> int, mode: Mode, limit: Option<nat>, expected: Option<nat>)
    requires TableOk(s.table, cast, mode) && WatermarkOk(s, mode) && Position(s, cast, mode) <= |s.table|
    requires RunIncremental(s.table, cast, mode, s.watermark, limit, expected).Ok?
    ensures var s' := Next(s, Run(limit, expected), cast, mode);
            exists batch :: IsSlice(batch, s.table, Floor(s, cast, mode), Offset(s.watermark), ClampLimit(limit))
                         && s' == s.(watermark := Some(WatermarkAfter(batch, s.watermark, mode)),
                             delivered := s.delivered + batch.rows)
  {
    RunReadsTheNextSlice(s, cast, mode, limit);
    var batch := ReadBatch(s.table, cast, WithWatermark(Plan(limit, None, None, None), s.watermark), mode);
    assert IsSlice(batch, s.table, Floor(s, cast, mode), Offset(s.watermark), ClampLimit(limit));
  }

  /** The window stays open: same value, the offset moves on by the rows delivered. */
  lemma OpenWindow(s: Source, s': Source, cast: string -> int, mode: Mode, n: nat)
    requires Placed(s, cast, mode) && Position(s, cast, mode) + n < |s.table|
    requires s'.table == s.table && Shaped(s'.watermark, mode)
    requires Value(s'.watermark, mode) == Value(s.watermark, mode) && Offset(s'.watermark) == Offset(s.watermark) + n
    ensures Placed(s', cast, mode)
    ensures Position(s', cast, mode) == Position(s, cast, mode) + n
  {
  }

  /** Rows with the greatest text share a key, so one of them decides whether that is the last key. */
  lemma TopDecides(rows: seq<Row>, i: nat, cast: string -> int)
    requires Typed(rows, cast) && i < |rows| && Tops(rows, i)
    ensures TopIsLast(rows) <==> rows[i].key == rows[|rows| - 1].key
  {
    if j :| 0 <= j < |rows| && rows[j].key == rows[|rows| - 1].key && Tops(rows, j) {
      LexAntisymmetric(rows[i].text, rows[j].text);
    }
  }

  /** The greatest text of a complete page, and the row of the table it belongs to. */
  lemma TopOfPage(table: seq<Row>, rows: seq<Row>, p: nat, cast: string -> int) returns (k: nat)
    requires Typed(table, cast) && p < |table| && rows == table[p..]
    ensures p <= k < |table| && MaxText(rows) == Some(table[k].text)
    ensures TopIsLast(rows) <==> table[k].key == table[|table| - 1].key
  {
    var i := SomeRowTops(rows);
    RowsOfPage(table, rows, p, cast);
    TopDecides(rows, i, cast);
    k := p + i;
  }

  lemma ValueOfKnownRow(table: seq<Row>, k: nat, cast: string -> int, text: string)
    requires Typed(table, cast) && k < |table| && table[k].text == text
    ensures ValueOfRow(table, Some(text)) && cast(text) == table[k].key
  {
  }

  /** In a complete page the value of the new watermark is that of a row above the old floor. */
  lemma ClosedValue(table: seq<Row>, rows: seq<Row>, p: nat, cast: string -> int)
    requires Typed(table, cast) && SortedByKey(table) && p < |table| && rows == table[p..]
    ensures MaxText(rows).Some?
    ensures ValueOfRow(table, MaxText(rows)) && Base(table, cast(MaxText(rows).value)) > p
    ensures Base(table, cast(MaxText(rows).value)) == |table| <==> TopIsLast(rows)
  {
    var k := TopOfPage(table, rows, p, cast);
    ValueOfKnownRow(table, k, cast, MaxText(rows).value);
    BaseOfRow(table, k);
  }

  lemma RowsOfPage(table: seq<Row>, rows: seq<Row>, p: nat, cast: string -> int)
    requires Typed(table, cast) && p < |table| && rows == table[p..]
    ensures Typed(rows, cast) && rows[|rows| - 1] == table[|table| - 1]
    ensures forall i :: 0 <= i < |rows| ==> rows[i] == table[p + i]
  {
  }

  lemma BaseOfRow(table: seq<Row>, k: nat)
    requires SortedByKey(table) && k < |table|
    ensures Base(table, table[k].key) > k
    ensures Base(table, table[k].key) == |table| <==> table[k].key == table[|table| - 1].key
  {
    BaseSplits(table, table[k].key);
  }

  /** The window closes: the value becomes the greatest text of the page, if it has rows, and the offset starts over. */
  lemma ClosedWindow(s: Source, s': Source, cast: string -> int, mode: Mode)
    requires Placed(s, cast, mode)
    requires s'.table == s.table && Shaped(s'.watermark, mode)
    requires mode == ByOffset ==> Value(s'.watermark, mode).None? && Offset(s'.watermark) == |s.table|
    requires mode != ByOffset ==> Offset(s'.watermark) == 0
    requires mode != ByOffset ==>
               Value(s'.watermark, mode) == OrElse(MaxText(s.table[Position(s, cast, mode)..]),
                   Value(s.watermark, mode))
    ensures Placed(s', cast, mode)
    ensures mode != ByOffset && Position(s, cast, mode) < |s.table| ==>
              Floor(s', cast, mode) > Position(s, cast, mode)
              && Value(s'.watermark, mode) == MaxText(s.table[Position(s, cast, mode)..])
    ensures mode == ByOffset || Position(s, cast, mode) == |s.table| || TopIsLast(s.table[Position(s, cast, mode)..])
       <==> Position(s', cast, mode) == |s.table|
  {
    var p := Position(s, cast, mode);
    if mode != ByOffset && p < |s.table| { ClosedValue(s.table, s.table[p..], p, cast); }
  }

  /** Where a run leaves the position, and what it delivers. */
  ghost predicate Window(s: Source, s': Source, cast: string -> int, mode: Mode, n: nat)
    requires Position(s, cast, mode) <= |s.table|
  {
    var p := Position(s, cast, mode);
    var p' := Position(s', cast, mode);
    && s'.table == s.table
    && (if p + n < |s.table| then p' == p + n && s'.delivered == s.delivered + s.table[p..p + n]
        else
          && p' <= |s.table| && s'.delivered == s.delivered + s.table[p..]
          && (mode != ByOffset && p < |s.table| ==>
                Floor(s', cast, mode) > p && Value(s'.watermark, mode) == MaxText(s.table[p..]))
          && (mode == ByOffset || p == |s.table| || TopIsLast(s.table[p..]) <==> p' == |s.table|))
  }

  // ----- Which runs are refused -----

  /** The revision a caller has to expect: the watermark's, or 0 while there is none. */
  function Revision(w: Option<Watermark>): nat {
    match w
    case None => 0
    case Some(watermark) => watermark.revision
  }

  /** The caller expects nothing, or the revision there is. */
  predicate MayRun(w: Option<Watermark>, expected: Option<nat>) {
    expected.None? || expected.value == Revision(w)
  }

  /** A run is refused exactly when its caller expects another revision than the watermark's. */
  lemma RunIsRefusedIff(s: Source, cast: string -> int, mode: Mode, limit: Option<nat>, expected: Option<nat>)
    ensures RunIncremental(s.table, cast, mode, s.watermark, limit, expected).Err?
       <==> expected.Some? && expected.value != Revision(s.watermark)
  {
  }

  /**
   A refused run changes neither delivery nor watermark; an accepted one does what it would do unasked, leaves a
   watermark and keeps the revision.
   */
  lemma RunKeepsRevision(s: Source, cast: string -> int, mode: Mode, limit: Option<nat>, expected: Option<nat>)
    ensures !MayRun(s.watermark, expected) ==> Next(s, Run(limit, expected), cast, mode) == s
    ensures MayRun(s.watermark, expected) ==>
              var s' := Next(s, Run(limit, expected), cast, mode);
              s' == Next(s, Run(limit, None), cast, mode) && s'.watermark.Some?
    ensures Revision(Next(s, Run(limit, expected), cast, mode).watermark) == Revision(s.watermark)
    ensures Next(s, Run(limit, expected), cast, mode).table == s.table
  {
    RunIsRefusedIff(s, cast, mode, limit, expected);
  }

  /** A run that is not refused moves the window by one page, or closes it. */
  lemma WindowOfRun(s: Source, cast: string -> int, mode: Mode, limit: Option<nat>, expected: Option<nat>)
    requires Placed(s, cast, mode) && MayRun(s.watermark, expected)
    ensures var s' := Next(s, Run(limit, expected), cast, mode);
            Placed(s', cast, mode) && Window(s, s', cast, mode, ClampLimit(limit))
  {
    RunIsRefusedIff(s, cast, mode, limit, expected);
    RunEffect(s, cast, mode, limit, expected);
    var batch :| IsSlice(batch, s.table, Floor(s, cast, mode), Offset(s.watermark), ClampLimit(limit))
              && Next(s, Run(limit, expected), cast, mode)
                 == s.(watermark := Some(WatermarkAfter(batch, s.watermark, mode)),
                     delivered := s.delivered + batch.rows);
    BatchMovesWindow(s, batch, cast, mode, ClampLimit(limit));
  }

  lemma OpenWindowDelivers(s: Source, s': Source, cast: string -> int, mode: Mode, n: nat)
    requires Placed(s, cast, mode) && Position(s, cast, mode) + n < |s.table|
    requires s'.table == s.table && Position(s', cast, mode) == Position(s, cast, mode) + n
    requires s'.delivered == s.delivered + s.table[Position(s, cast, mode)..Position(s, cast, mode) + n]
    ensures Window(s, s', cast, mode, n)
  {
  }

  lemma OpenSlice(batch: Batch, table: seq<Row>, floor: nat, offset: nat, n: nat)
    requires IsSlice(batch, table, floor, offset, n) && floor + offset + n < |table|
    ensures batch.truncated && batch.nextOffset == Some(offset + n) && batch.offset == offset
    ensures batch.rows == table[floor + offset..floor + offset + n] && |batch.rows| == n
  {
  }

  lemma BatchMovesOpenWindow(s: Source, s': Source, batch: Batch, cast: string -> int, mode: Mode, n: nat)
    requires Placed(s, cast, mode) && Position(s, cast, mode) + n < |s.table|
    requires IsSlice(batch, s.table, Floor(s, cast, mode), Offset(s.watermark), n)
    requires s' == s.(watermark := Some(WatermarkAfter(batch, s.watermark, mode)),
                      delivered := s.delivered + batch.rows)
    ensures Placed(s', cast, mode) && Window(s, s', cast, mode, n)
  {
    OpenSlice(batch, s.table, Floor(s, cast, mode), Offset(s.watermark), n);
    WatermarkMoves(batch, s.watermark, mode);
    OpenWindow(s, s', cast, mode, n);
    OpenWindowDelivers(s, s', cast, mode, n);
  }

  lemma BatchClosesWindow(s: Source, s': Source, batch: Batch, cast: string -> int, mode: Mode, n: nat)
    requires Placed(s, cast, mode) && Position(s, cast, mode) + n >= |s.table|
    requires IsSlice(batch, s.table, Floor(s, cast, mode), Offset(s.watermark), n)
    requires s' == s.(watermark := Some(WatermarkAfter(batch, s.watermark, mode)),
                      delivered := s.delivered + batch.rows)
    ensures Placed(s', cast, mode) && Window(s, s', cast, mode, n)
  {
    var p := Position(s, cast, mode);
    assert s.table[p..|s.table|] == s.table[p..];
    WatermarkMoves(batch, s.watermark, mode);
    ClosedWindow(s, s', cast, mode);
  }

  lemma BatchMovesWindow(s: Source, batch: Batch, cast: string -> int, mode: Mode, n: nat)
    requires Placed(s, cast, mode)
    requires IsSlice(batch, s.table, Floor(s, cast, mode), Offset(s.watermark), n)
    ensures var s' := s.(watermark := Some(WatermarkAfter(batch, s.watermark, mode)),
                         delivered := s.delivered + batch.rows);
            Placed(s', cast, mode) && Window(s, s', cast, mode, n)
  {
    var s' := s.(watermark := Some(WatermarkAfter(batch, s.watermark, mode)), delivered := s.delivered + batch.rows);
    if Position(s, cast, mode) + n < |s.table| {
      BatchMovesOpenWindow(s, s', batch, cast, mode, n);
    } else {
      BatchClosesWindow(s, s', batch, cast, mode, n);
    }
  }

  // ----- Growth -----

  /** Appending rows above every existing one moves no floor. */
  lemma GrowKeeps(s: Source, rows: seq<Row>, cast: string -> int, mode: Mode)
    requires Placed(s, cast, mode) && MayGrow(s.table, rows, cast, mode)
    ensures var s' := Next(s, Grow(rows), cast, mode);
            Placed(s', cast, mode) && Position(s', cast, mode) == Position(s, cast, mode)
  {
    var s' := Next(s, Grow(rows), cast, mode);
    assert forall i :: 0 <= i < |s.table| ==> s'.table[i] == s.table[i];
    if mode != ByOffset {
      assert SortedByKey(s'.table);
      if Value(s.watermark, mode).Some? {
        var i :| 0 <= i < |s.table| && s.table[i].text == Value(s.watermark, mode).value;
        assert s'.table[i].text == Value(s.watermark, mode).value;
        BaseStays(s.table, rows, i);
      }
    }
  }

  lemma CoverMoves(table: seq<Row>, delivered: seq<Row>, p: nat, q: nat, p': nat)
    requires Covered(table, p, delivered) && p <= q <= |table| && p' <= |table| && (p' == q || q == |table|)
    ensures Covered(table, p', delivered + table[p..q])
    ensures Exact(table, p, delivered) && p' == q ==> Exact(table, p', delivered + table[p..q])
  {
    assert table[..q] == table[..p] + table[p..q];
    assert multiset(table[..q]) <= multiset(delivered) + multiset(table[p..q]);
    assert multiset(delivered + table[p..q]) == multiset(delivered) + multiset(table[p..q]);
    if q == |table| {
      assert table[..q] == table[..p'] + table[p'..];
      assert multiset(table[..p']) <= multiset(table[..q]);
    }
  }

  lemma CoverGrows(table: seq<Row>, rows: seq<Row>, p: nat, delivered: seq<Row>)
    requires Covered(table, p, delivered)
    ensures Covered(table + rows, p, delivered)
    ensures Exact(table, p, delivered) ==> Exact(table + rows, p, delivered)
  {
    assert (table + rows)[..p] == table[..p];
  }

  // ----- One event of a chain -----

  /** What the chain theorems carry along: the position is sound, and everything before it has been delivered. */
  ghost predicate Inv(s: Source, cast: string -> int, mode: Mode) {
    Placed(s, cast, mode) && Covered(s.table, Position(s, cast, mode), s.delivered)
  }

  ghost predicate ExactSource(s: Source, cast: string -> int, mode: Mode) {
    Exact(s.table, Position(s, cast, mode), s.delivered)
  }

  lemma RunKeeps(s: Source, limit: Option<nat>, expected: Option<nat>, cast: string -> int, mode: Mode)
    requires Inv(s, cast, mode)
    requires RunIncremental(s.table, cast, mode, s.watermark, limit, expected).Ok?
    ensures var s' := Next(s, Run(limit, expected), cast, mode);
            Inv(s', cast, mode) && (ExactSource(s, cast, mode) && (mode == ByOffset || PagesAgree(s.table)) ==>
                ExactSource(s', cast, mode))
  {
    WindowOfRun(s, cast, mode, limit, expected);
    WindowCovers(s, Next(s, Run(limit, expected), cast, mode), cast, mode, ClampLimit(limit));
  }

  /**
   What a window comes down to: the rows from `p` to `q` are delivered, and the position is `q` or the table is done.
   */
  lemma WindowDelivers(s: Source, s': Source, cast: string -> int, mode: Mode, n: nat) returns (q: nat)
    requires Position(s, cast, mode) <= |s.table| && Window(s, s', cast, mode, n) && n <= 1000
    ensures s'.table == s.table && Position(s, cast, mode) <= q <= |s.table|
    ensures s'.delivered == s.delivered + s.table[Position(s, cast, mode)..q]
    ensures Position(s', cast, mode) <= |s.table| && (Position(s', cast, mode) == q || q == |s.table|)
    ensures mode == ByOffset || PagesAgree(s.table) ==> Position(s', cast, mode) == q
  {
    var p := Position(s, cast, mode);
    WholeTail(s.table, p);
    if mode != ByOffset && PagesAgree(s.table) { LastPageAgrees(s.table, p, n); }
    q := if p + n < |s.table| then p + n else |s.table|;
  }

  lemma WindowCovers(s: Source, s': Source, cast: string -> int, mode: Mode, n: nat)
    requires Covered(s.table, Position(s, cast, mode), s.delivered) && Window(s, s', cast, mode, n) && n <= 1000
    ensures Covered(s'.table, Position(s', cast, mode), s'.delivered)
    ensures ExactSource(s, cast, mode) && (mode == ByOffset || PagesAgree(s.table)) ==> ExactSource(s', cast, mode)
  {
    var q := WindowDelivers(s, s', cast, mode, n);
    CoverMoves(s.table, s.delivered, Position(s, cast, mode), q, Position(s', cast, mode));
  }

  lemma WholeTail(table: seq<Row>, p: nat)
    requires p <= |table|
    ensures table[p..|table|] == table[p..]
  {
  }

  lemma LastPageAgrees(table: seq<Row>, p: nat, n: nat)
    requires PagesAgree(table) && p <= |table| && n <= 1000
    ensures p < |table| <= p + n ==> TopIsLast(table[p..])
  {
    if p < |table| <= p + n {
      assert MayClose(table, p, |table|);
      WholeTail(table, p);
    }
  }

  lemma EventKeeps(s: Source, e: Event, cast: string -> int, mode: Mode)
    requires Inv(s, cast, mode) && Legal(s, e, cast, mode)
    ensures var s' := Next(s, e, cast, mode);
            Inv(s', cast, mode) && (ExactSource(s, cast, mode) && (mode == ByOffset || PagesAgree(s.table)) ==>
                ExactSource(s', cast, mode))
  {
    match e
    case Grow(rows) =>
      GrowKeeps(s, rows, cast, mode);
      CoverGrows(s.table, rows, Position(s, cast, mode), s.delivered);
    case Run(limit, expected) =>
      if RunIncremental(s.table, cast, mode, s.watermark, limit, expected).Ok? {
        RunKeeps(s, limit, expected, cast, mode);
      }
  }

  /** The rest of the table lies above this part of it. */
  ghost predicate IsCut(table: seq<Row>, whole: seq<Row>) {
    table <= whole && forall i, j :: 0 <= i < |table| <= j < |whole| ==> whole[i].key < whole[j].key
  }

  lemma {:induction false} ChainCuts(s: Source, events: seq<Event>, cast: string -> int, mode: Mode)
    requires LegalChain(s, events, cast, mode) && mode != ByOffset
    ensures IsCut(s.table, Chain(s, events, cast, mode).table)
    decreases |events|
  {
    if events != [] {
      var s', whole := Next(s, events[0], cast, mode), Chain(s, events, cast, mode).table;
      ChainCuts(s', events[1..], cast, mode);
      assert IsCut(s.table, s'.table);
      assert forall i :: 0 <= i < |s'.table| ==> s'.table[i] == whole[i];
    }
  }

  lemma PagesAgreeOnCut(table: seq<Row>, whole: seq<Row>)
    requires IsCut(table, whole) && PagesAgree(whole)
    ensures PagesAgree(table)
  {
    forall p: nat, e: nat | MayClose(table, p, e) ensures TopIsLast(table[p..e]) {
      assert MayClose(whole, p, e) && whole[p..e] == table[p..e];
    }
  }

  lemma {:induction false} ChainKeeps(s: Source, events: seq<Event>, cast: string -> int, mode: Mode)
    requires Inv(s, cast, mode) && LegalChain(s, events, cast, mode)
    ensures var end := Chain(s, events, cast, mode);
            && Inv(end, cast, mode)
            && (ExactSource(s, cast, mode) && (mode == ByOffset || PagesAgree(end.table)) ==>
                ExactSource(end, cast, mode))
    decreases |events|
  {
    if events != [] {
      EventKeeps(s, events[0], cast, mode);
      ChainKeeps(Next(s, events[0], cast, mode), events[1..], cast, mode);
      var whole := Chain(s, events, cast, mode).table;
      if mode != ByOffset && PagesAgree(whole) {
        ChainCuts(s, events, cast, mode);
        PagesAgreeOnCut(s.table, whole);
      }
    }
  }

  // ----- The theorems -----

  /** A consumer that has read nothing yet, on any table that fits the mode. */
  ghost predicate Fresh(s: Source, cast: string -> int, mode: Mode) {
    TableOk(s.table, cast, mode) && s.watermark.None? && s.delivered == []
  }

  /** Some legal chain of growths and runs, with any limits, leads from a fresh source to this one. */
  ghost predicate Reachable(s: Source, cast: string -> int, mode: Mode) {
    exists fresh', events :: Fresh(fresh', cast, mode) && LegalChain(fresh', events, cast, mode)
                             && Chain(fresh', events, cast, mode) == s
  }

  lemma ReachableHolds(s: Source, cast: string -> int, mode: Mode)
    requires Reachable(s, cast, mode)
    ensures Inv(s, cast, mode) && (mode == ByOffset || PagesAgree(s.table) ==> ExactSource(s, cast, mode))
  {
    var fresh', events :| Fresh(fresh', cast, mode) && LegalChain(fresh', events, cast, mode)
                          && Chain(fresh', events, cast, mode) == s;
    ChainKeeps(fresh', events, cast, mode);
  }

  /**
   After any chain of growths and runs, with any limits, every row at or below the watermark value and the first
   `offset` rows above it have been delivered; and exactly those, once each and in order, when the string order of
   the field agrees with the database order, if only on the pages that may close a window, or in the offset mode.
   */
  lemma ChainDeliversUpToThePosition(s: Source, cast: string -> int, mode: Mode)
    requires Reachable(s, cast, mode)
    ensures var position := Floor(s, cast, mode) + Offset(s.watermark);
            && position <= |s.table|
            && multiset(s.table[..position]) <= multiset(s.delivered)
            && (mode == ByOffset || Agrees(s.table) || PagesAgree(s.table) ==> s.delivered == s.table[..position])
  {
    ReachableHolds(s, cast, mode);
    if mode != ByOffset && Agrees(s.table) { AgreementCoversPages(s.table); }
  }

  /** In the value modes every closed window that delivers a row strictly advances the watermark in database order. */
  lemma ClosedWindowsAdvance(s: Source, limit: Option<nat>, cast: string -> int, mode: Mode)
    requires Reachable(s, cast, mode) && mode != ByOffset
    requires var p := Position(s, cast, mode); p < |s.table| <= p + ClampLimit(limit)
    ensures var s' := Next(s, Run(limit, None), cast, mode);
            && Floor(s', cast, mode) > Position(s, cast, mode) >= Floor(s, cast, mode)
            && Value(s'.watermark, mode).Some?
            && (Value(s.watermark, mode).Some? ==>
                  cast(Value(s'.watermark, mode).value) > cast(Value(s.watermark, mode).value))
  {
    ReachableHolds(s, cast, mode);
    WindowOfRun(s, cast, mode, limit, None);
    var s' := Next(s, Run(limit, None), cast, mode);
    if Value(s.watermark, mode).Some? {
      HigherBase(s.table, cast(Value(s.watermark, mode).value), cast(Value(s'.watermark, mode).value));
    }
  }

  lemma HigherBase(table: seq<Row>, k: int, k': int)
    requires SortedByKey(table) && Base(table, k) < Base(table, k')
    ensures k < k'
  {
    BaseSplits(table, k);
    BaseSplits(table, k');
    assert table[Base(table, k)].key > k;
  }

  /** A closed window leaves nothing to deliver again exactly when the greatest text of its page is at the last key. */
  lemma ClosedWindowLeavesNothingIff(s: Source, cast: string -> int, mode: Mode, limit: Option<nat>)
    requires Placed(s, cast, mode) && mode != ByOffset
    requires Position(s, cast, mode) < |s.table| <= Position(s, cast, mode) + ClampLimit(limit)
    ensures Position(Next(s, Run(limit, None), cast, mode), cast, mode) == |s.table|
       <==> TopIsLast(s.table[Position(s, cast, mode)..])
  {
    WindowOfRun(s, cast, mode, limit, None);
  }

  /** Runs of which none expects another revision than the watermark's. */
  predicate AllMayRun(w: Option<Watermark>, runs: seq<Event>) {
    forall i :: 0 <= i < |runs| ==> runs[i].Run? && MayRun(w, runs[i].expected)
  }

  /** Runs that all do. */
  predicate NoneMayRun(w: Option<Watermark>, runs: seq<Event>) {
    forall i :: 0 <= i < |runs| ==> runs[i].Run? && !MayRun(w, runs[i].expected)
  }

  lemma WindowProgresses(s: Source, s': Source, cast: string -> int, mode: Mode, n: nat)
    requires Position(s, cast, mode) <= |s.table| && n >= 1 && Window(s, s', cast, mode, n)
    ensures s'.table == s.table
    ensures Position(s', cast, mode) > Position(s, cast, mode) || Position(s', cast, mode) == |s.table|
  {
  }

  lemma RunProgresses(s: Source, run: Event, cast: string -> int, mode: Mode)
    requires Inv(s, cast, mode) && run.Run? && MayRun(s.watermark, run.expected)
    ensures var s' := Next(s, run, cast, mode);
            && Inv(s', cast, mode) && s'.table == s.table && Revision(s'.watermark) == Revision(s.watermark)
            && (Position(s', cast, mode) > Position(s, cast, mode) || Position(s', cast, mode) == |s.table|)
            && (ExactSource(s, cast, mode) && (mode == ByOffset || PagesAgree(s.table)) ==> ExactSource(s', cast, mode))
  {
    RunIsRefusedIff(s, cast, mode, run.limit, run.expected);
    RunKeepsRevision(s, cast, mode, run.limit, run.expected);
    RunKeeps(s, run.limit, run.expected, cast, mode);
    WindowOfRun(s, cast, mode, run.limit, run.expected);
    WindowProgresses(s, Next(s, run, cast, mode), cast, mode, ClampLimit(run.limit));
  }

  lemma {:induction false} RunsReachTheEnd(s: Source, runs: seq<Event>, cast: string -> int, mode: Mode)
    requires Inv(s, cast, mode) && AllMayRun(s.watermark, runs) && |runs| >= |s.table| - Position(s, cast, mode)
    ensures var end := Chain(s, runs, cast, mode);
            && Inv(end, cast, mode) && end.table == s.table && Position(end, cast, mode) == |s.table|
            && (ExactSource(s, cast, mode) && (mode == ByOffset || PagesAgree(s.table)) ==>
                ExactSource(end, cast, mode))
    decreases |runs|
  {
    if runs != [] {
      RunProgresses(s, runs[0], cast, mode);
      RunsReachTheEnd(Next(s, runs[0], cast, mode), runs[1..], cast, mode);
    }
  }

  /**
   Once the table stops growing, as many runs as rows lie beyond the position deliver all of it, whatever the limits and
   whether or not they expect the revision there is: every row at least once in any mode, and exactly once and in order
   when the orders agree, or in the offset mode.
   */
  lemma RunsCatchUp(s: Source, runs: seq<Event>, cast: string -> int, mode: Mode)
    requires Reachable(s, cast, mode) && AllMayRun(s.watermark, runs)
    requires |runs| >= |s.table| - Position(s, cast, mode)
    ensures var end := Chain(s, runs, cast, mode);
            && end.table == s.table && multiset(s.table) <= multiset(end.delivered)
            && (mode == ByOffset || Agrees(s.table) || PagesAgree(s.table) ==> end.delivered == s.table)
  {
    ReachableHolds(s, cast, mode);
    RunsReachTheEnd(s, runs, cast, mode);
    assert s.table[..|s.table|] == s.table;
    if mode != ByOffset && Agrees(s.table) { AgreementCoversPages(s.table); }
  }

  /** Runs that expect another revision deliver nothing, however many there are. */
  lemma {:induction false} StaleRunsDeliverNothing(s: Source, runs: seq<Event>, cast: string -> int, mode: Mode)
    requires NoneMayRun(s.watermark, runs)
    ensures Chain(s, runs, cast, mode) == s
    decreases |runs|
  {
    if runs != [] {
      RunKeepsRevision(s, cast, mode, runs[0].limit, runs[0].expected);
      StaleRunsDeliverNothing(s, runs[1..], cast, mode);
    }
  }

  // ----- Exactly once, for every chain over a table -----

  lemma {:induction false} ChainExtends(s: Source, events: seq<Event>, e: Event, cast: string -> int, mode: Mode)
    requires LegalChain(s, events, cast, mode) && Legal(Chain(s, events, cast, mode), e, cast, mode)
    ensures LegalChain(s, events + [e], cast, mode)
    ensures Chain(s, events + [e], cast, mode) == Next(Chain(s, events, cast, mode), e, cast, mode)
    decreases |events|
  {
    var longer := events + [e];
    if events == [] {
      assert longer == [e] && longer[1..] == [];
      assert LegalChain(Next(s, e, cast, mode), [], cast, mode);
    } else {
      assert longer[0] == events[0] && longer[1..] == events[1..] + [e];
      ChainExtends(Next(s, events[0], cast, mode), events[1..], e, cast, mode);
    }
  }

  lemma ReachableExtends(s: Source, e: Event, cast: string -> int, mode: Mode)
    requires Reachable(s, cast, mode) && Legal(s, e, cast, mode)
    ensures Reachable(Next(s, e, cast, mode), cast, mode)
  {
    var fresh', events :| Fresh(fresh', cast, mode) && LegalChain(fresh', events, cast, mode)
                          && Chain(fresh', events, cast, mode) == s;
    ChainExtends(fresh', events, e, cast, mode);
    assert Chain(fresh', events + [e], cast, mode) == Next(s, e, cast, mode);
  }

  lemma FreshIsReachable(s: Source, cast: string -> int, mode: Mode)
    requires Fresh(s, cast, mode)
    ensures Reachable(s, cast, mode)
  {
    assert LegalChain(s, [], cast, mode) && Chain(s, [], cast, mode) == s;
  }

  /** A run from a reachable source, and where it leaves the window. */
  lemma TakeRun(s: Source, n: nat, cast: string -> int, mode: Mode) returns (s': Source)
    requires Reachable(s, cast, mode) && 1 <= n <= 1000
    ensures Reachable(s', cast, mode) && Position(s, cast, mode) <= |s.table| && Window(s, s', cast, mode, n)
  {
    ReachableHolds(s, cast, mode);
    WindowOfRun(s, cast, mode, Some(n), None);
    ReachableExtends(s, Run(Some(n), None), cast, mode);
    s' := Next(s, Run(Some(n), None), cast, mode);
  }

  lemma OneMoreRow(table: seq<Row>, p: nat)
    requires p < |table|
    ensures table[..p] + table[p..p + 1] == table[..p + 1]
  {
  }

  /** Runs of one row each can leave a window open at any position short of the end. */
  lemma {:induction false} AnyPositionIsReached(table: seq<Row>, p: nat, cast: string -> int, mode: Mode)
      returns (s: Source)
    requires TableOk(table, cast, mode) && p < |table|
    ensures Reachable(s, cast, mode) && s.table == table && Position(s, cast, mode) == p && s.delivered == table[..p]
  {
    if p == 0 {
      s := Source(table, None, []);
      FreshIsReachable(s, cast, mode);
    } else {
      var before := AnyPositionIsReached(table, p - 1, cast, mode);
      s := TakeRun(before, 1, cast, mode);
      OneMoreRow(table, p - 1);
    }
  }

  /** A page that may close a window with its greatest text below its last key leads to a repeated delivery. */
  lemma BadPageRepeats(table: seq<Row>, p: nat, e: nat, cast: string -> int, mode: Mode) returns (s: Source)
    requires TableOk(table, cast, mode) && mode != ByOffset && MayClose(table, p, e) && !TopIsLast(table[p..e])
    ensures Reachable(s, cast, mode) && s.table == table[..e] && s.delivered == table[..e] &&
        Position(s, cast, mode) < e
  {
    var part := table[..e];
    assert part[p..] == table[p..e] && part == part[..p] + part[p..];
    var before := AnyPositionIsReached(part, p, cast, mode);
    s := TakeRun(before, e - p, cast, mode);
  }

  lemma GrowReachable(s: Source, rows: seq<Row>, cast: string -> int, mode: Mode) returns (s': Source)
    requires Reachable(s, cast, mode) && MayGrow(s.table, rows, cast, mode)
    ensures Reachable(s', cast, mode) && Position(s', cast, mode) == Position(s, cast, mode)
    ensures s'.table == s.table + rows && s'.delivered == s.delivered
  {
    ReachableHolds(s, cast, mode);
    GrowKeeps(s, rows, cast, mode);
    ReachableExtends(s, Grow(rows), cast, mode);
    s' := Next(s, Grow(rows), cast, mode);
  }

  /** ... and the table may grow to its whole length afterwards. */
  lemma BadPageIsNotExact(table: seq<Row>, p: nat, e: nat, cast: string -> int, mode: Mode) returns (s: Source)
    requires TableOk(table, cast, mode) && mode != ByOffset && MayClose(table, p, e) && !TopIsLast(table[p..e])
    ensures Reachable(s, cast, mode) && s.table == table && Position(s, cast, mode) < |s.delivered|
  {
    var before := BadPageRepeats(table, p, e, cast, mode);
    RestMayGrow(table, e, cast, mode);
    s := GrowReachable(before, table[e..], cast, mode);
    assert table[..e] + table[e..] == table;
  }

  lemma RestMayGrow(table: seq<Row>, e: nat, cast: string -> int, mode: Mode)
    requires TableOk(table, cast, mode) && mode != ByOffset && 0 < e <= |table|
    requires e < |table| ==> table[e - 1].key < table[e].key
    ensures MayGrow(table[..e], table[e..], cast, mode)
  {
    forall i, j | 0 <= i < e && 0 <= j < |table| - e ensures table[..e][i].key < table[e..][j].key {
      assert table[i].key <= table[e - 1].key < table[e].key <= table[e + j].key;
    }
  }

  /**
   In the value modes every chain over a table delivers each row exactly once and in order, up to the position it has
   reached, if and only if the string order agrees with the database order on every page that may close a window.
   */
  lemma ExactlyOnceIff(table: seq<Row>, cast: string -> int, mode: Mode)
    requires TableOk(table, cast, mode) && mode != ByOffset
    ensures (forall s :: Reachable(s, cast, mode) && s.table == table ==> ExactSource(s, cast, mode)) <==>
        PagesAgree(table)
  {
    if PagesAgree(table) {
      forall s | Reachable(s, cast, mode) && s.table == table ensures ExactSource(s, cast, mode) {
        ReachableHolds(s, cast, mode);
      }
    } else {
      var p: nat, e: nat :| MayClose(table, p, e) && !TopIsLast(table[p..e]);
      var s := BadPageIsNotExact(table, p, e, cast, mode);
    }
  }

  /** Numbers shown as texts break the agreement: "9" is above "10", so a complete read of both delivers "10" again. */
  lemma NumericTextsAreDeliveredTwice(cast: string -> int)
    requires cast("9") == 9
    ensures var table := [Row(9, "9", 0), Row(10, "10", 0)];
            Chain(Source(table, None, []), [Run(None, None), Run(None, None)], cast, ByCursor).delivered
            == table + [table[1]]
  {
    var table := [Row(9, "9", 0), Row(10, "10", 0)];
    var s := Source(table, None, []);
    var once := Source(table, Some(Watermark(CursorField, Some("9"), None, Some("9"), 0)), table);
    NumericTextsFirstRun(cast);
    NumericTextsSecondRun(cast);
    assert [Run(None, None), Run(None, None)][1..] == [Run(None, None)] && [Run(None, None)][1..] == [];
    assert Chain(once, [Run(None, None)], cast, ByCursor)
        == Chain(Next(once, Run(None, None), cast, ByCursor), [], cast, ByCursor);
  }

  lemma NumericTextsFirstRun(cast: string -> int)
    ensures var table := [Row(9, "9", 0), Row(10, "10", 0)];
            Next(Source(table, None, []), Run(None, None), cast, ByCursor)
            == Source(table, Some(Watermark(CursorField, Some("9"), None, Some("9"), 0)), table)
  {
    var table := [Row(9, "9", 0), Row(10, "10", 0)];
    assert !LexLe("9", "10") by { assert "9"[0] == '9'; }
    assert table[1..] == [table[1]];
    assert MaxText(table) == Some("9") by { assert MaxText(table[1..]) == Some("10"); }
  }

  /** Above the value "9" there is the row of 10 only. */
  lemma NumericTextsSecondPage(cast: string -> int)
    requires cast("9") == 9
    ensures var table := [Row(9, "9", 0), Row(10, "10", 0)];
            Page(table, cast, Some("9"), 0, 101) == [table[1]]
  {
    var table := [Row(9, "9", 0), Row(10, "10", 0)];
    assert table[1..] == [table[1]];
    assert RowsAbove(table, 9) == [table[1]] by { assert RowsAbove(table[1..], 9) == [table[1]]; }
  }

  /** What a run delivers whose watermark holds a value and no offset. */
  lemma RunAboveCursor(table: seq<Row>, v: string, delivered: seq<Row>, cast: string -> int)
    requires !IsBlank(v)
    ensures var s := Source(table, Some(Watermark(CursorField, Some(v), None, Some(v), 0)), delivered);
            Next(s, Run(None, None), cast, ByCursor).delivered
            == delivered + Take(Page(table, cast, Some(v), 0, 101), 100)
  {
  }

  lemma NumericTextsSecondRun(cast: string -> int)
    requires cast("9") == 9
    ensures var table := [Row(9, "9", 0), Row(10, "10", 0)];
            var once := Source(table, Some(Watermark(CursorField, Some("9"), None, Some("9"), 0)), table);
            Next(once, Run(None, None), cast, ByCursor).delivered == table + [table[1]]
  {
    var table := [Row(9, "9", 0), Row(10, "10", 0)];
    assert !IsBlank("9") by { assert "9"[0] == '9'; }
    NumericTextsSecondPage(cast);
    RunAboveCursor(table, "9", table, cast);
  }
}
