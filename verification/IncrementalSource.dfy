/**
 Incremental reads of a database table (crates/edge-adapters/src/source_sidecar.rs and source_db.rs):
 a watermark becomes a read plan, the plan a page of at most limit + 1 rows, the page a batch, and the batch
 the next watermark.
 */
module IncrementalSource {
  import opened Wrappers
  import opened TextOrder

  const USIZE_MAX: nat := 0xFFFF_FFFF_FFFF_FFFF
  const I64_MAX: nat := 0x7FFF_FFFF_FFFF_FFFF

  /** `key` is the incremental field as the database orders it, `text` the same value as the batch shows it. */
  datatype Row = Row(key: int, text: string, body: int)

  /** The incremental mode the request metadata selects: an `updated_at_field`, else a `cursor_field`, else neither. */
  datatype Mode = ByUpdatedAt | ByCursor | ByOffset

  /** The strategy names a watermark may carry. */
  datatype Strategy = UpdatedAtField | CursorField | OffsetOnly | UnknownStrategy

  datatype Watermark = Watermark(strategy: Strategy, cursor: Option<string>, offset: Option<nat>,
                                 high: Option<string>, revision: nat)

  datatype Plan = Plan(limit: Option<nat>, offset: Option<nat>, cursor: Option<string>, before: Option<Watermark>)

  datatype Batch = Batch(rows: seq<Row>, offset: nat, limit: nat, truncated: bool, nextOffset: Option<nat>)

  function SaturatingAdd(a: nat, b: nat): nat {
    if a + b <= USIZE_MAX then a + b else USIZE_MAX
  }

  function GetOr<T>(o: Option<T>, default: T): T {
    if o.Some? then o.value else default
  }

  function OrElse<T>(a: Option<T>, b: Option<T>): Option<T> {
    if a.Some? then a else b
  }

  // ----- From watermark to page -----

  /** `apply_incremental_watermark_to_plan`. */
  function WithWatermark(plan: Plan, watermark: Option<Watermark>): Plan {
    match watermark
    case None => plan
    case Some(w) =>
      var plan' := plan.(before := watermark);
      match w.strategy
      case UpdatedAtField => plan'.(cursor := w.high, offset := w.offset)
      case CursorField => plan'.(cursor := w.cursor, offset := w.offset)
      case OffsetOnly => plan'.(cursor := None, offset := w.offset)
      case UnknownStrategy => plan'.(cursor := None, offset := None)
  }

  /** The value of the `WHERE field > value` clause, if `incremental_strategy` finds one. */
  function IncrementalValue(plan: Plan, mode: Mode): Option<string> {
    if mode == ByOffset then None
    else
      var high := if plan.before.Some? then plan.before.value.high else None;
      var cursor := if plan.before.Some? then plan.before.value.cursor else None;
      var value := OrElse(plan.cursor, OrElse(high, cursor));
      if value.Some? && IsBlank(value.value) then None else value
  }

  function RowsAbove(table: seq<Row>, key: int): seq<Row> {
    if table == [] then []
    else (if table[0].key > key then [table[0]] else []) + RowsAbove(table[1..], key)
  }

  function Skip<T>(s: seq<T>, n: nat): seq<T> {
    if n <= |s| then s[n..] else []
  }

  function Take<T>(s: seq<T>, n: nat): seq<T> {
    if n <= |s| then s[..n] else s
  }

  /** The rows of the query: filter, order, skip `offset`, take `fetch`. `cast` is the database's reading of a text. */
  function Page(table: seq<Row>, cast: string -> int, value: Option<string>, offset: nat, fetch: nat): seq<Row> {
    var selected := if value.Some? then RowsAbove(table, cast(value.value)) else table;
    Take(Skip(selected, offset), fetch)
  }

  function ClampLimit(limit: Option<nat>): nat {
    var n := GetOr(limit, 100);
    if n < 1 then 1 else if n > 1000 then 1000 else n
  }

  /** `record_batch_from_database_rows`. */
  function MakeBatch(rows: seq<Row>, limit: nat, offset: nat): Batch {
    var truncated := |rows| > limit;
    var kept := Take(rows, limit);
    Batch(kept, offset, limit, truncated, if truncated then Some(SaturatingAdd(offset, |kept|)) else None)
  }

  function ReadBatch(table: seq<Row>, cast: string -> int, plan: Plan, mode: Mode): Batch {
    var limit := ClampLimit(plan.limit);
    var offset := GetOr(plan.offset, 0);
    MakeBatch(Page(table, cast, IncrementalValue(plan, mode), offset, SaturatingAdd(limit, 1)), limit, offset)
  }

  // ----- From batch to watermark -----

  /** `max_string_field`: the greatest text in string order. */
  function MaxText(rows: seq<Row>): Option<string> {
    if rows == [] then None
    else
      var rest := MaxText(rows[1..]);
      if rest.Some? && LexLe(rows[0].text, rest.value) then rest else Some(rows[0].text)
  }

  function PreviousValue(w: Watermark, mode: Mode): Option<string> {
    if mode == ByUpdatedAt then w.high else OrElse(w.cursor, w.high)
  }

  /** `watermark_after_batch`. */
  function WatermarkAfter(batch: Batch, before: Option<Watermark>, mode: Mode): Watermark
  {
    var next := GetOr(batch.nextOffset, SaturatingAdd(batch.offset, |batch.rows|));
    var continuation := if batch.truncated then Some(next) else None;
    var previous := if before.Some? then PreviousValue(before.value, mode) else None;
    var value := if batch.truncated then previous else OrElse(MaxText(batch.rows), previous);
    var revision := if before.Some? then before.value.revision else 0;
    match mode
    case ByUpdatedAt => Watermark(UpdatedAtField, None, continuation, value, revision)
    case ByCursor => Watermark(CursorField, value, continuation, value, revision)
    case ByOffset => Watermark(OffsetOnly, None, Some(next), None, revision)
  }

  // ----- Runs -----

  /** `run_incremental_source`: refused when the caller expects another watermark revision. */
  function RunIncremental(table: seq<Row>, cast: string -> int, mode: Mode, watermark: Option<Watermark>,
                          limit: Option<nat>, expected: Option<nat>): Result<(Batch, Watermark), string>
  {
    var actual := if watermark.Some? then watermark.value.revision else 0;
    if expected.Some? && expected.value != actual then Err("source watermark revision mismatch")
    else
      var plan := WithWatermark(Plan(limit, None, None, None), watermark);
      var batch := ReadBatch(table, cast, plan, mode);
      Ok((batch, WatermarkAfter(batch, watermark, mode)))
  }

  /** A table, the consumer's watermark, and every row delivered so far in order of delivery. */
  datatype Source = Source(table: seq<Row>, watermark: Option<Watermark>, delivered: seq<Row>)

  datatype Event = Grow(rows: seq<Row>) | Run(limit: Option<nat>, expected: Option<nat>)

  ghost predicate Typed(rows: seq<Row>, cast: string -> int) {
    forall i :: 0 <= i < |rows| ==> cast(rows[i].text) == rows[i].key && !IsBlank(rows[i].text)
  }

  ghost predicate SortedByKey(rows: seq<Row>) {
    forall i, j :: 0 <= i < j < |rows| ==> rows[i].key <= rows[j].key
  }

  /** New rows come at the end: above every existing field value, or anywhere in value order for the offset mode. */
  ghost predicate MayGrow(table: seq<Row>, rows: seq<Row>, cast: string -> int, mode: Mode) {
    && |table| + |rows| <= I64_MAX
    && (mode != ByOffset ==>
          && Typed(rows, cast) && SortedByKey(rows)
          && forall i, j :: 0 <= i < |table| && 0 <= j < |rows| ==> table[i].key < rows[j].key)
  }

  ghost predicate Legal(s: Source, e: Event, cast: string -> int, mode: Mode) {
    e.Grow? ==> MayGrow(s.table, e.rows, cast, mode)
  }

  function Next(s: Source, e: Event, cast: string -> int, mode: Mode): Source
  {
    match e
    case Grow(rows) => s.(table := s.table + rows)
    case Run(limit, expected) =>
      match RunIncremental(s.table, cast, mode, s.watermark, limit, expected)
      case Ok((batch, watermark)) => s.(watermark := Some(watermark), delivered := s.delivered + batch.rows)
      case Err(_) => s
  }

  ghost predicate LegalChain(s: Source, events: seq<Event>, cast: string -> int, mode: Mode)
    decreases |events|
  {
    events != [] ==>
      Legal(s, events[0], cast, mode) && LegalChain(Next(s, events[0], cast, mode), events[1..], cast, mode)
  }

  function Chain(s: Source, events: seq<Event>, cast: string -> int, mode: Mode): Source
    decreases |events|
  {
    if events == [] then s else Chain(Next(s, events[0], cast, mode), events[1..], cast, mode)
  }

  // ----- Pages of a sorted table are slices -----

  /** The number of rows at or below `key`. */
  function Base(table: seq<Row>, key: int): (n: nat)
    ensures n <= |table|
  {
    if table != [] && table[0].key <= key then 1 + Base(table[1..], key) else 0
  }

  lemma {:induction false} BaseSplits(table: seq<Row>, key: int)
    requires SortedByKey(table)
    ensures forall i :: 0 <= i < |table| ==> (table[i].key <= key <==> i < Base(table, key))
  {
    if table != [] {
      BaseSplits(table[1..], key);
      forall i | 0 <= i < |table| ensures table[i].key <= key <==> i < Base(table, key) {
        if i > 0 { assert table[i] == table[1..][i - 1]; }
      }
    }
  }

  lemma {:induction false} RowsAboveIsASuffix(table: seq<Row>, key: int)
    requires SortedByKey(table)
    ensures RowsAbove(table, key) == table[Base(table, key)..]
  {
    if table != [] {
      RowsAboveIsASuffix(table[1..], key);
      BaseSplits(table, key);
      if table[0].key > key {
        assert Base(table[1..], key) == 0 by {
          if |table| > 1 { assert table[1..][0] == table[1] && table[0].key <= table[1].key; }
        }
        assert [table[0]] + table[1..] == table;
      }
    }
  }

  lemma BaseIs(table: seq<Row>, key: int, n: nat)
    requires SortedByKey(table) && n <= |table|
    requires n > 0 ==> table[n - 1].key <= key
    requires n < |table| ==> table[n].key > key
    ensures Base(table, key) == n
  {
    BaseSplits(table, key);
  }

  /** Rows above every existing value leave the number of rows at or below an existing value alone. */
  lemma BaseStays(table: seq<Row>, rows: seq<Row>, i: nat)
    requires SortedByKey(table) && SortedByKey(table + rows) && i < |table|
    requires forall j :: 0 <= j < |rows| ==> table[i].key < rows[j].key
    ensures Base(table + rows, table[i].key) == Base(table, table[i].key)
  {
    var n := Base(table, table[i].key);
    BaseSplits(table, table[i].key);
    BaseIs(table + rows, table[i].key, n);
  }

  // ----- The greatest text -----

  lemma {:induction false} MaxTextIsGreatest(rows: seq<Row>)
    ensures rows == [] <==> MaxText(rows).None?
    ensures rows != [] ==> exists i :: 0 <= i < |rows| && rows[i].text == MaxText(rows).value
    ensures forall i :: 0 <= i < |rows| ==> LexLe(rows[i].text, MaxText(rows).value)
  {
    if rows != [] {
      MaxTextIsGreatest(rows[1..]);
      var rest := MaxText(rows[1..]);
      LexReflexive(rows[0].text);
      forall i | 0 <= i < |rows| ensures LexLe(rows[i].text, MaxText(rows).value) {
        if i > 0 {
          assert rows[i] == rows[1..][i - 1];
          LexTotal(rows[0].text, rest.value);
          if !LexLe(rows[0].text, rest.value) { LexTransitive(rows[i].text, rest.value, rows[0].text); }
        }
      }
      if rest.Some? && LexLe(rows[0].text, rest.value) {
        var i :| 0 <= i < |rows[1..]| && rows[1..][i].text == rest.value;
        assert rows[i + 1].text == MaxText(rows).value;
      } else {
        assert rows[0].text == MaxText(rows).value;
      }
    }
  }
}
