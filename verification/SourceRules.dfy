/**
 How a watermark of any strategy selects rows in any mode, what a batch makes of it, and how requests are limited
 (crates/edge-adapters/src/source_sidecar.rs and source_db.rs).
 */
module SourceRules {
  import opened Wrappers
  import opened TextOrder
  import opened IncrementalSource

  /** The first of two optional values that is there. */
  predicate IsFirstOf(r: Option<string>, a: Option<string>, b: Option<string>) {
    (a.Some? ==> r == a) && (a.None? ==> r == b)
  }

  /** The value a watermark stands for: its cursor comes first if it was kept by cursor, its high value otherwise. */
  ghost predicate StandsFor(w: Watermark, value: Option<string>) {
    if w.strategy == CursorField then IsFirstOf(value, w.cursor, w.high) else IsFirstOf(value, w.high, w.cursor)
  }

  function PlanOf(w: Option<Watermark>, limit: Option<nat>): Plan {
    WithWatermark(Plan(limit, None, None, None), w)
  }

  /**
   A run selects by value exactly when its mode has a field and the watermark stands for a value that is not blank; it
   starts at the watermark's offset unless the watermark's strategy is unknown.
   */
  lemma RunSelectsByValueIff(w: Watermark, limit: Option<nat>, mode: Mode, value: Option<string>)
    requires StandsFor(w, value)
    ensures var plan := PlanOf(Some(w), limit);
            && (IncrementalValue(plan, mode).Some? <==> mode != ByOffset && value.Some? && !IsBlank(value.value))
            && (IncrementalValue(plan, mode).Some? ==> IncrementalValue(plan, mode) == value)
            && plan.offset == (if w.strategy == UnknownStrategy then None else w.offset)
            && plan.limit == limit && plan.before == Some(w)
  {
  }

  /** Without a watermark it selects everything from the start. */
  lemma FirstRunSelectsAll(limit: Option<nat>, mode: Mode)
    ensures IncrementalValue(PlanOf(None, limit), mode).None? && PlanOf(None, limit).offset.None?
  {
  }

  /** The limit asked for, or 100, forced between 1 and 1000. */
  lemma LimitIsClamped(limit: Option<nat>)
    ensures 1 <= ClampLimit(limit) <= 1000
    ensures limit.None? ==> ClampLimit(limit) == 100
    ensures limit.Some? && 1 <= limit.value <= 1000 ==> ClampLimit(limit) == limit.value
    ensures limit == Some(0) ==> ClampLimit(limit) == 1
    ensures limit.Some? && limit.value > 1000 ==> ClampLimit(limit) == 1000
  {
  }

  /** A batch is cut exactly when there are more rows than its limit, and goes on after the rows it holds then. */
  lemma BatchIsCutIff(rows: seq<Row>, limit: nat, offset: nat)
    requires offset + limit <= USIZE_MAX
    ensures var batch := MakeBatch(rows, limit, offset);
            && (batch.truncated <==> |rows| > limit)
            && batch.rows <= rows && |batch.rows| == (if |rows| > limit then limit else |rows|)
            && batch.nextOffset == (if |rows| > limit then Some(offset + limit) else None)
            && batch.offset == offset && batch.limit == limit
  {
  }

  /**
   The new watermark is of the mode's strategy, with the old revision. A cut batch keeps the value that the mode reads
   off the old watermark and goes on after its rows; an uncut one takes the greatest text of its rows, if it has rows,
   and starts over, or, in the offset mode, goes on after its rows.
   */
  lemma WatermarkAfterAnyBatch(batch: Batch, before: Option<Watermark>, mode: Mode)
    requires batch.truncated <==> batch.nextOffset.Some?
    requires batch.offset + |batch.rows| <= USIZE_MAX
    ensures var w := WatermarkAfter(batch, before, mode);
            && w.revision == (if before.Some? then before.value.revision else 0)
            && w.strategy == (match mode case ByUpdatedAt => UpdatedAtField case ByCursor => CursorField
                                         case ByOffset => OffsetOnly)
            && (mode == ByOffset ==> w.high.None? && w.cursor.None?)
            && (mode == ByUpdatedAt ==> w.cursor.None?) && (mode == ByCursor ==> w.cursor == w.high)
            && (batch.truncated ==> w.offset == batch.nextOffset)
            && (!batch.truncated ==> w.offset == if mode == ByOffset then Some(batch.offset + |batch.rows|) else None)
    ensures mode != ByOffset && !batch.truncated && batch.rows != [] ==>
              WatermarkAfter(batch, before, mode).high == MaxText(batch.rows)
    ensures mode == ByUpdatedAt && (batch.truncated || batch.rows == []) ==>
              WatermarkAfter(batch, before, mode).high == if before.Some? then before.value.high else None
    ensures mode == ByCursor && (batch.truncated || batch.rows == []) ==>
              if before.None? then WatermarkAfter(batch, before, mode).high.None?
              else IsFirstOf(WatermarkAfter(batch, before, mode).high, before.value.cursor, before.value.high)
  {
  }

  // ----- The order of texts -----

  lemma SharedFirst(a: string, b: string, i: nat)
    requires 0 < i < |a| && i < |b| && a[..i] == b[..i]
    ensures a[0] == b[0]
  {
    assert a[..i][0] == b[..i][0];
  }

  /** Texts compare by the first character in which they differ, and a text comes before its continuations. */
  lemma {:induction false} LexLeIff(a: string, b: string)
    ensures LexLe(a, b) <==> a <= b || exists i :: 0 <= i < |a| && i < |b| && a[..i] == b[..i] && a[i] < b[i]
  {
    if a != "" && b != "" {
      LexLeIff(a[1..], b[1..]);
      forall i | 0 < i < |a| && i < |b| && a[..i] == b[..i] ensures a[0] == b[0] { SharedFirst(a, b, i); }
      if a[0] == b[0] {
        assert a == [a[0]] + a[1..] && b == [b[0]] + b[1..];
        if i :| 0 <= i < |a| && i < |b| && a[..i] == b[..i] && a[i] < b[i] {
          assert i > 0;
          assert a[1..][..i - 1] == a[..i][1..] && b[1..][..i - 1] == b[..i][1..];
          assert a[1..][i - 1] < b[1..][i - 1];
        }
        if i :| 0 <= i < |a[1..]| && i < |b[1..]| && a[1..][..i] == b[1..][..i] && a[1..][i] < b[1..][i] {
          assert a[..i + 1] == [a[0]] + a[1..][..i] && b[..i + 1] == [b[0]] + b[1..][..i];
          assert a[i + 1] < b[i + 1];
        }
      } else {
        assert a[..0] == b[..0];
      }
    }
  }
}
