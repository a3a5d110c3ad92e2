/** The read plan as an object: the watermark is applied to it in place. */
module ReadPlan {
  import opened Wrappers
  import opened IncrementalSource

  class SourceReadPlan {
    var limit: Option<nat>
    var offset: Option<nat>
    var cursor: Option<string>
    var watermark_before: Option<Watermark>

    ghost function Model(): Plan
      reads this
    {
      Plan(limit, offset, cursor, watermark_before)
    }

    constructor (limit: Option<nat>)
      ensures Model() == Plan(limit, None, None, None)
    {
      this.limit := limit;
      offset, cursor, watermark_before := None, None, None;
    }

    method ApplyIncrementalWatermark(watermark: Option<Watermark>)
      modifies this
      ensures Model() == WithWatermark(old(Model()), watermark)
    {
      if watermark.None? { return; }
      var w := watermark.value;
      match w.strategy {
        case UpdatedAtField =>
          cursor := w.high;
          offset := w.offset;
        case CursorField =>
          cursor := w.cursor;
          offset := w.offset;
        case OffsetOnly =>
          cursor := None;
          offset := w.offset;
        case UnknownStrategy =>
          cursor := None;
          offset := None;
      }
      watermark_before := watermark;
    }
  }
}
