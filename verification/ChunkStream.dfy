/**
 Cutting a batch into stream frames (crates/edge-adapters/src/source_sidecar.rs, `source_incremental_frame_stream`):
 a lossless partition into bounded chunks, and no in-order partition uses fewer.
 */
module ChunkStream {
  import opened Wrappers

  const MAX_ROWS: nat := 128
  const MAX_BYTES: nat := 256 * 1024

  /** A row and the length of its encoding. */
  datatype Row = Row(content: int, bytes: nat)

  datatype Frame = Frame(rows: seq<Row>, rowCount: nat, chunkIndex: nat, finalChunk: bool, watermark: Option<int>)

  function Bytes(rows: seq<Row>): nat {
    if rows == [] then 0 else rows[0].bytes + Bytes(rows[1..])
  }

  predicate FitsChunk(rows: seq<Row>) {
    |rows| <= MAX_ROWS && Bytes(rows) <= MAX_BYTES
  }

  /** The check made before the stream starts: no row alone exceeds the byte limit. */
  predicate RowsFit(rows: seq<Row>) {
    forall i :: 0 <= i < |rows| ==> rows[i].bytes <= MAX_BYTES
  }

  /** How many rows the next chunk takes when it already holds `taken` rows of `used` bytes. */
  function More(rows: seq<Row>, taken: nat, used: nat): (n: nat)
    ensures n <= |rows|
    decreases |rows|
  {
    if taken >= MAX_ROWS || rows == [] || (taken > 0 && used + rows[0].bytes > MAX_BYTES) then 0
    else 1 + More(rows[1..], taken + 1, used + rows[0].bytes)
  }

  function NextChunk(rows: seq<Row>): (n: nat)
    ensures n <= |rows|
    ensures rows != [] ==> n > 0
  {
    More(rows, 0, 0)
  }

  /** The unfold state: the rows left and how far the stream has come. */
  datatype State = State(rows: seq<Row>, watermark: int, chunkIndex: nat, emittedEmpty: bool)

  /** One poll of the stream. */
  function Poll(s: State): (Option<Frame>, State) {
    if s.rows == [] && (s.chunkIndex > 0 || s.emittedEmpty) then (None, s)
    else
      var n := NextChunk(s.rows);
      var last := n == |s.rows|;
      (Some(Frame(s.rows[..n], n, s.chunkIndex, last, if last then Some(s.watermark) else None)),
       State(s.rows[n..], s.watermark, s.chunkIndex + 1, s.emittedEmpty || n == 0))
  }

  /** The polls a stream still answers with a frame. */
  function Left(s: State): nat {
    if s.rows == [] then (if s.chunkIndex > 0 || s.emittedEmpty then 0 else 1) else |s.rows|
  }

  /** All frames, polling until the stream ends. */
  function Frames(s: State): seq<Frame>
    decreases Left(s)
  {
    var (frame, s') := Poll(s);
    match frame
    case None => []
    case Some(f) => [f] + Frames(s')
  }

  function Start(rows: seq<Row>, watermark: int): State {
    State(rows, watermark, 0, false)
  }

  /** The whole response: refused with the length of the first oversized row, or a stream. */
  function Respond(rows: seq<Row>, watermark: int): Result<State, nat> {
    match Oversized(rows)
    case Some(bytes) => Err(bytes)
    case None => Ok(Start(rows, watermark))
  }

  function Oversized(rows: seq<Row>): Option<nat> {
    if rows == [] then None else if rows[0].bytes > MAX_BYTES then Some(rows[0].bytes) else Oversized(rows[1..])
  }

  lemma {:induction false} RespondsWhenRowsFit(rows: seq<Row>, watermark: int)
    ensures Respond(rows, watermark).Ok? <==> RowsFit(rows)
    ensures Respond(rows, watermark).Err? ==>
              exists i :: 0 <= i < |rows| && rows[i].bytes == Respond(rows, watermark).error > MAX_BYTES &&
                  RowsFit(rows[..i])
  {
    if rows != [] && rows[0].bytes <= MAX_BYTES {
      RespondsWhenRowsFit(rows[1..], watermark);
      assert RowsFit(rows) <==> RowsFit(rows[1..]) by {
        assert forall i :: 0 < i < |rows| ==> rows[i] == rows[1..][i - 1];
      }
      if Respond(rows, watermark).Err? {
        var i :| 0 <= i < |rows[1..]| && rows[1..][i].bytes == Respond(rows, watermark).error > MAX_BYTES &&
            RowsFit(rows[1..][..i]);
        assert rows[..i + 1] == [rows[0]] + rows[1..][..i];
        assert rows[i + 1].bytes == Respond(rows, watermark).error;
      }
    } else if rows != [] {
      assert RowsFit(rows[..0]);
    }
  }

  function Flatten(frames: seq<Frame>): seq<Row> {
    if frames == [] then [] else frames[0].rows + Flatten(frames[1..])
  }

  // ----- The greedy prefix -----

  lemma {:induction false} BytesOfPrefix(rows: seq<Row>, n: nat)
    requires n < |rows|
    ensures Bytes(rows[..n + 1]) == Bytes(rows[..n]) + rows[n].bytes
  {
    if n == 0 {
      assert rows[..1][1..] == [] && rows[..0] == [];
    } else {
      BytesOfPrefix(rows[1..], n - 1);
      assert rows[..n + 1][1..] == rows[1..][..n] && rows[..n][1..] == rows[1..][..n - 1];
    }
  }

  lemma {:induction false} BytesSplit(a: seq<Row>, b: seq<Row>)
    ensures Bytes(a + b) == Bytes(a) + Bytes(b)
  {
    if a == [] {
      assert a + b == b;
    } else {
      BytesSplit(a[1..], b);
      assert (a + b)[1..] == a[1..] + b;
    }
  }

  /** The rows taken fit the limits. */
  lemma {:induction false} MoreFits(rows: seq<Row>, taken: nat, used: nat)
    requires RowsFit(rows) && taken <= MAX_ROWS && (taken == 0 ==> used == 0) && used <= MAX_BYTES
    ensures var n := More(rows, taken, used); taken + n <= MAX_ROWS && used + Bytes(rows[..n]) <= MAX_BYTES
    decreases |rows|
  {
    var n := More(rows, taken, used);
    if n > 0 {
      MoreFits(rows[1..], taken + 1, used + rows[0].bytes);
      assert rows[..n][1..] == rows[1..][..n - 1];
    }
  }

  /** No longer prefix fits. */
  lemma {:induction false} MoreIsLongest(rows: seq<Row>, taken: nat, used: nat, m: nat)
    requires m <= |rows| && taken + m <= MAX_ROWS && used + Bytes(rows[..m]) <= MAX_BYTES
    ensures m <= More(rows, taken, used)
    decreases m
  {
    if m > 0 {
      assert rows[..m][1..] == rows[1..][..m - 1];
      MoreIsLongest(rows[1..], taken + 1, used + rows[0].bytes, m - 1);
    }
  }

  // ----- The stream is a lossless partition -----

  ghost predicate WellCut(frames: seq<Frame>, first: nat, watermark: int) {
    && (forall i :: 0 <= i < |frames| ==>
          && frames[i].chunkIndex == first + i
          && FitsChunk(frames[i].rows) && frames[i].rowCount == |frames[i].rows|
          && (frames[i].finalChunk <==> i == |frames| - 1)
          && (frames[i].rows == [] ==> |frames| == 1)
          && frames[i].watermark == (if i == |frames| - 1 then Some(watermark) else None))
  }

  lemma {:induction false} FramesFlatten(s: State)
    ensures Flatten(Frames(s)) == s.rows
    ensures s.rows != [] || Left(s) == 1 ==> Frames(s) != []
    decreases Left(s)
  {
    var (frame, s') := Poll(s);
    if frame.Some? {
      FramesFlatten(s');
      FlattenCons(frame.value, Frames(s'));
      Rejoin(s.rows, NextChunk(s.rows));
    }
  }

  lemma FlattenCons(f: Frame, rest: seq<Frame>)
    ensures Flatten([f] + rest) == f.rows + Flatten(rest)
  {
    assert ([f] + rest)[1..] == rest;
  }

  lemma Rejoin(rows: seq<Row>, n: nat)
    requires n <= |rows|
    ensures rows[..n] + rows[n..] == rows
  {
  }

  lemma WellCutCons(f: Frame, rest: seq<Frame>, first: nat, watermark: int)
    requires WellCut(rest, first + 1, watermark) && f.chunkIndex == first && FitsChunk(f.rows) && f.rowCount == |f.rows|
    requires f.finalChunk <==> rest == []
    requires f.watermark == if rest == [] then Some(watermark) else None
    requires f.rows == [] ==> rest == []
    requires forall i :: 0 <= i < |rest| ==> rest[i].rows != []
    ensures WellCut([f] + rest, first, watermark)
  {
    var all := [f] + rest;
    assert forall i :: 0 < i < |all| ==> all[i] == rest[i - 1];
  }

  lemma {:induction false} FramesAreWellCut(s: State)
    requires RowsFit(s.rows)
    ensures WellCut(Frames(s), s.chunkIndex, s.watermark)
    ensures s.rows != [] || s.chunkIndex > 0 ==> forall i :: 0 <= i < |Frames(s)| ==> Frames(s)[i].rows != []
    decreases Left(s)
  {
    var (frame, s') := Poll(s);
    if frame.Some? {
      MoreFits(s.rows, 0, 0);
      FramesAreWellCut(s');
      FramesFlatten(s');
      WellCutCons(frame.value, Frames(s'), s.chunkIndex, s.watermark);
    }
  }

  /**
   The stream is a lossless partition: the chunks concatenate to the batch in order, are numbered from zero, obey both
   limits, and exactly the last is final and carries the watermark; an empty batch gives one empty final chunk.
   */
  lemma StreamIsALosslessPartition(rows: seq<Row>, watermark: int)
    requires RowsFit(rows)
    ensures var frames := Frames(Start(rows, watermark));
            && frames != [] && Flatten(frames) == rows && WellCut(frames, 0, watermark)
            && (rows == [] ==> frames == [Frame([], 0, 0, true, Some(watermark))])
  {
    FramesFlatten(Start(rows, watermark));
    FramesAreWellCut(Start(rows, watermark));
    if rows == [] { assert Frames(Poll(Start(rows, watermark)).1) == []; }
  }

  // ----- Optimality -----

  function Concat(parts: seq<seq<Row>>): seq<Row> {
    if parts == [] then [] else parts[0] + Concat(parts[1..])
  }

  ghost predicate Feasible(parts: seq<seq<Row>>) {
    forall i :: 0 <= i < |parts| ==> FitsChunk(parts[i])
  }

  /** The number of chunks greedy cutting makes of a non-empty rest. */
  function Cuts(rows: seq<Row>): nat
    decreases |rows|
  {
    if rows == [] then 0 else 1 + Cuts(rows[NextChunk(rows)..])
  }

  lemma {:induction false} FramesCountCuts(s: State)
    ensures |Frames(s)| == if s.rows == [] then Left(s) else Cuts(s.rows)
    decreases Left(s)
  {
    var (frame, s') := Poll(s);
    if frame.Some? { FramesCountCuts(s'); }
  }

  /**
   Greedy cutting stays ahead: whatever is partitioned feasibly together with rows already done needs as many parts.
   */
  lemma {:induction false} GreedyStaysAhead(done: seq<Row>, rest: seq<Row>, parts: seq<seq<Row>>)
    requires Feasible(parts) && Concat(parts) == done + rest
    ensures Cuts(rest) <= |parts|
    decreases |parts|
  {
    if rest != [] {
      var part := parts[0];
      if |part| <= |done| {
        assert part == (done + rest)[..|part|];
        assert Concat(parts[1..]) == (done + rest)[|part|..] == done[|part|..] + rest;
        GreedyStaysAhead(done[|part|..], rest, parts[1..]);
      } else {
        var m := |part| - |done|;
        var n := NextChunk(rest);
        assert part == (done + rest)[..|part|] == done + rest[..m];
        BytesSplit(done, rest[..m]);
        MoreIsLongest(rest, 0, 0, m);
        assert Concat(parts[1..]) == (done + rest)[|part|..] == rest[m..] == rest[m..n] + rest[n..];
        GreedyStaysAhead(rest[m..n], rest[n..], parts[1..]);
      }
    }
  }

  /** No partition of the rows in order into chunks within the limits has fewer parts than the stream has frames. */
  lemma StreamIsOptimal(rows: seq<Row>, watermark: int, parts: seq<seq<Row>>)
    requires Feasible(parts) && Concat(parts) == rows && |parts| > 0
    ensures |Frames(Start(rows, watermark))| <= |parts|
  {
    FramesCountCuts(Start(rows, watermark));
    GreedyStaysAhead([], rows, parts);
    assert [] + rows == rows;
  }

  // ----- The unfold in the source's own form -----

  /** `SourceIncrementalChunkState`. */
  class ChunkState {
    var rows: seq<Row>
    var watermark_after: int
    var chunk_index: nat
    var emitted_empty: bool

    ghost function Model(): State
      reads this
    {
      State(rows, watermark_after, chunk_index, emitted_empty)
    }

    constructor (rows: seq<Row>, watermark: int)
      ensures Model() == Start(rows, watermark)
    {
      this.rows, watermark_after, chunk_index, emitted_empty := rows, watermark, 0, false;
    }

    /** Pops rows off the queue while the chunk has room. */
    method FillChunk() returns (chunk: seq<Row>)
      modifies this`rows
      ensures chunk == old(rows)[..NextChunk(old(rows))] && rows == old(rows)[NextChunk(old(rows))..]
    {
      chunk := [];
      var bytes: nat := 0;
      while |chunk| < MAX_ROWS && rows != []
        invariant |chunk| <= |old(rows)| && chunk == old(rows)[..|chunk|] && rows == old(rows)[|chunk|..]
        invariant |chunk| + More(rows, |chunk|, bytes) == NextChunk(old(rows))
        decreases |rows|
      {
        var row := rows[0];
        if |chunk| > 0 && bytes + row.bytes > MAX_BYTES { break; }
        bytes := bytes + row.bytes;
        chunk := chunk + [row];
        rows := rows[1..];
      }
    }

    method Next() returns (frame: Option<Frame>)
      modifies this
      ensures (frame, Model()) == Poll(old(Model()))
    {
      if rows == [] && (chunk_index > 0 || emitted_empty) { return None; }
      var chunk := FillChunk();
      if chunk == [] { emitted_empty := true; }
      var final_chunk := rows == [];
      frame := Some(Frame(chunk, |chunk|, chunk_index, final_chunk,
                          if final_chunk then Some(watermark_after) else None));
      chunk_index := chunk_index + 1;
    }
  }
}
