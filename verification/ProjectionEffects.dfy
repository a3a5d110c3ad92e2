/**
 What an accepted delta leaves behind, and which deltas are accepted, said of the whole list of operations at once
 (surfaces/webui/src/adapters/executionProjection.ts).
 */
module ProjectionEffects {
  import opened Wrappers
  import opened KeyedTables
  import opened ProjectionReducer

  // ----- The last write wins -----

  /** What the operation writes into a part that is replaced as a whole. */
  function Writes(op: Operation, part: Part): Option<int> {
    match op
    case SetProjectionHeader(_, header) => if part == SessionHeader then Some(header) else None
    case ReplaceGraphTopology(_, edges) => if part == GraphEdges then Some(edges) else None
    case ReplacePart(p, content) => if part == p then Some(content) else None
    case SetTerminal(ref, live) => if part == TerminalRef then Some(ref) else if part == Live then live else None
    case _ => None
  }

  /** What it sets the revision to. */
  function SetsRevision(op: Operation): Option<int> {
    if op.SetProjectionHeader? then Some(op.revision) else None
  }

  function SetsCursor(op: Operation): Option<int> {
    if op.AdvanceCursor? then Some(op.cursor) else None
  }

  /** The value after the operations: the last one set, or the one there was. */
  function LastSet<T>(ops: seq<Operation>, sets: Operation -> Option<T>, before: T): T {
    if ops == [] then before
    else if sets(ops[|ops| - 1]).Some? then sets(ops[|ops| - 1]).value
    else LastSet(ops[..|ops| - 1], sets, before)
  }

  function PartOf(p: Projection, part: Part): Option<int> {
    if part in p.parts then Some(p.parts[part]) else None
  }

  /** As an optional value, so that a part that was absent may stay so. */
  function WritesMaybe(part: Part): Operation -> Option<Option<int>> {
    (op: Operation) => if Writes(op, part).Some? then Some(Writes(op, part)) else None
  }

  lemma LastSetOfOneMore<T>(op: Operation, ops: seq<Operation>, sets: Operation -> Option<T>, before: T, now: T)
    requires now == if sets(op).Some? then sets(op).value else before
    ensures LastSet([op] + ops, sets, before) == LastSet(ops, sets, now)
    decreases |ops|
  {
    var all := [op] + ops;
    if ops == [] {
      assert all[..|all| - 1] == [];
    } else {
      assert all[|all| - 1] == ops[|ops| - 1] && all[..|all| - 1] == [op] + ops[..|ops| - 1];
      LastSetOfOneMore(op, ops[..|ops| - 1], sets, before, now);
    }
  }

  lemma OneOperationWrites(p: Projection, op: Operation, part: Part)
    requires Apply(p, op).Ok?
    ensures var q := Apply(p, op).value;
            && PartOf(q, part) == (if Writes(op, part).Some? then Writes(op, part) else PartOf(p, part))
            && q.revision == (if SetsRevision(op).Some? then SetsRevision(op).value else p.revision)
            && q.cursor == (if SetsCursor(op).Some? then SetsCursor(op).value else p.cursor)
  {
  }

  /**
   After an accepted list of operations every part, the revision and the cursor are what the last operation that sets
   them says, and what they were if none does.
   */
  lemma {:induction false} LastWriteWins(p: Projection, ops: seq<Operation>, part: Part)
    requires ApplyAll(p, ops).Ok?
    ensures var q := ApplyAll(p, ops).value;
            && PartOf(q, part) == LastSet(ops, WritesMaybe(part), PartOf(p, part))
            && q.revision == LastSet(ops, SetsRevision, p.revision)
            && q.cursor == LastSet(ops, SetsCursor, p.cursor)
    decreases |ops|
  {
    if ops != [] {
      var q := Apply(p, ops[0]).value;
      OneOperationWrites(p, ops[0], part);
      LastWriteWins(q, ops[1..], part);
      assert ops == [ops[0]] + ops[1..];
      LastSetOfOneMore(ops[0], ops[1..], WritesMaybe(part), PartOf(p, part), PartOf(q, part));
      LastSetOfOneMore(ops[0], ops[1..], SetsRevision, p.revision, q.revision);
      LastSetOfOneMore(ops[0], ops[1..], SetsCursor, p.cursor, q.cursor);
    }
  }

  // ----- Which operations are accepted -----

  /** The kinds of operation the reducer knows; activities and their relations cannot be removed one by one. */
  predicate Supported(op: Operation) {
    !op.UnsupportedOperation? && (op.Remove? ==> op.table != Activities && op.table != ActivityRelations)
  }

  /** No cursor is below the one before it. */
  predicate CursorsClimb(ops: seq<Operation>, cursor: int) {
    forall i :: 0 <= i < |ops| && ops[i].AdvanceCursor? ==> ops[i].cursor >= LastSet(ops[..i], SetsCursor, cursor)
  }

  /** One operation more in front shifts every place, and starts the rest from where it leaves the cursor. */
  lemma ClimbShifts(op: Operation, ops: seq<Operation>, cursor: int, next: int, i: nat)
    requires next == if op.AdvanceCursor? then op.cursor else cursor
    requires i < |ops|
    ensures ([op] + ops)[i + 1] == ops[i]
    ensures LastSet(([op] + ops)[..i + 1], SetsCursor, cursor) == LastSet(ops[..i], SetsCursor, next)
  {
    assert ([op] + ops)[..i + 1] == [op] + ops[..i];
    LastSetOfOneMore(op, ops[..i], SetsCursor, cursor, next);
  }

  lemma CursorsClimbOn(op: Operation, ops: seq<Operation>, cursor: int, next: int)
    requires next == if op.AdvanceCursor? then op.cursor else cursor
    ensures CursorsClimb([op] + ops, cursor)
       <==> (op.AdvanceCursor? ==> op.cursor >= cursor) && CursorsClimb(ops, next)
  {
    ClimbingGoesOn(op, ops, cursor, next);
    ClimbingStarts(op, ops, cursor, next);
  }

  lemma ClimbingGoesOn(op: Operation, ops: seq<Operation>, cursor: int, next: int)
    requires next == if op.AdvanceCursor? then op.cursor else cursor
    ensures CursorsClimb([op] + ops, cursor) ==>
              (op.AdvanceCursor? ==> op.cursor >= cursor) && CursorsClimb(ops, next)
  {
    var all := [op] + ops;
    if CursorsClimb(all, cursor) {
      assert all[0] == op && all[..0] == [];
      forall i | 0 <= i < |ops| && ops[i].AdvanceCursor? ensures ops[i].cursor >= LastSet(ops[..i], SetsCursor, next) {
        ClimbShifts(op, ops, cursor, next, i);
        assert all[i + 1].AdvanceCursor?;
      }
    }
  }

  lemma ClimbingStarts(op: Operation, ops: seq<Operation>, cursor: int, next: int)
    requires next == if op.AdvanceCursor? then op.cursor else cursor
    ensures (op.AdvanceCursor? ==> op.cursor >= cursor) && CursorsClimb(ops, next) ==> CursorsClimb([op] + ops, cursor)
  {
    var all := [op] + ops;
    if (op.AdvanceCursor? ==> op.cursor >= cursor) && CursorsClimb(ops, next) {
      forall i | 0 <= i < |all| && all[i].AdvanceCursor?
        ensures all[i].cursor >= LastSet(all[..i], SetsCursor, cursor)
      {
        if i == 0 {
          assert all[..0] == [];
        } else {
          ClimbShifts(op, ops, cursor, next, i - 1);
          assert ops[i - 1].AdvanceCursor?;
        }
      }
    }
  }

  /** A list of operations is accepted exactly when all are supported and no cursor goes back. */
  lemma {:induction false} OperationsAreAcceptedIff(p: Projection, ops: seq<Operation>)
    ensures ApplyAll(p, ops).Ok?
       <==> (forall i :: 0 <= i < |ops| ==> Supported(ops[i])) && CursorsClimb(ops, p.cursor)
    decreases |ops|
  {
    if ops != [] {
      var first, rest := ops[0], ops[1..];
      assert ops == [first] + rest;
      var next := if first.AdvanceCursor? then first.cursor else p.cursor;
      CursorsClimbOn(first, rest, p.cursor, next);
      assert Apply(p, first).Ok? <==> Supported(first) && (first.AdvanceCursor? ==> first.cursor >= p.cursor);
      if Apply(p, first).Ok? {
        var q := Apply(p, first).value;
        OneOperationWrites(p, first, Live);
        OperationsAreAcceptedIff(q, rest);
        assert forall i :: 0 <= i < |rest| ==> ops[i + 1] == rest[i];
      }
    }
  }

  // ----- Which deltas are accepted -----

  /** The delta is for this projection, from where it stands, and for the same scope. */
  predicate Continues(p: Projection, d: Delta) {
    && p.identity == d.identity && d.identity.schemaVersion == 4 && d.reducerVersion == 4
    && d.fromRevision == p.revision && d.baseCursor == p.cursor
    && d.fromRevision <= d.targetRevision && d.baseCursor <= d.targetCursor
    && d.resyncReason.None?
  }

  /** Its operations lead where it says. */
  ghost predicate Arrives(p: Projection, d: Delta) {
    && (forall i :: 0 <= i < |d.operations| ==> Supported(d.operations[i])) && CursorsClimb(d.operations, p.cursor)
    && LastSet(d.operations, SetsRevision, p.revision) == d.targetRevision
    && LastSet(d.operations, SetsCursor, p.cursor) == d.targetCursor
  }

  /**
   A delta is accepted exactly when it continues the projection, its operations are supported, never take the cursor
   back and end at the revision and the cursor it announces, and the keys are unique then; from unique keys they are if
   the delta brings no duplicates.
   */
  lemma DeltaIsAcceptedIff(p: Projection, d: Delta)
    ensures Reduce(p, d).Ok?
       <==> Continues(p, d) && Arrives(p, d)
            && ApplyAll(p, d.operations).Ok? && UniqueKeys(ApplyAll(p, d.operations).value)
    ensures UniqueKeys(p) && (forall i :: 0 <= i < |d.operations| ==> BringsUniqueKeys(d.operations[i])) ==>
              (Reduce(p, d).Ok? <==> Continues(p, d) && Arrives(p, d))
  {
    EnvelopeIff(p, d);
    OperationsAreAcceptedIff(p, d.operations);
    if ApplyAll(p, d.operations).Ok? {
      LastWriteWins(p, d.operations, Live);
      if UniqueKeys(p) && forall i :: 0 <= i < |d.operations| ==> BringsUniqueKeys(d.operations[i]) {
        DuplicateCheckNeverTrips(p, d.operations);
      }
    }
  }

  lemma EnvelopeIff(p: Projection, d: Delta)
    ensures ProjectionReducer.Envelope(p, d).None? <==> Continues(p, d)
  {
  }

  /** A refusal names something that is the matter with the delta. */
  lemma RefusalsAreTrue(p: Projection, d: Delta)
    requires Reduce(p, d).Err?
    ensures match Reduce(p, d).error
            case VersionMismatch =>
              p.identity.schemaVersion != 4 || d.identity.schemaVersion != 4 || d.reducerVersion != 4
            case IdentityMismatch => p.identity.executionId != d.identity.executionId
            case NotContiguous =>
              p.revision != d.fromRevision || p.cursor != d.baseCursor
              || d.targetRevision < d.fromRevision || d.targetCursor < d.baseCursor
            case ScopeChanged => p.identity != d.identity
            case ResyncRequired => d.resyncReason.Some?
            case CursorRegressed => !CursorsClimb(d.operations, p.cursor)
            case Unsupported => exists i :: 0 <= i < |d.operations| && !Supported(d.operations[i])
            case RevisionNotMaterialized => LastSet(d.operations, SetsRevision, p.revision) != d.targetRevision
            case CursorNotMaterialized => LastSet(d.operations, SetsCursor, p.cursor) != d.targetCursor
            case DuplicateKey => ApplyAll(p, d.operations).Ok? && !UniqueKeys(ApplyAll(p, d.operations).value)
  {
    if ApplyAll(p, d.operations).Ok? {
      LastWriteWins(p, d.operations, Live);
    } else {
      FirstFailure(p, d.operations);
    }
  }

  lemma {:induction false} FirstFailure(p: Projection, ops: seq<Operation>)
    requires ApplyAll(p, ops).Err?
    ensures ApplyAll(p, ops).error == Unsupported ==> exists i :: 0 <= i < |ops| && !Supported(ops[i])
    ensures ApplyAll(p, ops).error == CursorRegressed ==> !CursorsClimb(ops, p.cursor)
    ensures ApplyAll(p, ops).error in {CursorRegressed, Unsupported}
    decreases |ops|
  {
    var first, rest := ops[0], ops[1..];
    var next := if first.AdvanceCursor? then first.cursor else p.cursor;
    assert ops == [first] + rest;
    CursorsClimbOn(first, rest, p.cursor, next);
    if Apply(p, first).Ok? {
      OneOperationWrites(p, first, Live);
      FirstFailure(Apply(p, first).value, rest);
      assert forall i :: 0 <= i < |rest| ==> ops[i + 1] == rest[i];
    } else {
      assert !Supported(first) || first.AdvanceCursor?;
    }
  }
}
