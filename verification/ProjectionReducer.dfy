/**
 The execution projection reducer (surfaces/webui/src/adapters/executionProjection.ts): a delta is checked against
 the projection, its operations are applied in order, and the result is checked again.
 */
module ProjectionReducer {
  import opened Wrappers
  import opened KeyedTables

  const SCHEMA_VERSION := 4
  const REDUCER_VERSION := 4

  datatype Collection = Goals | Agents | Teams | Relations | Approvals | Admissions | Outcomes | Interventions
                      | Usage | Context | Evidence | Health | Recovery

  /** The keyed arrays of a projection. */
  datatype Table = GraphNodes | ChildExecutions | Activities | ActivityRelations | Entities(collection: Collection)

  /** What no operation of the reducer changes. */
  datatype Identity = Identity(schemaVersion: int, executionId: int, detailScope: int,
                               authorizationRevision: int, redactionRevision: int)

  /** The parts of a projection that operations replace as a whole. */
  datatype Part = SessionHeader | GraphMetadata | GraphEdges | Concurrency | Collaboration | Strategy
                | AvailableCommands | TerminalRef | Live | DeliveryTruth

  /** `tables` misses an entry where the source's optional arrays are absent. */
  datatype Projection = Projection(identity: Identity, revision: int, cursor: int,
                                   tables: map<Table, seq<Entry>>, parts: map<Part, int>)

  datatype Operation =
    | SetProjectionHeader(revision: int, header: int)
    | ReplaceGraphTopology(nodeIds: set<int>, edges: int)
    | Upsert(table: Table, entry: Entry)
    | Remove(table: Table, key: int)
    | ReplaceActivities(activities: seq<Entry>, relations: seq<Entry>)
    | ReplacePart(part: Part, content: int)
    | SetTerminal(ref: int, live: Option<int>)
    | AdvanceCursor(cursor: int)
    | UnsupportedOperation

  datatype Delta = Delta(identity: Identity, reducerVersion: int, fromRevision: int, targetRevision: int,
                         baseCursor: int, targetCursor: int, resyncReason: Option<int>, operations: seq<Operation>)

  datatype Error = VersionMismatch | IdentityMismatch | NotContiguous | ScopeChanged | ResyncRequired
                 | CursorRegressed | Unsupported | RevisionNotMaterialized | CursorNotMaterialized | DuplicateKey

  function Rows(p: Projection, t: Table): seq<Entry> {
    if t in p.tables then p.tables[t] else []
  }

  function WithRows(p: Projection, t: Table, rows: seq<Entry>): Projection {
    p.(tables := p.tables[t := rows])
  }

  /** Activities and their relations are never removed one by one. */
  predicate Removable(t: Table) {
    t != Activities && t != ActivityRelations
  }

  /** `applyOperation`. */
  function Apply(p: Projection, op: Operation): Result<Projection, Error> {
    match op
    case SetProjectionHeader(revision, header) =>
      Ok(p.(revision := revision, parts := p.parts[SessionHeader := header]))
    case ReplaceGraphTopology(nodeIds, edges) =>
      Ok(WithRows(p, GraphNodes, Only(Rows(p, GraphNodes), nodeIds)).(parts := p.parts[GraphEdges := edges]))
    case Upsert(t, entry) => Ok(WithRows(p, t, KeyedTables.Upsert(Rows(p, t), entry)))
    case Remove(t, key) => if Removable(t) then Ok(WithRows(p, t, Without(Rows(p, t), key))) else Err(Unsupported)
    case ReplaceActivities(activities, relations) =>
      Ok(WithRows(WithRows(p, Activities, activities), ActivityRelations, relations))
    case ReplacePart(part, content) => Ok(p.(parts := p.parts[part := content]))
    case SetTerminal(ref, live) =>
      var p' := p.(parts := p.parts[TerminalRef := ref]);
      Ok(if live.Some? then p'.(parts := p'.parts[Live := live.value]) else p')
    case AdvanceCursor(cursor) => if cursor < p.cursor then Err(CursorRegressed) else Ok(p.(cursor := cursor))
    case UnsupportedOperation => Err(Unsupported)
  }

  function ApplyAll(p: Projection, ops: seq<Operation>): Result<Projection, Error>
    decreases |ops|
  {
    if ops == [] then Ok(p)
    else
      match Apply(p, ops[0])
      case Err(e) => Err(e)
      case Ok(p') => ApplyAll(p', ops[1..])
  }

  /** `validateEnvelope`. */
  function Envelope(current: Projection, d: Delta): Option<Error> {
    if current.identity.schemaVersion != SCHEMA_VERSION || d.identity.schemaVersion != SCHEMA_VERSION
       || d.reducerVersion != REDUCER_VERSION then Some(VersionMismatch)
    else if current.identity.executionId != d.identity.executionId then Some(IdentityMismatch)
    else if current.revision != d.fromRevision || current.cursor != d.baseCursor
            || d.targetRevision < d.fromRevision || d.targetCursor < d.baseCursor then Some(NotContiguous)
    else if current.identity.detailScope != d.identity.detailScope
            || current.identity.authorizationRevision != d.identity.authorizationRevision
            || current.identity.redactionRevision != d.identity.redactionRevision then Some(ScopeChanged)
    else if d.resyncReason.Some? then Some(ResyncRequired)
    else None
  }

  ghost predicate UniqueKeys(p: Projection) {
    forall t :: Unique(Rows(p, t))
  }

  /** `validateUniqueKeys`, over the tables that are present. */
  predicate HasUniqueKeys(p: Projection)
    ensures HasUniqueKeys(p) <==> UniqueKeys(p)
  {
    assert UniqueKeys(p) ==> forall t <- p.tables :: Unique(Rows(p, t));
    forall t <- p.tables :: Unique(p.tables[t])
  }

  /** The checks after the operations. */
  function Finish(next: Projection, d: Delta): Result<Projection, Error> {
    if next.revision != d.targetRevision then Err(RevisionNotMaterialized)
    else if next.cursor != d.targetCursor then Err(CursorNotMaterialized)
    else if !HasUniqueKeys(next) then Err(DuplicateKey)
    else Ok(next)
  }

  /** `reduceExecutionProjectionDelta`. */
  function Reduce(current: Projection, d: Delta): Result<Projection, Error> {
    match Envelope(current, d)
    case Some(e) => Err(e)
    case None =>
      match ApplyAll(current, d.operations)
      case Err(e) => Err(e)
      case Ok(next) => Finish(next, d)
  }

  // ----- The duplicate check -----

  /** The one operation that can bring duplicate keys in installs arrays that have them. */
  predicate BringsUniqueKeys(op: Operation) {
    op.ReplaceActivities? ==> Unique(op.activities) && Unique(op.relations)
  }

  /** From unique keys, an applied operation leaves unique keys exactly when it brings no duplicates itself. */
  lemma OperationsKeepUniqueKeysIff(p: Projection, op: Operation)
    requires UniqueKeys(p) && Apply(p, op).Ok?
    ensures UniqueKeys(Apply(p, op).value) <==> BringsUniqueKeys(op)
  {
    var q := Apply(p, op).value;
    match op
    case Upsert(t, entry) => UpsertRefinesUpdate(Rows(p, t), entry); SameElsewhere(p, t, q);
    case Remove(t, key) => WithoutRefinesRemoval(Rows(p, t), key); SameElsewhere(p, t, q);
    case ReplaceGraphTopology(ids, _) => OnlyKeeps(Rows(p, GraphNodes), ids); SameElsewhere(p, GraphNodes, q);
    case ReplaceActivities(activities, relations) =>
      assert Rows(q, Activities) == activities && Rows(q, ActivityRelations) == relations;
      assert forall t :: t != Activities && t != ActivityRelations ==> Rows(q, t) == Rows(p, t);
    case SetProjectionHeader(_, _) => assert forall t :: Rows(q, t) == Rows(p, t);
    case ReplacePart(_, _) => assert forall t :: Rows(q, t) == Rows(p, t);
    case SetTerminal(_, _) => assert forall t :: Rows(q, t) == Rows(p, t);
    case AdvanceCursor(_) => assert forall t :: Rows(q, t) == Rows(p, t);
    case UnsupportedOperation =>
  }

  lemma SameElsewhere(p: Projection, t: Table, q: Projection)
    requires UniqueKeys(p) && t in q.tables && q.tables == p.tables[t := q.tables[t]] && Unique(q.tables[t])
    ensures UniqueKeys(q)
  {
    forall u ensures Unique(Rows(q, u)) {
      assert Unique(Rows(p, u));
    }
  }

  /** So upserts, removals and the rest never trip the duplicate check. */
  lemma {:induction false} DuplicateCheckNeverTrips(p: Projection, ops: seq<Operation>)
    requires UniqueKeys(p) && ApplyAll(p, ops).Ok? && forall i :: 0 <= i < |ops| ==> BringsUniqueKeys(ops[i])
    ensures UniqueKeys(ApplyAll(p, ops).value)
    decreases |ops|
  {
    if ops != [] {
      OperationsKeepUniqueKeysIff(p, ops[0]);
      DuplicateCheckNeverTrips(Apply(p, ops[0]).value, ops[1..]);
    }
  }

  lemma ReduceNeverReportsDuplicates(current: Projection, d: Delta)
    requires UniqueKeys(current) && forall i :: 0 <= i < |d.operations| ==> BringsUniqueKeys(d.operations[i])
    ensures Reduce(current, d) != Err(DuplicateKey)
  {
    if ApplyAll(current, d.operations).Ok? { DuplicateCheckNeverTrips(current, d.operations); }
    ApplyErrors(current, d.operations);
  }

  /** Applying fails for a regressed cursor or an unsupported operation only. */
  lemma {:induction false} ApplyErrors(p: Projection, ops: seq<Operation>)
    ensures ApplyAll(p, ops).Err? ==> ApplyAll(p, ops).error in {CursorRegressed, Unsupported}
    decreases |ops|
  {
    if ops != [] && Apply(p, ops[0]).Ok? { ApplyErrors(Apply(p, ops[0]).value, ops[1..]); }
  }

  // ----- Reducing arrays refines updating finite maps -----

  /** The finite maps a projection's tables stand for. */
  type Maps = Table -> map<int, Entry>

  ghost predicate StandsForMaps(p: Projection, m: Maps) {
    forall t :: Unique(Rows(p, t)) && ToMap(Rows(p, t)) == m(t)
  }

  /** What an operation does to the maps. */
  function MapStep(m: Maps, op: Operation): Maps
    requires BringsUniqueKeys(op)
  {
    match op
    case Upsert(t, entry) => u => if u == t then m(t)[entry.key := entry] else m(u)
    case Remove(t, key) => u => if u == t then m(t) - {key} else m(u)
    case ReplaceGraphTopology(ids, _) => u => if u == GraphNodes then map k | k in m(u) && k in ids :: m(u)[k] else m(u)
    case ReplaceActivities(activities, relations) =>
      u => if u == Activities then ToMap(activities) else if u == ActivityRelations then ToMap(relations) else m(u)
    case _ => m
  }

  function MapAll(m: Maps, ops: seq<Operation>): Maps
    requires forall i :: 0 <= i < |ops| ==> BringsUniqueKeys(ops[i])
    decreases |ops|
  {
    if ops == [] then m else MapAll(MapStep(m, ops[0]), ops[1..])
  }

  lemma OperationRefinesMaps(p: Projection, m: Maps, op: Operation)
    requires StandsForMaps(p, m) && BringsUniqueKeys(op) && Apply(p, op).Ok?
    ensures StandsForMaps(Apply(p, op).value, MapStep(m, op))
  {
    var q := Apply(p, op).value;
    match op
    case Upsert(t, entry) => UpsertRefinesUpdate(Rows(p, t), entry); RefinesElsewhere(p, m, t, q, MapStep(m, op));
    case Remove(t, key) => WithoutRefinesRemoval(Rows(p, t), key); RefinesElsewhere(p, m, t, q, MapStep(m, op));
    case ReplaceGraphTopology(ids, _) =>
      OnlyRefinesRestriction(Rows(p, GraphNodes), ids);
      RefinesElsewhere(p, m, GraphNodes, q, MapStep(m, op));
    case ReplaceActivities(activities, relations) =>
      assert Rows(q, Activities) == activities && Rows(q, ActivityRelations) == relations;
      assert forall t :: t != Activities && t != ActivityRelations ==> Rows(q, t) == Rows(p, t);
    case SetProjectionHeader(_, _) => assert forall t :: Rows(q, t) == Rows(p, t);
    case ReplacePart(_, _) => assert forall t :: Rows(q, t) == Rows(p, t);
    case SetTerminal(_, _) => assert forall t :: Rows(q, t) == Rows(p, t);
    case AdvanceCursor(_) => assert forall t :: Rows(q, t) == Rows(p, t);
    case UnsupportedOperation =>
  }

  lemma RefinesElsewhere(p: Projection, m: Maps, t: Table, q: Projection, n: Maps)
    requires StandsForMaps(p, m) && t in q.tables && q.tables == p.tables[t := q.tables[t]]
    requires Unique(q.tables[t]) && ToMap(q.tables[t]) == n(t) && forall u :: u != t ==> n(u) == m(u)
    ensures StandsForMaps(q, n)
  {
    forall u ensures Unique(Rows(q, u)) && ToMap(Rows(q, u)) == n(u) {
      assert Unique(Rows(p, u)) && ToMap(Rows(p, u)) == m(u);
    }
  }

  /** The sorted-array reducer on a list of operations stands for the finite-map one. */
  lemma {:induction false} ReducerRefinesMaps(p: Projection, m: Maps, ops: seq<Operation>)
    requires StandsForMaps(p, m) && ApplyAll(p, ops).Ok? && forall i :: 0 <= i < |ops| ==> BringsUniqueKeys(ops[i])
    ensures StandsForMaps(ApplyAll(p, ops).value, MapAll(m, ops))
    decreases |ops|
  {
    if ops != [] {
      OperationRefinesMaps(p, m, ops[0]);
      ReducerRefinesMaps(Apply(p, ops[0]).value, MapStep(m, ops[0]), ops[1..]);
    }
  }

  // ----- Operations on distinct keys commute -----

  /** The table and key an upsert or a removal is about. */
  function Target(op: Operation): Option<(Table, int)> {
    match op
    case Upsert(t, entry) => Some((t, entry.key))
    case Remove(t, key) => if Removable(t) then Some((t, key)) else None
    case _ => None
  }

  function Edit(rows: seq<Entry>, op: Operation): seq<Entry>
    requires op.Upsert? || op.Remove?
  {
    match op
    case Upsert(_, entry) => KeyedTables.Upsert(rows, entry)
    case Remove(_, key) => Without(rows, key)
  }

  lemma EditsCommute(rows: seq<Entry>, a: Operation, b: Operation)
    requires Unique(rows) && Target(a).Some? && Target(b).Some? && Target(a).value.1 != Target(b).value.1
    ensures Edit(Edit(rows, a), b) == Edit(Edit(rows, b), a)
  {
    match (a, b)
    case (Upsert(_, x), Upsert(_, y)) => UpsertsCommute(rows, x, y);
    case (Upsert(_, x), Remove(_, k)) => UpsertAndRemovalCommute(rows, x, k);
    case (Remove(_, k), Upsert(_, x)) => UpsertAndRemovalCommute(rows, x, k);
    case (Remove(_, j), Remove(_, k)) => WithoutCommutes(rows, j, k);
  }

  /** An upsert or removal rewrites the rows of its own table. */
  lemma PairApplies(p: Projection, a: Operation, b: Operation)
    requires Target(a).Some? && Target(b).Some?
    ensures var t, u := Target(a).value.0, Target(b).value.0;
            var q := WithRows(p, t, Edit(Rows(p, t), a));
            ApplyAll(p, [a, b]) == Ok(WithRows(q, u, Edit(Rows(q, u), b)))
  {
    Pairs(p, a, b);
  }

  lemma SameTableCommutes(p: Projection, t: Table, a: Operation, b: Operation)
    requires Unique(Rows(p, t)) && Target(a).Some? && Target(b).Some? && Target(a).value.1 != Target(b).value.1
    requires Target(a).value.0 == t == Target(b).value.0
    ensures ApplyAll(p, [a, b]) == ApplyAll(p, [b, a]) && ApplyAll(p, [a, b]).Ok?
  {
    PairApplies(p, a, b);
    PairApplies(p, b, a);
    EditsCommute(Rows(p, t), a, b);
    LastRowsWin(p, t, Edit(Rows(p, t), a), Edit(Edit(Rows(p, t), a), b));
    LastRowsWin(p, t, Edit(Rows(p, t), b), Edit(Edit(Rows(p, t), b), a));
  }

  lemma LastRowsWin(p: Projection, t: Table, x: seq<Entry>, y: seq<Entry>)
    ensures WithRows(WithRows(p, t, x), t, y) == WithRows(p, t, y)
    ensures Rows(WithRows(p, t, x), t) == x
  {
    assert p.tables[t := x][t := y] == p.tables[t := y];
  }

  lemma OtherRowsStay(p: Projection, t: Table, x: seq<Entry>, u: Table, y: seq<Entry>)
    requires t != u
    ensures WithRows(WithRows(p, t, x), u, y) == WithRows(WithRows(p, u, y), t, x)
    ensures Rows(WithRows(p, t, x), u) == Rows(p, u)
  {
    assert p.tables[t := x][u := y] == p.tables[u := y][t := x];
  }

  lemma OtherTablesCommute(p: Projection, a: Operation, b: Operation)
    requires Target(a).Some? && Target(b).Some? && Target(a).value.0 != Target(b).value.0
    ensures ApplyAll(p, [a, b]) == ApplyAll(p, [b, a]) && ApplyAll(p, [a, b]).Ok?
  {
    var t, u := Target(a).value.0, Target(b).value.0;
    PairApplies(p, a, b);
    PairApplies(p, b, a);
    OtherRowsStay(p, t, Edit(Rows(p, t), a), u, Edit(Rows(p, u), b));
    OtherRowsStay(p, u, Edit(Rows(p, u), b), t, Edit(Rows(p, t), a));
  }

  /** Upserts and removals on distinct keys, in either order, give the identical projection. */
  lemma DistinctKeysCommute(p: Projection, a: Operation, b: Operation)
    requires UniqueKeys(p) && Target(a).Some? && Target(b).Some? && Target(a) != Target(b)
    ensures ApplyAll(p, [a, b]) == ApplyAll(p, [b, a]) && ApplyAll(p, [a, b]).Ok?
  {
    if Target(a).value.0 == Target(b).value.0 {
      SameTableCommutes(p, Target(a).value.0, a, b);
    } else {
      OtherTablesCommute(p, a, b);
    }
  }

  lemma Pairs(p: Projection, a: Operation, b: Operation)
    ensures ApplyAll(p, [a, b]) == if Apply(p, a).Ok? then Apply(Apply(p, a).value, b) else Err(Apply(p, a).error)
  {
    assert [a, b][1..] == [b] && [b][1..] == [];
    if Apply(p, a).Ok? { assert ApplyAll(Apply(p, a).value, [b]) == Apply(Apply(p, a).value, b); }
  }

  // ----- Consecutive deltas -----

  /** One delta with the operations of both. */
  function Join(d: Delta, e: Delta): Delta {
    d.(targetRevision := e.targetRevision, targetCursor := e.targetCursor, operations := d.operations + e.operations)
  }

  lemma {:induction false} ApplyAllSplits(p: Projection, a: seq<Operation>, b: seq<Operation>)
    ensures ApplyAll(p, a + b)
         == match ApplyAll(p, a) case Err(e) => Err(e) case Ok(q) => ApplyAll(q, b)
    decreases |a|
  {
    if a == [] {
      assert a + b == b;
    } else {
      assert (a + b)[0] == a[0] && (a + b)[1..] == a[1..] + b;
      if Apply(p, a[0]).Ok? { ApplyAllSplits(Apply(p, a[0]).value, a[1..], b); }
    }
  }

  /**
   Once a first delta is accepted, reducing a second that fits the result is reducing the joined delta, error for
   error.
   */
  lemma ConsecutiveDeltasJoin(current: Projection, d: Delta, e: Delta)
    requires Reduce(current, d).Ok? && Envelope(Reduce(current, d).value, e).None?
    ensures Reduce(current, Join(d, e)) == Reduce(Reduce(current, d).value, e)
  {
    ApplyAllSplits(current, d.operations, e.operations);
  }

  /** Accepted deltas never take the revision or the cursor back, and leave the identity alone. */
  lemma AcceptedDeltasMoveForward(current: Projection, d: Delta)
    requires Reduce(current, d).Ok?
    ensures var next := Reduce(current, d).value;
            next.revision >= current.revision && next.cursor >= current.cursor
            && next.identity == current.identity && UniqueKeys(next)
  {
    IdentityStays(current, d.operations);
  }

  lemma {:induction false} IdentityStays(p: Projection, ops: seq<Operation>)
    ensures ApplyAll(p, ops).Ok? ==>
              ApplyAll(p, ops).value.identity == p.identity && ApplyAll(p, ops).value.cursor >= p.cursor
    decreases |ops|
  {
    if ops != [] && Apply(p, ops[0]).Ok? { IdentityStays(Apply(p, ops[0]).value, ops[1..]); }
  }

  // ----- The reducer in the source's own form -----

  class WorkingProjection {
    const identity: Identity
    var revision: int
    var cursor: int
    var tables: map<Table, seq<Entry>>
    var parts: map<Part, int>

    function Model(): Projection
      reads this
    {
      Projection(identity, revision, cursor, tables, parts)
    }

    /** `structuredClone`: the reducer works on a copy. */
    constructor Clone(p: Projection)
      ensures Model() == p
    {
      identity, revision, cursor, tables, parts := p.identity, p.revision, p.cursor, p.tables, p.parts;
    }

    method ApplyOperation(op: Operation) returns (error: Option<Error>)
      modifies this
      ensures match Apply(old(Model()), op)
              case Ok(p) => error == None && Model() == p
              case Err(e) => error == Some(e)
    {
      error := None;
      match op {
        case SetProjectionHeader(r, header) =>
          revision := r;
          parts := parts[SessionHeader := header];
        case ReplaceGraphTopology(nodeIds, edges) =>
          tables := tables[GraphNodes := Only(Rows(Model(), GraphNodes), nodeIds)];
          parts := parts[GraphEdges := edges];
        case Upsert(t, entry) =>
          tables := tables[t := KeyedTables.Upsert(Rows(Model(), t), entry)];
        case Remove(t, key) =>
          if !Removable(t) { return Some(Unsupported); }
          tables := tables[t := Without(Rows(Model(), t), key)];
        case ReplaceActivities(activities, relations) =>
          tables := tables[Activities := activities];
          tables := tables[ActivityRelations := relations];
        case ReplacePart(part, content) =>
          parts := parts[part := content];
        case SetTerminal(ref, live) =>
          parts := parts[TerminalRef := ref];
          if live.Some? { parts := parts[Live := live.value]; }
        case AdvanceCursor(c) =>
          if c < cursor { return Some(CursorRegressed); }
          cursor := c;
        case UnsupportedOperation =>
          return Some(Unsupported);
      }
    }
  }

  /** The input projection is a value and stays as it is; the operations run in a loop on the clone. */
  method ReduceDelta(current: Projection, d: Delta) returns (result: Result<Projection, Error>)
    ensures result == Reduce(current, d)
  {
    var invalid := Envelope(current, d);
    if invalid.Some? { return Err(invalid.value); }
    var next := new WorkingProjection.Clone(current);
    for i := 0 to |d.operations|
      invariant fresh(next)
      invariant ApplyAll(next.Model(), d.operations[i..]) == ApplyAll(current, d.operations)
    {
      var error := next.ApplyOperation(d.operations[i]);
      if error.Some? { return Err(error.value); }
    }
    return Finish(next.Model(), d);
  }
}
