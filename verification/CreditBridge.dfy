/**
 Streaming one response body to an embedded app under credit (surfaces/webui/src/apps/iframeBridge.ts,
 `onPortMessage`, `startRequest` and `waitForCredit`). Each step is one stretch of code between two awaits, or one
 event from outside; body chunks, including empty ones, arrive as the reader likes.
 */
module CreditBridge {

  type Byte = int

  const MAX_SAFE_INTEGER: nat := 0x1F_FFFF_FFFF_FFFF

  datatype Data = Data(sequence: nat, bytes: seq<Byte>)

  /** What a sender waiting for credit does next. */
  datatype Point = FirstRead | Slice(value: seq<Byte>, offset: nat)

  datatype Ending = Ended(sequence: nat) | Cut | Failed

  /**
   `Parked` waits in the waiter list; `Woken` has been resolved and will check again; `Ready` has left `waitForCredit`.
   */
  datatype Phase = Opening | Parked(at: Point) | Woken(at: Point) | Ready(at: Point) | Reading | Closed(ending: Ending)

  /** `granted`, `lost`, `arrived`, `exhausted` and `timedOut` record the run; the other fields are the source's. */
  datatype State = State(phase: Phase, credit: nat, sequence: nat, aborted: bool, disposed: bool, registered: bool,
                         posted: seq<Data>, granted: nat, lost: nat, arrived: seq<Byte>, exhausted: bool,
                             timedOut: bool)

  datatype Step =
    | Grant(bytes: nat) | Cancel | InvalidateAuthorization | Reconnect | Dispose | Deadline
    | Open | OpenFails | Recheck | Proceed | Chunk(value: seq<Byte>) | ReadDone | ReadFails

  function Start(): State {
    State(Opening, 0, 0, false, false, true, [], 0, 0, [], false, false)
  }

  function Min(a: nat, b: nat): nat { if a < b then a else b }

  // ----- Events from outside -----

  function Wake(s: State): State {
    if s.phase.Parked? then s.(phase := Woken(s.phase.at)) else s
  }

  function OnGrant(s: State, bytes: nat): State {
    if bytes == 0 || bytes > MAX_SAFE_INTEGER || !s.registered then s
    else
      var credit := Min(MAX_SAFE_INTEGER, s.credit + bytes);
      Wake(s.(credit := credit, granted := s.granted + bytes, lost := s.lost + (s.credit + bytes - credit)))
  }

  /** Cancelling, and invalidating the authorization: abort and resolve the waiters. */
  function OnAbort(s: State): State {
    if s.registered then Wake(s.(aborted := true)) else s
  }

  function OnReconnect(s: State): State {
    if s.registered then Wake(s.(aborted := true, registered := false)) else s
  }

  function OnDispose(s: State): State {
    if s.registered then Wake(s.(aborted := true, registered := false, disposed := true)) else s.(disposed := true)
  }

  /** The timer aborts without resolving the waiters. */
  function OnDeadline(s: State): State {
    if s.phase.Closed? then s else s.(aborted := true, timedOut := true)
  }

  // ----- The sender -----

  predicate Stopped(s: State) {
    s.aborted || s.disposed
  }

  function AwaitCredit(s: State, at: Point): State {
    s.(phase := if s.credit == 0 && !Stopped(s) then Parked(at) else Ready(at))
  }

  function Close(s: State, ending: Ending): State {
    s.(phase := Closed(ending), registered := false)
  }

  /** After the outer loop: an end message unless the request was aborted. */
  function Finish(s: State): State {
    Close(s, if Stopped(s) then Cut else Ended(s.sequence))
  }

  function ReadNext(s: State): State {
    if s.disposed then Finish(s) else s.(phase := Reading)
  }

  function NextSlice(s: State, value: seq<Byte>, offset: nat): State {
    if offset < |value| && !Stopped(s) then AwaitCredit(s, Slice(value, offset)) else ReadNext(s)
  }

  function PostSlice(s: State, value: seq<Byte>, offset: nat): State
    requires offset < |value|
  {
    var length := Min(s.credit, |value| - offset);
    s.(credit := s.credit - length, sequence := s.sequence + 1,
       posted := s.posted + [Data(s.sequence, value[offset..offset + length])])
  }

  function OnProceed(s: State, at: Point): State {
    match at
    case FirstRead => if Stopped(s) then Finish(s) else s.(phase := Reading)
    case Slice(value, offset) =>
      if Stopped(s) || offset >= |value| then ReadNext(s)
      else NextSlice(PostSlice(s, value, offset), value, offset + Min(s.credit, |value| - offset))
  }

  function OnChunk(s: State, value: seq<Byte>): State {
    NextSlice(s.(arrived := s.arrived + value), value, 0)
  }

  /** Steps that cannot happen in a phase leave the state alone. */
  function Next(s: State, step: Step): State {
    match step
    case Grant(bytes) => OnGrant(s, bytes)
    case Cancel => OnAbort(s)
    case InvalidateAuthorization => OnAbort(s)
    case Reconnect => OnReconnect(s)
    case Dispose => OnDispose(s)
    case Deadline => OnDeadline(s)
    case Open => if s.phase.Opening? then (if s.disposed then Finish(s) else AwaitCredit(s, FirstRead)) else s
    case OpenFails => if s.phase.Opening? then Close(s, Failed) else s
    case Recheck => if s.phase.Woken? then AwaitCredit(s, s.phase.at) else s
    case Proceed => if s.phase.Ready? then OnProceed(s, s.phase.at) else s
    case Chunk(value) => if s.phase.Reading? then OnChunk(s, value) else s
    case ReadDone => if s.phase.Reading? then Finish(s).(exhausted := true) else s
    case ReadFails => if s.phase.Reading? then Close(s, Failed) else s
  }

  function Run(s: State, steps: seq<Step>): State {
    if steps == [] then s else Next(Run(s, steps[..|steps| - 1]), steps[|steps| - 1])
  }

  // ----- The invariant -----

  function Bytes(posted: seq<Data>): seq<Byte> {
    if posted == [] then [] else Bytes(posted[..|posted| - 1]) + posted[|posted| - 1].bytes
  }

  lemma BytesAfter(posted: seq<Data>, d: Data)
    ensures Bytes(posted + [d]) == Bytes(posted) + d.bytes
  {
    assert (posted + [d])[..|posted|] == posted;
  }

  /** Every granted byte of credit is posted, left, or was cut off by the cap. */
  predicate Conserved(s: State) {
    && s.granted == |Bytes(s.posted)| + s.credit + s.lost
    && s.credit <= MAX_SAFE_INTEGER
    && (s.lost > 0 ==> s.granted > MAX_SAFE_INTEGER)
  }

  predicate Numbered(s: State) {
    s.sequence == |s.posted| && forall i :: 0 <= i < |s.posted| ==> s.posted[i].sequence == i && s.posted[i].bytes != []
  }

  /** The arrived bytes that the sender still holds. */
  function Held(p: Phase): seq<Byte> {
    if (p.Parked? || p.Woken? || p.Ready?) && p.at.Slice? && p.at.offset <= |p.at.value| then p.at.value[p.at.offset..]
        else []
  }

  predicate Faithful(s: State) {
    && Bytes(s.posted) <= s.arrived
    && (!Stopped(s) && !s.phase.Closed? ==> Bytes(s.posted) + Held(s.phase) == s.arrived)
    && (s.phase.Closed? && s.phase.ending.Ended? ==>
         s.exhausted && Bytes(s.posted) == s.arrived && s.phase.ending.sequence == |s.posted|)
  }

  predicate WaitsWell(s: State) {
    && (s.phase.Parked? ==> s.credit == 0 && !s.disposed && s.registered && (s.aborted ==> s.timedOut))
    && (s.phase.Ready? ==> s.credit > 0 || Stopped(s))
    && ((s.phase.Parked? || s.phase.Woken? || s.phase.Ready?) && s.phase.at.Slice? ==>
        s.phase.at.offset < |s.phase.at.value|)
    && (s.phase.Closed? ==> !s.registered)
    && (!s.phase.Closed? && !s.registered ==> s.aborted)
  }

  predicate Inv(s: State) {
    Conserved(s) && Numbered(s) && Faithful(s) && WaitsWell(s)
  }

  // ----- Every step keeps it -----

  lemma OutsideKeeps(s: State, step: Step)
    requires Inv(s) && (step.Grant? || step.Cancel? || step.InvalidateAuthorization? || step.Reconnect? ||
        step.Dispose? || step.Deadline?)
    ensures Inv(Next(s, step))
  {
  }

  lemma AwaitKeeps(s: State, at: Point)
    requires Conserved(s) && Numbered(s) && Bytes(s.posted) <= s.arrived && (!s.registered ==> s.aborted)
    requires at.Slice? ==> at.offset < |at.value|
    requires !Stopped(s) ==> Bytes(s.posted) + Held(Ready(at)) == s.arrived
    ensures Inv(AwaitCredit(s, at))
  {
  }

  lemma ReadNextKeeps(s: State)
    requires Conserved(s) && Numbered(s) && Bytes(s.posted) <= s.arrived && (!s.registered ==> s.aborted)
    requires !Stopped(s) ==> Bytes(s.posted) == s.arrived
    ensures Inv(ReadNext(s))
  {
    assert Bytes(s.posted) + [] == Bytes(s.posted);
  }

  /** Before the next slice of a chunk is considered. */
  predicate BetweenSlices(s: State, value: seq<Byte>, offset: nat) {
    && Conserved(s) && Numbered(s) && Bytes(s.posted) <= s.arrived && (!s.registered ==> s.aborted)
    && offset <= |value|
    && (!Stopped(s) ==> Bytes(s.posted) + value[offset..] == s.arrived)
  }

  lemma NextSliceKeeps(s: State, value: seq<Byte>, offset: nat)
    requires BetweenSlices(s, value, offset)
    ensures Inv(NextSlice(s, value, offset))
  {
    if offset < |value| && !Stopped(s) {
      AwaitKeeps(s, Slice(value, offset));
    } else {
      ReadNextKeeps(s);
    }
  }

  lemma PostKeeps(s: State, value: seq<Byte>, offset: nat)
    requires Inv(s) && s.phase == Ready(Slice(value, offset)) && !Stopped(s)
    ensures BetweenSlices(PostSlice(s, value, offset), value, offset + Min(s.credit, |value| - offset))
  {
    var end := offset + Min(s.credit, |value| - offset);
    BytesAfter(s.posted, Data(s.sequence, value[offset..end]));
    PostNumbers(s, value, offset);
    CutsRejoin(Bytes(s.posted), value, offset, end);
  }

  lemma PostNumbers(s: State, value: seq<Byte>, offset: nat)
    requires Numbered(s) && s.credit > 0 && offset < |value|
    ensures Numbered(PostSlice(s, value, offset))
  {
  }

  lemma CutsRejoin(before: seq<Byte>, value: seq<Byte>, i: nat, j: nat)
    requires i <= j <= |value|
    ensures before + value[i..j] + value[j..] == before + value[i..]
  {
  }

  lemma ProceedIsPost(s: State, value: seq<Byte>, offset: nat)
    requires offset < |value| && !Stopped(s)
    ensures OnProceed(s, Slice(value, offset))
         == NextSlice(PostSlice(s, value, offset), value, offset + Min(s.credit, |value| - offset))
  {
  }

  lemma SliceKeeps(s: State, value: seq<Byte>, offset: nat)
    requires Inv(s) && s.phase == Ready(Slice(value, offset)) && !Stopped(s)
    ensures Inv(OnProceed(s, Slice(value, offset)))
  {
    PostKeeps(s, value, offset);
    NextSliceKeeps(PostSlice(s, value, offset), value, offset + Min(s.credit, |value| - offset));
    ProceedIsPost(s, value, offset);
  }

  lemma StoppedKeeps(s: State)
    requires Inv(s) && s.phase.Ready? && Stopped(s)
    ensures Inv(OnProceed(s, s.phase.at))
  {
    if s.phase.at.Slice? { ReadNextKeeps(s); }
  }

  lemma FirstReadKeeps(s: State)
    requires Inv(s) && s.phase == Ready(FirstRead) && !Stopped(s)
    ensures Inv(OnProceed(s, FirstRead))
  {
  }

  lemma ProceedKeeps(s: State)
    requires Inv(s) && s.phase.Ready?
    ensures Inv(OnProceed(s, s.phase.at))
  {
    if Stopped(s) {
      StoppedKeeps(s);
    } else {
      match s.phase.at
      case FirstRead => FirstReadKeeps(s);
      case Slice(value, offset) => SliceKeeps(s, value, offset);
    }
  }

  lemma ChunkKeeps(s: State, value: seq<Byte>)
    requires Inv(s) && s.phase.Reading?
    ensures Inv(OnChunk(s, value))
  {
    assert value[0..] == value;
    NextSliceKeeps(s.(arrived := s.arrived + value), value, 0);
  }

  lemma NextKeeps(s: State, step: Step)
    requires Inv(s)
    ensures Inv(Next(s, step))
  {
    match step
    case Proceed => if s.phase.Ready? { ProceedKeeps(s); }
    case Chunk(value) => if s.phase.Reading? { ChunkKeeps(s, value); }
    case Open => if s.phase.Opening? && !s.disposed { AwaitKeeps(s, FirstRead); }
    case Recheck => if s.phase.Woken? { AwaitKeeps(s, s.phase.at); }
    case OpenFails =>
    case ReadDone =>
    case ReadFails =>
    case Grant(_) => OutsideKeeps(s, step);
    case Cancel => OutsideKeeps(s, step);
    case InvalidateAuthorization => OutsideKeeps(s, step);
    case Reconnect => OutsideKeeps(s, step);
    case Dispose => OutsideKeeps(s, step);
    case Deadline => OutsideKeeps(s, step);
  }

  lemma {:induction false} RunKeeps(s: State, steps: seq<Step>)
    requires Inv(s)
    ensures Inv(Run(s, steps))
  {
    if steps != [] {
      RunKeeps(s, steps[..|steps| - 1]);
      NextKeeps(Run(s, steps[..|steps| - 1]), steps[|steps| - 1]);
    }
  }

  /** Some run leads from the one state to the other. */
  ghost predicate Leads(s: State, s': State) {
    exists steps :: Run(s, steps) == s'
  }

  ghost predicate Reachable(s: State) {
    Leads(Start(), s)
  }

  lemma ReachableHolds(s: State)
    requires Reachable(s)
    ensures Inv(s)
  {
    var steps :| Run(Start(), steps) == s;
    RunKeeps(Start(), steps);
  }

  // ----- What holds in every reachable state -----

  /** Bytes posted and credit left never exceed the credit granted, and add up to it while the cap was not reached. */
  lemma CreditIsConserved(s: State)
    requires Reachable(s)
    ensures |Bytes(s.posted)| + s.credit <= s.granted
    ensures s.granted <= MAX_SAFE_INTEGER ==> |Bytes(s.posted)| + s.credit == s.granted
  {
    ReachableHolds(s);
  }

  /** What was posted is a prefix of the body, cut into non-empty slices numbered 0, 1, 2 and so on. */
  lemma PostedIsANumberedPrefix(s: State)
    requires Reachable(s)
    ensures Bytes(s.posted) <= s.arrived
    ensures forall i :: 0 <= i < |s.posted| ==> s.posted[i].sequence == i && s.posted[i].bytes != []
  {
    ReachableHolds(s);
  }

  /** A sender that reads on and was not stopped has posted everything that arrived. */
  lemma ReadingMeansAllPosted(s: State)
    requires Reachable(s) && s.phase.Reading? && !Stopped(s)
    ensures Bytes(s.posted) == s.arrived
  {
    ReachableHolds(s);
    assert Bytes(s.posted) + [] == Bytes(s.posted);
  }

  /** A parked sender has no credit left: all it was granted is posted, or was cut off by the cap. */
  lemma ParkedMeansNoCredit(s: State)
    requires Reachable(s) && s.phase.Parked?
    ensures s.credit == 0 && s.granted == |Bytes(s.posted)| + s.lost && !s.disposed
  {
    ReachableHolds(s);
  }

  /** Cancelling, disposing, reconnecting and losing authorization leave no sender parked; only the deadline does. */
  lemma OnlyTheDeadlineLeavesASenderParked(s: State)
    requires Reachable(s) && s.phase.Parked? && Stopped(s)
    ensures s.timedOut
  {
    ReachableHolds(s);
  }

  /** A deadline that passes while the sender is parked aborts the request and leaves it parked. */
  lemma DeadlineDoesNotWake(s: State)
    requires s.phase.Parked?
    ensures Next(s, Deadline).phase == s.phase && Next(s, Deadline).aborted
    ensures forall step :: Next(Next(s, Deadline), step).phase != s.phase
              ==> s.registered && (step.Grant? || step.Cancel? || step.InvalidateAuthorization? || step.Reconnect? ||
                  step.Dispose?)
  {
  }

  /** A step that stops a parked sender leaves it parked exactly if that step is the deadline. */
  lemma StopLeavesParkedIff(s: State, step: Step)
    requires Reachable(s) && s.phase.Parked? && !Stopped(s) && Stopped(Next(s, step))
    ensures Next(s, step).phase.Parked? <==> step.Deadline?
  {
    ReachableHolds(s);
  }

  /**
   An end message means that the body was read to its end and all of it was posted, with the count as its sequence.
   */
  lemma EndMeansWholeBody(s: State)
    requires Reachable(s) && s.phase.Closed? && s.phase.ending.Ended?
    ensures s.exhausted && Bytes(s.posted) == s.arrived && s.phase.ending == Ended(|s.posted|)
  {
    ReachableHolds(s);
  }

  /** The end of the body ends the request with an end message exactly when it was not aborted or disposed. */
  lemma EndIsPostedIff(s: State)
    requires Reachable(s) && s.phase.Reading?
    ensures Next(s, ReadDone).phase == Closed(Ended(|s.posted|)) <==> !Stopped(s)
    ensures Next(s, ReadDone).phase == Closed(Cut) <==> Stopped(s)
  {
    ReachableHolds(s);
  }

  lemma StoppedPostsNothing(s: State, step: Step)
    requires Stopped(s)
    ensures var t := Next(s, step);
            Stopped(t) && t.posted == s.posted
            && (t.phase.Closed? && t.phase.ending.Ended? ==> s.phase == t.phase)
  {
  }

  /** After an abort or a disposal no data is posted, and no end message either. */
  lemma {:induction false} NothingFollowsAnAbort(s: State, steps: seq<Step>)
    requires Stopped(s)
    ensures var t := Run(s, steps);
            Stopped(t) && t.posted == s.posted
            && (t.phase.Closed? && t.phase.ending.Ended? ==> s.phase == t.phase)
  {
    if steps != [] {
      NothingFollowsAnAbort(s, steps[..|steps| - 1]);
      StoppedPostsNothing(Run(s, steps[..|steps| - 1]), steps[|steps| - 1]);
    }
  }

  // ----- The request in the source's own form -----

  class ActiveRequest {
    var credit: nat
    var sequence: nat
    var aborted: bool
    var disposed: bool
    var registered: bool
    var phase: Phase
    var posted: seq<Data>
    ghost var granted: nat
    ghost var lost: nat
    ghost var arrived: seq<Byte>
    ghost var exhausted: bool
    ghost var timedOut: bool

    ghost function Model(): State
      reads this
    {
      State(phase, credit, sequence, aborted, disposed, registered, posted, granted, lost, arrived, exhausted, timedOut)
    }

    constructor ()
      ensures Model() == Start()
    {
      credit, sequence, aborted, disposed, registered, phase, posted := 0, 0, false, false, true, Opening, [];
      granted, lost, arrived, exhausted, timedOut := 0, 0, [], false, false;
    }

    method ResolveWaiters()
      modifies `phase
      ensures Model() == Wake(old(Model()))
    {
      if phase.Parked? { phase := Woken(phase.at); }
    }

    method CreditMessage(bytes: nat)
      modifies this
      ensures Model() == OnGrant(old(Model()), bytes)
    {
      if bytes == 0 || bytes > MAX_SAFE_INTEGER { return; }
      if !registered { return; }
      granted, lost := granted + bytes, lost + (credit + bytes - Min(MAX_SAFE_INTEGER, credit + bytes));
      credit := Min(MAX_SAFE_INTEGER, credit + bytes);
      ResolveWaiters();
    }

    method CancelMessage()
      modifies this
      ensures Model() == OnAbort(old(Model()))
    {
      if !registered { return; }
      aborted := true;
      ResolveWaiters();
    }

    method DeadlinePassed()
      modifies this
      ensures Model() == OnDeadline(old(Model()))
    {
      if phase.Closed? { return; }
      aborted, timedOut := true, true;
    }

    method WaitForCredit(at: Point)
      modifies `phase
      ensures Model() == AwaitCredit(old(Model()), at)
    {
      if credit == 0 && !aborted && !disposed { phase := Parked(at); } else { phase := Ready(at); }
    }

    /** Past the outer loop, including the `finally` block. */
    method EndRequest()
      modifies this
      ensures Model() == Finish(old(Model()))
    {
      phase := Closed(if aborted || disposed then Cut else Ended(sequence));
      registered := false;
    }

    method ContinueReading()
      modifies this
      ensures Model() == ReadNext(old(Model()))
    {
      if disposed { EndRequest(); } else { phase := Reading; }
    }

    method ContinueSlices(value: seq<Byte>, offset: nat)
      modifies this
      ensures Model() == NextSlice(old(Model()), value, offset)
    {
      if offset < |value| && !aborted && !disposed { WaitForCredit(Slice(value, offset)); } else { ContinueReading(); }
    }

    method PostData(value: seq<Byte>, offset: nat) returns (length: nat)
      requires offset < |value|
      modifies this
      ensures length == Min(old(credit), |value| - offset)
      ensures Model() == PostSlice(old(Model()), value, offset)
    {
      length := Min(credit, |value| - offset);
      credit := credit - length;
      posted := posted + [Data(sequence, value[offset..offset + length])];
      sequence := sequence + 1;
    }

    /** The code after an `await this.waitForCredit`. */
    method Resume()
      requires phase.Ready?
      modifies this
      ensures Model() == Next(old(Model()), Proceed)
    {
      match phase.at {
        case FirstRead =>
          if aborted || disposed { EndRequest(); } else { phase := Reading; }
        case Slice(value, offset) =>
          if aborted || disposed || offset >= |value| {
            ContinueReading();
          } else {
            var length := PostData(value, offset);
            ContinueSlices(value, offset + length);
          }
      }
    }

    /** The code after `await reader.read()`. */
    method ChunkRead(value: seq<Byte>)
      requires phase.Reading?
      modifies this
      ensures Model() == Next(old(Model()), Chunk(value))
    {
      arrived := arrived + value;
      ContinueSlices(value, 0);
    }

    method BodyEnded()
      requires phase.Reading?
      modifies this
      ensures Model() == Next(old(Model()), ReadDone)
    {
      exhausted := true;
      EndRequest();
    }
  }
}
