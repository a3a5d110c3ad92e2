/**
 What events do to a request, and that credit makes it progress (surfaces/webui/src/apps/iframeBridge.ts): the safety
 statements of `CreditBridge` would hold of a bridge that never posts.
 */
module CreditProgress {
  import opened CreditBridge

  // ----- Events from outside -----

  /** A grant does nothing exactly when it is out of range or too late; otherwise it counts, and nobody stays parked. */
  lemma GrantTakesEffect(s: State, bytes: nat)
    requires Reachable(s)
    ensures Next(s, Grant(bytes)) == s <==> bytes == 0 || bytes > MAX_SAFE_INTEGER || !s.registered
    ensures 0 < bytes <= MAX_SAFE_INTEGER && s.registered ==>
              var s' := Next(s, Grant(bytes));
              && s'.credit == Min(MAX_SAFE_INTEGER, s.credit + bytes) && s'.granted == s.granted + bytes
              && s'.phase == (if s.phase.Parked? then Woken(s.phase.at) else s.phase)
              && s' == s.(credit := s'.credit, granted := s'.granted, lost := s'.lost, phase := s'.phase)
  {
    ReachableHolds(s);
  }

  /** Cancelling and losing authorization stop a request that is still there, and wake its sender. */
  lemma AbortTakesEffect(s: State, step: Step)
    requires step.Cancel? || step.InvalidateAuthorization?
    ensures !s.registered ==> Next(s, step) == s
    ensures s.registered ==> Stopped(Next(s, step)) && !Next(s, step).phase.Parked? && Next(s, step).registered
  {
  }

  /** So do a reconnect and a disposal, after which the request is gone; a disposal is final for the bridge. */
  lemma RemovalTakesEffect(s: State, step: Step)
    requires step.Reconnect? || step.Dispose?
    ensures !Next(s, step).registered && (step.Dispose? ==> Next(s, step).disposed)
    ensures s.registered ==> Next(s, step).aborted && !Next(s, step).phase.Parked?
    ensures !s.registered ==> Next(s, step) == s.(disposed := s.disposed || step.Dispose?)
  {
  }

  /** The deadline stops a request unless it is over. */
  lemma DeadlineTakesEffect(s: State)
    ensures if s.phase.Closed? then Next(s, Deadline) == s
            else Next(s, Deadline) == s.(aborted := true, timedOut := true)
  {
  }

  /** A failed fetch or read closes the request without an end message. */
  lemma FailureCloses(s: State)
    ensures s.phase.Opening? ==> Next(s, OpenFails).phase == Closed(Failed) && !Next(s, OpenFails).registered
    ensures s.phase.Reading? ==> Next(s, ReadFails).phase == Closed(Failed) && !Next(s, ReadFails).registered
  {
  }

  /** A read begins only on a bridge that is not disposed, and the first one only if the request was not aborted. */
  lemma ReadsBeginOnlyUnlessStopped(s: State, step: Step)
    requires !s.phase.Reading? && Next(s, step).phase.Reading?
    ensures step.Proceed? && s.phase.Ready? && !s.disposed && (s.phase.at.FirstRead? ==> !Stopped(s))
  {
  }

  /** Once stopped, a sender that has left its wait is over at its next turn, or reads on to find out at the end. */
  lemma StoppedSendersGiveUp(s: State)
    requires Inv(s) && s.phase.Ready? && Stopped(s)
    ensures Next(s, Proceed).phase == if s.disposed || s.phase.at.FirstRead? then Closed(Cut) else Reading
  {
  }

  /** A response that arrives after the disposal is not read. */
  lemma DisposedResponsesAreNotRead(s: State)
    requires s.phase.Opening?
    ensures Next(s, Open).phase == if s.disposed then Closed(Cut)
                                   else if s.credit == 0 && !s.aborted then Parked(FirstRead) else Ready(FirstRead)
  {
  }

  // ----- One grant to a parked sender -----

  /** The turns that follow a grant. */
  function Instalment(bytes: nat): seq<Step> {
    [Grant(bytes), Recheck, Proceed]
  }

  lemma RunOne(s: State, a: Step)
    ensures Run(s, [a]) == Next(s, a)
  {
    assert [a][..0] == [];
    assert Run(s, []) == s;
  }

  lemma {:induction false} RunAppends(s: State, a: seq<Step>, b: seq<Step>)
    ensures Run(s, a + b) == Run(Run(s, a), b)
    decreases |b|
  {
    if b == [] {
      assert a + b == a;
    } else {
      var init, last := b[..|b| - 1], b[|b| - 1];
      RunAppends(s, a, init);
      assert (a + b)[..|a + b| - 1] == a + init && (a + b)[|a + b| - 1] == last;
    }
  }

  lemma RunTwo(s: State, a: Step, b: Step)
    ensures Run(s, [a, b]) == Next(Next(s, a), b)
  {
    RunOne(s, a);
    RunAppends(s, [a], [b]);
    RunOne(Next(s, a), b);
    assert [a] + [b] == [a, b];
  }

  lemma RunThree(s: State, a: Step, b: Step, c: Step)
    ensures Run(s, [a, b, c]) == Next(Next(Next(s, a), b), c)
  {
    RunTwo(s, a, b);
    RunAppends(s, [a, b], [c]);
    RunOne(Next(Next(s, a), b), c);
    assert [a, b] + [c] == [a, b, c];
  }

  /** From an unstopped sender before its first read: the read begins. */
  lemma GrantStartsTheFirstRead(s: State, bytes: nat)
    requires Inv(s) && s.phase == Parked(FirstRead) && !Stopped(s) && 0 < bytes <= MAX_SAFE_INTEGER
    ensures var s' := Run(s, Instalment(bytes));
            Inv(s') && s'.phase == Reading && s'.credit == bytes && s'.posted == s.posted && !Stopped(s')
            && s'.arrived == s.arrived
  {
    RunThree(s, Grant(bytes), Recheck, Proceed);
    RunKeeps(s, Instalment(bytes));
  }

  /** `s'` is `s` with `n` more bytes of the chunk posted; the sender waits for credit for the rest, or reads on. */
  predicate PostedMore(s: State, value: seq<Byte>, offset: nat, n: nat, s': State)
    requires offset + n <= |value|
  {
    && !Stopped(s') && s'.registered == s.registered && s'.arrived == s.arrived
    && s'.posted == s.posted + [Data(|s.posted|, value[offset..offset + n])]
    && s'.phase == if offset + n < |value| then Parked(Slice(value, offset + n)) else Reading
  }

  lemma ProceedPosts(s: State, value: seq<Byte>, offset: nat)
    requires s.phase == Ready(Slice(value, offset)) && !Stopped(s) && s.sequence == |s.posted|
    requires offset < |value| && s.credit > 0
    ensures var n := Min(s.credit, |value| - offset);
            PostedMore(s, value, offset, n, Next(s, Proceed)) && Next(s, Proceed).credit == s.credit - n
  {
    ProceedIsPost(s, value, offset);
  }

  lemma GrantMakesReady(s: State, at: Point, bytes: nat)
    requires s.phase == Parked(at) && s.credit == 0 && s.registered && 0 < bytes <= MAX_SAFE_INTEGER
    ensures Next(Next(s, Grant(bytes)), Recheck)
         == s.(credit := bytes, granted := s.granted + bytes, phase := Ready(at))
  {
  }

  lemma InvFacts(s: State)
    requires Inv(s)
    ensures s.sequence == |s.posted|
    ensures s.phase.Parked? ==> s.credit == 0 && (s.registered || s.aborted)
    ensures s.phase.Parked? && s.phase.at.Slice? ==> s.phase.at.offset < |s.phase.at.value|
  {
  }

  /** From an unstopped sender inside a chunk: exactly the next `bytes` bytes of the chunk are posted, or its rest. */
  lemma GrantPostsTheNextSlice(s: State, value: seq<Byte>, offset: nat, bytes: nat)
    requires Inv(s) && s.phase == Parked(Slice(value, offset)) && !Stopped(s) && 0 < bytes <= MAX_SAFE_INTEGER
    ensures offset < |value|
    ensures var s', n := Run(s, Instalment(bytes)), Min(bytes, |value| - offset);
            Inv(s') && PostedMore(s, value, offset, n, s') && s'.credit == bytes - n
  {
    InvFacts(s);
    RunThree(s, Grant(bytes), Recheck, Proceed);
    RunKeeps(s, Instalment(bytes));
    GrantMakesReady(s, Slice(value, offset), bytes);
    var ready := s.(credit := bytes, granted := s.granted + bytes, phase := Ready(Slice(value, offset)));
    ProceedPosts(ready, value, offset);
  }

  // ----- Credit in instalments -----

  function Sum(grants: seq<nat>): nat {
    if grants == [] then 0 else grants[0] + Sum(grants[1..])
  }

  function Instalments(grants: seq<nat>): seq<Step> {
    if grants == [] then [] else Instalment(grants[0]) + Instalments(grants[1..])
  }

  predicate InRange(grants: seq<nat>) {
    forall i :: 0 <= i < |grants| ==> 0 < grants[i] <= MAX_SAFE_INTEGER
  }

  /** Both states read on, unstopped, and the second has posted `more` in addition. */
  predicate ReadsOn(s: State, s': State, more: seq<Byte>) {
    && Inv(s') && s'.phase == Reading && !Stopped(s') && s'.registered
    && Bytes(s'.posted) == Bytes(s.posted) + more
  }

  lemma FirstInstalment(s: State, grants: seq<nat>)
    requires grants != []
    ensures Run(s, Instalments(grants)) == Run(Run(s, Instalment(grants[0])), Instalments(grants[1..]))
  {
    RunAppends(s, Instalment(grants[0]), Instalments(grants[1..]));
  }

  /** A reader keeps the credit for later. */
  lemma GrantToAReader(s: State, bytes: nat)
    requires Inv(s) && s.phase == Reading && !Stopped(s) && s.registered
    ensures var s' := Run(s, Instalment(bytes));
            Inv(s') && s'.phase == Reading && !Stopped(s') && s'.registered && s'.posted == s.posted
            && s'.arrived == s.arrived
  {
    RunThree(s, Grant(bytes), Recheck, Proceed);
    RunKeeps(s, Instalment(bytes));
  }

  lemma {:induction false} GrantsToAReader(s: State, grants: seq<nat>)
    requires Inv(s) && s.phase == Reading && !Stopped(s) && s.registered
    ensures var s' := Run(s, Instalments(grants)); ReadsOn(s, s', []) && s'.arrived == s.arrived
    decreases |grants|
  {
    assert Bytes(s.posted) + [] == Bytes(s.posted);
    if grants != [] {
      FirstInstalment(s, grants);
      GrantToAReader(s, grants[0]);
      GrantsToAReader(Run(s, Instalment(grants[0])), grants[1..]);
    }
  }

  /** Enough credit, in any instalments, posts the rest of the chunk, and the sender reads on. */
  lemma {:induction false} EnoughCreditPostsTheChunk(s: State, value: seq<Byte>, offset: nat, grants: seq<nat>)
    requires Inv(s) && s.phase == Parked(Slice(value, offset)) && !Stopped(s)
    requires InRange(grants) && offset + Sum(grants) >= |value|
    ensures offset <= |value|
    ensures var s' := Run(s, Instalments(grants)); ReadsOn(s, s', value[offset..]) && s'.arrived == s.arrived
    decreases |grants|
  {
    InvFacts(s);
    var s1, n := Run(s, Instalment(grants[0])), Min(grants[0], |value| - offset);
    FirstInstalment(s, grants);
    GrantPostsTheNextSlice(s, value, offset, grants[0]);
    BytesOfMore(s, value, offset, n, s1);
    SliceRejoins(Bytes(s.posted), value, offset, n);
    if offset + n < |value| {
      EnoughCreditPostsTheChunk(s1, value, offset + n, grants[1..]);
    } else {
      GrantsToAReader(s1, grants[1..]);
    }
  }

  lemma BytesOfMore(s: State, value: seq<Byte>, offset: nat, n: nat, s': State)
    requires offset + n <= |value| && PostedMore(s, value, offset, n, s')
    ensures Bytes(s'.posted) == Bytes(s.posted) + value[offset..offset + n]
  {
    BytesAfter(s.posted, Data(|s.posted|, value[offset..offset + n]));
  }

  lemma SliceRejoins(before: seq<Byte>, value: seq<Byte>, offset: nat, n: nat)
    requires offset + n <= |value|
    ensures before + value[offset..offset + n] + value[offset + n..] == before + value[offset..]
    ensures offset + n == |value| ==> before + value[offset..offset + n] + [] == before + value[offset..]
  {
  }

  // ----- A chunk, and the whole body -----

  /** The turns from one chunk's arrival on. */
  function ChunkTurns(value: seq<Byte>, grants: seq<nat>): seq<Step> {
    [Chunk(value), Proceed] + Instalments(grants)
  }

  /** What credit there is goes to a new chunk at once. */
  lemma ChunkStarts(s: State, value: seq<Byte>)
    requires Inv(s) && s.phase == Reading && !Stopped(s) && s.registered
    ensures var s', n := Run(s, [Chunk(value), Proceed]), Min(s.credit, |value|);
            && Inv(s') && !Stopped(s') && s'.registered && s'.arrived == s.arrived + value
            && Bytes(s'.posted) == Bytes(s.posted) + value[..n]
            && s'.phase == if n < |value| then Parked(Slice(value, n)) else Reading
  {
    RunTwo(s, Chunk(value), Proceed);
    RunKeeps(s, [Chunk(value), Proceed]);
    InvFacts(s);
    ChunkArrives(s, value);
    if Min(s.credit, |value|) > 0 {
      ChunkPostsAtOnce(s, Next(s, Chunk(value)), value);
    } else {
      assert value[..0] == [] && Bytes(s.posted) + [] == Bytes(s.posted);
    }
  }

  lemma ChunkArrives(s: State, value: seq<Byte>)
    requires s.phase == Reading && !Stopped(s)
    ensures Next(s, Chunk(value))
         == s.(arrived := s.arrived + value,
               phase := if value == [] then Reading
                        else if s.credit == 0 then Parked(Slice(value, 0)) else Ready(Slice(value, 0)))
  {
  }

  lemma ChunkPostsAtOnce(s: State, s1: State, value: seq<Byte>)
    requires !Stopped(s) && s.sequence == |s.posted| && s.credit > 0 && value != []
    requires s1 == s.(arrived := s.arrived + value, phase := Ready(Slice(value, 0)))
    ensures var s', n := Next(s1, Proceed), Min(s.credit, |value|);
            && !Stopped(s') && s'.registered == s.registered && s'.arrived == s.arrived + value
            && Bytes(s'.posted) == Bytes(s.posted) + value[..n]
            && s'.phase == if n < |value| then Parked(Slice(value, n)) else Reading
  {
    var n := Min(s.credit, |value|);
    ProceedPosts(s1, value, 0);
    BytesOfMore(s1, value, 0, n, Next(s1, Proceed));
    assert value[0..n] == value[..n];
  }

  /** With enough credit a chunk that arrives is posted whole, and the sender reads on. */
  lemma ChunkIsPosted(s: State, value: seq<Byte>, grants: seq<nat>)
    requires Inv(s) && s.phase == Reading && !Stopped(s) && s.registered
    requires InRange(grants) && s.credit + Sum(grants) >= |value|
    ensures var s' := Run(s, ChunkTurns(value, grants)); ReadsOn(s, s', value) && s'.arrived == s.arrived + value
  {
    var s1, n := Run(s, [Chunk(value), Proceed]), Min(s.credit, |value|);
    RunAppends(s, [Chunk(value), Proceed], Instalments(grants));
    ChunkStarts(s, value);
    Halves(Bytes(s.posted), value, n);
    if n < |value| {
      EnoughCreditPostsTheChunk(s1, value, n, grants);
    } else {
      GrantsToAReader(s1, grants);
    }
  }

  lemma Halves(before: seq<Byte>, value: seq<Byte>, n: nat)
    requires n <= |value|
    ensures before + value[..n] + value[n..] == before + value
    ensures n == |value| ==> before + value[..n] + [] == before + value
  {
  }

  function Concat(chunks: seq<seq<Byte>>): seq<Byte> {
    if chunks == [] then [] else chunks[0] + Concat(chunks[1..])
  }

  function BodyTurns(chunks: seq<seq<Byte>>, grants: seq<seq<nat>>): seq<Step>
    requires |grants| == |chunks|
  {
    if chunks == [] then [] else ChunkTurns(chunks[0], grants[0]) + BodyTurns(chunks[1..], grants[1..])
  }

  predicate Enough(chunks: seq<seq<Byte>>, grants: seq<seq<nat>>) {
    |grants| == |chunks| && forall i :: 0 <= i < |chunks| ==> InRange(grants[i]) && Sum(grants[i]) >= |chunks[i]|
  }

  lemma {:induction false} ChunksArePosted(s: State, chunks: seq<seq<Byte>>, grants: seq<seq<nat>>)
    requires Inv(s) && s.phase == Reading && !Stopped(s) && s.registered && Enough(chunks, grants)
    ensures var s' := Run(s, BodyTurns(chunks, grants));
            ReadsOn(s, s', Concat(chunks)) && s'.arrived == s.arrived + Concat(chunks)
    decreases |chunks|
  {
    if chunks == [] {
      assert Bytes(s.posted) + [] == Bytes(s.posted) && s.arrived + [] == s.arrived;
    } else {
      var s1 := Run(s, ChunkTurns(chunks[0], grants[0]));
      RunAppends(s, ChunkTurns(chunks[0], grants[0]), BodyTurns(chunks[1..], grants[1..]));
      ChunkIsPosted(s, chunks[0], grants[0]);
      ChunksArePosted(s1, chunks[1..], grants[1..]);
      Regroup(Bytes(s.posted), chunks[0], Concat(chunks[1..]));
      Regroup(s.arrived, chunks[0], Concat(chunks[1..]));
    }
  }

  lemma Regroup(a: seq<Byte>, b: seq<Byte>, c: seq<Byte>)
    ensures (a + b) + c == a + (b + c)
  {
  }

  /** All turns of a request that is granted enough and never stopped. */
  function RequestTurns(first: nat, chunks: seq<seq<Byte>>, grants: seq<seq<nat>>): seq<Step>
    requires |grants| == |chunks|
  {
    ([Open] + Instalment(first)) + BodyTurns(chunks, grants) + [ReadDone]
  }

  lemma RequestOpens(first: nat)
    requires 0 < first <= MAX_SAFE_INTEGER
    ensures var s := Run(Start(), [Open] + Instalment(first));
            Inv(s) && s.phase == Reading && !Stopped(s) && s.registered && s.posted == [] && s.arrived == []
  {
    RunOne(Start(), Open);
    RunAppends(Start(), [Open], Instalment(first));
    GrantStartsTheFirstRead(Next(Start(), Open), first);
    RunThree(Next(Start(), Open), Grant(first), Recheck, Proceed);
  }

  /**
   Any body, in any chunks, is posted whole and ends with an end message, whatever the instalments of its credit, once
   they add up to each chunk's length.
   */
  lemma EnoughCreditSendsTheBody(first: nat, chunks: seq<seq<Byte>>, grants: seq<seq<nat>>)
    requires 0 < first <= MAX_SAFE_INTEGER && Enough(chunks, grants)
    ensures var s := Run(Start(), RequestTurns(first, chunks, grants));
            s.phase == Closed(Ended(|s.posted|)) && Bytes(s.posted) == s.arrived == Concat(chunks)
  {
    var begun := Run(Start(), [Open] + Instalment(first));
    var sent := Run(begun, BodyTurns(chunks, grants));
    RequestOpens(first);
    ChunksArePosted(begun, chunks, grants);
    RunAppends(Start(), [Open] + Instalment(first), BodyTurns(chunks, grants));
    RunAppends(Start(), ([Open] + Instalment(first)) + BodyTurns(chunks, grants), [ReadDone]);
    BodyEnds(sent);
    assert [] + Concat(chunks) == Concat(chunks);
  }

  lemma BodyEnds(s: State)
    requires Inv(s) && s.phase == Reading && !Stopped(s)
    ensures var s' := Run(s, [ReadDone]);
            s'.phase == Closed(Ended(|s'.posted|)) && s'.posted == s.posted && s'.arrived == s.arrived
  {
    RunOne(s, ReadDone);
    InvFacts(s);
  }
}
