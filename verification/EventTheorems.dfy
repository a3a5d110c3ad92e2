/** What the event log and its streams promise over every run in which the sequence counter has not saturated. */
module EventTheorems {
  import opened Wrappers
  import opened EventReplay

  /** The replay buffer is exactly the published events above the acknowledged one, in order and bounded. */
  lemma BufferIsTheUnacknowledgedTail(s: Server)
    requires Reachable(s) && s.replay.next < U64_MAX
    ensures s.replay.acked < s.replay.next == |s.published| + 1
    ensures Numbered(s.published)
    ensures s.replay.events == s.published[s.replay.acked..] && |s.replay.events| <= REPLAY_CAPACITY
  {
    ReachableHolds(s);
  }

  /** In every run a stream delivers genuine publications, strictly increasing and above `after`. */
  lemma StreamsDeliverInOrder(s: Server, id: nat)
    requires Reachable(s) && s.replay.next < U64_MAX
    requires id in s.streams && s.streams[id].Streaming?
    ensures Increasing(s.streams[id].delivered, s.streams[id].after) && Genuine(s.streams[id].delivered, s.published)
  {
    ReachableHolds(s);
    assert StreamOk(s, s.streams[id]);
    DeliveredStartsTheOutput(s.streams[id], s.published);
  }

  lemma DeliveredStartsTheOutput(st: Stream, published: seq<Envelope>)
    requires st.Streaming? && Increasing(Output(st), st.after) && Genuine(Output(st), published)
    ensures Increasing(st.delivered, st.after) && Genuine(st.delivered, published)
  {
    assert forall i :: 0 <= i < |st.delivered| ==> Output(st)[i] == st.delivered[i];
  }

  /**
   As long as the receiver has not lagged, the output is a run of consecutive publications that starts no later than
   it should: no event retained above `after` at the snapshot, or published later, is missing before the last one, and
   none is missing that the receiver has passed.
   */
  lemma LagFreeStreamsMissNothing(s: Server, id: nat, q: nat)
    requires Reachable(s) && s.replay.next < U64_MAX
    requires id in s.streams && s.streams[id].Streaming? && !s.streams[id].lagged
    ensures var st := s.streams[id];
            && (Output(st) != [] ==> |Output(st)| <= st.last <= |s.published|
                                     && Output(st) == s.published[st.last - |Output(st)|..st.last]
                                     && st.last - |Output(st)| <= Max(st.after, st.floor))
            && (Max(st.after, st.floor) < q <= Max(st.pos, st.last) ==>
                  q <= |s.published| && s.published[q - 1] in Output(st))
            && (st.pending == [] ==> Output(st) == st.delivered)
  {
    ReachableHolds(s);
    assert StreamOk(s, s.streams[id]);
    var st := s.streams[id];
    if Bound(st) < q <= Max(st.pos, st.last) { GapFreeHolds(s.published, st, q); }
  }

  lemma GapFreeHolds(published: seq<Envelope>, st: Stream, q: nat)
    requires st.Streaming? && GapFree(published, st) && Bound(st) < q <= Max(st.pos, st.last)
    requires Output(st) == [] ==> st.last == st.after
    ensures q <= |published| && published[q - 1] in Output(st)
  {
    var out := Output(st);
    assert out != [];
    assert out[q - 1 - (st.last - |out|)] == published[q - 1];
  }

  // ----- The Lagged step -----

  /** What the Lagged arm delivers: the first retained event above the last delivered one, if there is one. */
  lemma LaggedRecoveryDelivers(s: Server, id: nat)
    requires Reachable(s) && s.replay.next < U64_MAX
    requires id in s.streams && s.streams[id].Streaming?
    requires s.streams[id].recovering
    ensures var st := s.streams[id];
            var st' := Next(s, Recover(id)).streams[id];
            var from := Max(s.replay.acked, st.last);
            if from < |s.published| then st'.delivered == st.delivered + [s.published[from]] && st'.last == from + 1
            else st'.delivered == st.delivered && st'.last == st.last
  {
    ReachableHolds(s);
    assert StreamOk(s, s.streams[id]);
    FirstAboveCuts(s.published, s.replay.acked, s.streams[id].last);
  }

  function Receives(s: Server, st: Stream, n: nat): (st': Stream)
    requires st.Streaming?
    ensures st'.Streaming?
    decreases n
  {
    if n == 0 then st else Receives(s, Receiving(s, st), n - 1)
  }

  /** The next live delivery of a receiver that is not lagging, however many old entries it has to skip first. */
  lemma {:induction false} NextLiveDelivery(s: Server, st: Stream)
    requires LogOk(s) && st.Streaming? && Oldest(s) <= st.pos && Max(st.pos, st.last) < |s.sent|
    ensures var next := Max(st.pos, st.last);
            var st' := Receives(s, st, next - st.pos + 1);
            st'.delivered == st.delivered + [s.published[next]] && st'.last == next + 1
    decreases st.last - st.pos
  {
    var st1 := Receiving(s, st);
    assert s.sent[st.pos] == s.published[st.pos] && s.published[st.pos].sequence == st.pos + 1;
    if st.pos < st.last {
      assert st1 == st.(pos := st.pos + 1);
      NextLiveDelivery(s, st1);
    } else {
      assert Receives(s, st1, 0) == st1;
    }
  }

  /**
   A lagging stream recovers one event from the buffer and then resumes from the ring at `pos`: no event is
   skipped if and only if nothing undelivered has been acknowledged and at most one undelivered event has left the ring.
   */
  lemma LaggedResumptionSkipsNothingIff(s: Server, st: Stream)
    requires LogOk(s) && st.Streaming? && st.recovering && Oldest(s) <= st.pos
    requires Max(s.replay.acked, st.last) < |s.published|
    requires Max(st.pos, Max(s.replay.acked, st.last) + 1) < |s.sent|
    ensures var recovered := Recovering(s, st);
            var resumed := Receives(s, recovered, Max(st.pos, recovered.last) - st.pos + 1);
            recovered.last == st.last + 1 && resumed.last == recovered.last + 1
            <==> s.replay.acked <= st.last && st.pos <= st.last + 1
  {
    FirstAboveCuts(s.published, s.replay.acked, st.last);
    NextLiveDelivery(s, Recovering(s, st));
  }

  function Numbers(n: nat): seq<Envelope> {
    if n == 0 then [] else Numbers(n - 1) + [Envelope(n, 0)]
  }

  /** One stream has opened and received nothing, and `n` events were published since. */
  function Waiting(n: nat): Server {
    Server(Replay(n + 1, 0, Numbers(n)), Idle, false, 0, Numbers(n), Numbers(n),
           map[0 := Streaming(0, 0, 0, [], [], 0, false, false)])
  }

  lemma {:induction false} NumbersAre(n: nat)
    ensures |Numbers(n)| == n && forall i :: 0 <= i < n ==> Numbers(n)[i] == Envelope(i + 1, 0)
  {
    if n > 0 { NumbersAre(n - 1); }
  }

  lemma {:induction false} WaitingIsReachable(n: nat)
    requires n <= REPLAY_CAPACITY
    ensures Reachable(Waiting(n))
  {
    if n == 0 {
      assert Run(Init, []) == Init;
      ReachableExtends(Init, Subscribe(0, 0));
      var s := Next(Init, Subscribe(0, 0));
      ReachableExtends(s, Snapshot(0));
      assert Next(s, Snapshot(0)).streams == Waiting(0).streams;
    } else {
      WaitingIsReachable(n - 1);
      PublishOne(n - 1);
    }
  }

  lemma PublishOne(n: nat)
    requires Reachable(Waiting(n)) && n < REPLAY_CAPACITY
    ensures Reachable(Waiting(n + 1))
  {
    var s := Waiting(n);
    NumbersAre(n);
    ReachableExtends(s, Receive(0));
    var locking := s.(owner := Locking(0));
    assert Next(s, Receive(0)) == locking;
    ReachableExtends(locking, OwnerLock);
    var sending := Waiting(n + 1).(owner := Sending(Envelope(n + 1, 0)), sent := Numbers(n));
    assert Trim(Numbers(n), 0) == Numbers(n);
    assert Next(locking, OwnerLock) == sending;
    ReachableExtends(sending, OwnerSend);
    assert Next(sending, OwnerSend) == Waiting(n + 1);
  }

  /** A reachable server whose stream, two events behind the ring, gets the first event and then the third. */
  lemma LagSkipsAnEvent() returns (s: Server)
    ensures Reachable(s) && 0 in s.streams && s.streams[0].Streaming? && s.streams[0].delivered == []
    ensures |s.published| == BROADCAST_CAPACITY + 2
    ensures var after := Next(Next(Next(s, Recv(0)), Recover(0)), Recv(0));
            0 in after.streams && after.streams[0].Streaming?
            && after.streams[0].delivered == [s.published[0], s.published[2]]
  {
    s := Waiting(BROADCAST_CAPACITY + 2);
    WaitingIsReachable(BROADCAST_CAPACITY + 2);
    NumbersAre(BROADCAST_CAPACITY + 2);
    var behind := Streaming(0, 2, 0, [], [], 0, true, true);
    var recovered := Streaming(0, 2, 0, [s.published[0]], [], 1, false, true);
    assert Receiving(s, s.streams[0]) == behind;
    assert Next(s, Recv(0)) == s.(streams := s.streams[0 := behind]);
    assert FirstAbove(s.replay.events, 0) == Some(s.published[0]);
    assert Recovering(s, behind) == recovered;
    assert s.streams[0 := behind][0 := recovered] == s.streams[0 := recovered];
  }

  // ----- Wakeups -----

  /**
   No lost wakeup: an owner parked with a frame, no stored permit and no acknowledgement about to notify
   faces a buffer full of unacknowledged events.
   */
  lemma NoLostWakeup(s: Server)
    requires Reachable(s) && s.replay.next < U64_MAX
    requires s.owner.Parked? && !s.permit && s.waking == 0
    ensures |s.replay.events| == REPLAY_CAPACITY
    ensures s.replay.next == s.replay.acked + REPLAY_CAPACITY + 1
  {
    ReachableHolds(s);
  }

  /** The turns that take a waiting owner back to the lock. */
  function WakeUp(s: Server): seq<Step> {
    if s.owner.Parked? then [AckNotify, OwnerLock]
    else if s.permit then [OwnerPark, OwnerLock]
    else [AckNotify, OwnerPark, OwnerLock]
  }

  /** In every run, once there is room, a waiting owner publishes its frame by turns that are already due. */
  lemma RoomIsAlwaysNoticed(s: Server)
    requires Reachable(s) && s.replay.next < U64_MAX
    requires s.owner.Parked? || s.owner.GivingUp?
    requires |s.replay.events| < REPLAY_CAPACITY
    ensures Run(s, WakeUp(s)).published == s.published + [Envelope(s.replay.next, s.owner.frame)]
  {
    ReachableHolds(s);
    TrimCuts(s.published, s.replay.acked, s.replay.acked);
    Unfold2(s, WakeUp(s));
  }

  lemma Unfold2(s: Server, steps: seq<Step>)
    ensures |steps| == 2 ==> Run(s, steps) == Next(Next(s, steps[0]), steps[1])
    ensures |steps| == 3 ==> Run(s, steps) == Next(Next(Next(s, steps[0]), steps[1]), steps[2])
    decreases |steps|
  {
    if |steps| == 2 {
      assert Run(Next(s, steps[0]), steps[1..]) == Next(Next(s, steps[0]), steps[1]);
    } else if |steps| == 3 {
      Unfold2(Next(s, steps[0]), steps[1..]);
    }
  }

  /** The turns of an owner that takes in a frame while there is room. */
  function Publishing(frame: int): seq<Step> {
    [Receive(frame), OwnerLock, OwnerSend]
  }

  /** From any state with an idle owner and room, a frame is published under the next sequence, and then broadcast. */
  lemma FramesArePublished(s: Server, frame: int)
    requires Reachable(s) && s.replay.next < U64_MAX && s.owner.Idle? && |s.replay.events| < REPLAY_CAPACITY
    ensures var e, s' := Envelope(|s.published| + 1, frame), Run(s, Publishing(frame));
            && s'.published == s.published + [e] && s'.sent == s.sent + [e] && s'.owner.Idle?
            && s'.replay.acked == s.replay.acked && s'.replay.next == |s'.published| + 1
            && s'.replay.events == s.replay.events + [e]
  {
    ReachableHolds(s);
    TrimCuts(s.published, s.replay.acked, s.replay.acked);
    Unfold2(s, Publishing(frame));
  }

  // ----- Acknowledgements -----

  /**
   An acknowledgement of something not yet published changes nothing; any other one raises the acknowledged value, if it
   is higher, and leaves exactly what was published above it in the buffer.
   */
  lemma AcknowledgementTakesEffect(s: Server, q: nat)
    requires Reachable(s) && s.replay.next < U64_MAX
    ensures Next(s, AckLock(q)) == s <==> q > |s.published|
    ensures q <= |s.published| ==>
              var acked := Max(s.replay.acked, q);
              acked <= |s.published| &&
              Next(s, AckLock(q)) == s.(replay := Replay(|s.published| + 1, acked, s.published[acked..]),
                                        waking := s.waking + 1)
  {
    ReachableHolds(s);
    if q <= |s.published| { TrimCuts(s.published, s.replay.acked, Max(s.replay.acked, q)); }
  }

  /** Each pending notification is used once: it sends a parked owner back to the lock, or is kept for its next wait. */
  lemma NotificationIsUsedOnce(s: Server)
    requires s.waking > 0
    ensures Next(s, AckNotify)
         == if s.owner.Parked? then s.(waking := s.waking - 1, owner := Locking(s.owner.frame))
            else s.(waking := s.waking - 1, permit := true)
  {
  }

  /** The turns from an acknowledgement to the broadcast of the frame that waited for it. */
  function Draining(q: nat): seq<Step> {
    [AckLock(q), AckNotify, OwnerLock, OwnerSend]
  }

  /** Whatever the log: an owner with a notification due and room in front publishes its frame. */
  lemma DueTurnsPublish(s: Server, turns: seq<Step>)
    requires s.waking > 0 && s.owner.Parked? && turns == [AckNotify, OwnerLock, OwnerSend]
    requires Trim(s.replay.events, s.replay.acked) == s.replay.events && |s.replay.events| < REPLAY_CAPACITY
    ensures var e, s' := Envelope(s.replay.next, s.owner.frame), Run(s, turns);
            && s'.published == s.published + [e] && s'.sent == s.sent + [e] && s'.owner.Idle?
            && s'.replay.acked == s.replay.acked && s'.replay.events == s.replay.events + [e]
  {
    Unfold2(s, turns);
  }

  lemma DrainingPublishes(s: Server, q: nat, tail: seq<Envelope>, turns: seq<Step>)
    requires s.owner.Parked? && turns == Draining(q) && |tail| < REPLAY_CAPACITY && Trim(tail, q) == tail
    requires Next(s, AckLock(q)) == s.(replay := Replay(|s.published| + 1, q, tail), waking := s.waking + 1)
    ensures var e, s' := Envelope(|s.published| + 1, s.owner.frame), Run(s, turns);
            && s'.published == s.published + [e] && s'.sent == s.sent + [e] && s'.owner.Idle?
            && s'.replay.acked == q && s'.replay.events == tail + [e]
  {
    DueTurnsPublish(Next(s, AckLock(q)), turns[1..]);
  }

  lemma FullBufferIsTheTail(s: Server, q: nat)
    requires Reachable(s) && s.replay.next < U64_MAX && |s.replay.events| == REPLAY_CAPACITY && q <= |s.published|
    ensures |s.published| == s.replay.acked + REPLAY_CAPACITY && Trim(s.published[q..], q) == s.published[q..]
  {
    ReachableHolds(s);
    TrimCuts(s.published, q, q);
  }

  /** With a full buffer and the owner parked, acknowledging one more event lets the waiting frame out. */
  lemma AcknowledgingLetsTheOwnerGoOn(s: Server, q: nat)
    requires Reachable(s) && s.replay.next < U64_MAX && s.owner.Parked? && |s.replay.events| == REPLAY_CAPACITY
    requires s.replay.acked < q <= |s.published|
    ensures var e, s' := Envelope(|s.published| + 1, s.owner.frame), Run(s, Draining(q));
            && s'.published == s.published + [e] && s'.sent == s.sent + [e] && s'.owner.Idle?
            && s'.replay.acked == q && s'.replay.events == s.published[q..] + [e]
  {
    FullBufferIsTheTail(s, q);
    AcknowledgementTakesEffect(s, q);
    DrainingPublishes(s, q, s.published[q..], Draining(q));
  }

  // ----- The snapshot reaches the client -----

  /** As many turns as events are pending deliver them all, in order. */
  lemma {:induction false} PendingIsDelivered(s: Server, id: nat)
    requires id in s.streams && s.streams[id].Streaming?
    ensures var st, s' := s.streams[id], Run(s, seq(|s.streams[id].pending|, i => Emit(id)));
            id in s'.streams && s'.streams[id] == st.(delivered := st.delivered + st.pending, pending := [])
    decreases |s.streams[id].pending|
  {
    var st := s.streams[id];
    var steps := seq(|st.pending|, i => Emit(id));
    if st.pending == [] {
      assert st.delivered + [] == st.delivered && steps == [];
    } else {
      var s1 := Next(s, Emit(id));
      assert steps[1..] == seq(|st.pending| - 1, i => Emit(id)) && steps[0] == Emit(id);
      PendingIsDelivered(s1, id);
      assert (st.delivered + [st.pending[0]]) + st.pending[1..] == st.delivered + st.pending;
    }
  }

  // ----- Saturation -----

  /** At the end of the counter the numbering stops being unique: two appends share a sequence. */
  lemma SaturatedSequencesRepeat(frame: int, frame': int)
    ensures var (r1, e1) := Append(Replay(U64_MAX, U64_MAX - 1, []), frame);
            var (_, e2) := Append(r1, frame');
            e1.Some? && e2.Some? && e1.value.sequence == e2.value.sequence == U64_MAX
  {
  }
}
