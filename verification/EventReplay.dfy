/**
 The replayable event log of the managed sidecar (crates/edge-adapters/src/managed_server.rs): one owner task,
 any number of acknowledging requests and of event streams. Every lock region, notification, broadcast send and
 broadcast receive is a step of its own.
 */
module EventReplay {
  import opened Wrappers

  const REPLAY_CAPACITY: nat := 4096
  const BROADCAST_CAPACITY: nat := 256
  const U64_MAX: nat := 0xFFFF_FFFF_FFFF_FFFF

  datatype Envelope = Envelope(sequence: nat, frame: int)

  datatype Replay = Replay(next: nat, acked: nat, events: seq<Envelope>)

  // ----- The lock regions -----

  /** Pops acknowledged events off the front. */
  function Trim(events: seq<Envelope>, acked: nat): seq<Envelope> {
    if events != [] && events[0].sequence <= acked then Trim(events[1..], acked) else events
  }

  function SaturatingSucc(n: nat): nat {
    if n < U64_MAX then n + 1 else U64_MAX
  }

  /** The owner's lock region when there is room. */
  function Append(r: Replay, frame: int): (Replay, Option<Envelope>) {
    var events := Trim(r.events, r.acked);
    if |events| < REPLAY_CAPACITY then
      var e := Envelope(r.next, frame);
      (Replay(SaturatingSucc(r.next), r.acked, events + [e]), Some(e))
    else (r.(events := events), None)
  }

  /** The lock region of `ack_events`; out-of-range acknowledgements are refused. */
  function Ack(r: Replay, sequence: nat): Option<Replay> {
    if sequence >= r.next then None
    else
      var acked := if sequence > r.acked then sequence else r.acked;
      Some(Replay(r.next, acked, Trim(r.events, acked)))
  }

  function Above(events: seq<Envelope>, after: nat): seq<Envelope> {
    if events == [] then []
    else (if events[0].sequence > after then [events[0]] else []) + Above(events[1..], after)
  }

  function FirstAbove(events: seq<Envelope>, after: nat): Option<Envelope> {
    if events == [] then None
    else if events[0].sequence > after then Some(events[0])
    else FirstAbove(events[1..], after)
  }

  // ----- The step system -----

  datatype Owner =
    | Idle
    | Locking(frame: int)     // about to take the lock
    | Sending(e: Envelope)    // lock released, broadcast not sent
    | GivingUp(frame: int)    // lock released, `notified()` not polled
    | Parked(frame: int)

  /**
   `delivered` is what the client got, `pending` the rest of the snapshot; `floor` is the acked value at the snapshot.
   */
  datatype Stream =
    | Subscribed(after: nat, pos: nat)
    | Streaming(after: nat, pos: nat, floor: nat, delivered: seq<Envelope>, pending: seq<Envelope>, last: nat,
                recovering: bool, lagged: bool)

  /** `published` is instrumentation: everything ever appended. `sent` is everything ever broadcast. */
  datatype Server = Server(replay: Replay, owner: Owner, permit: bool, waking: nat,
                           published: seq<Envelope>, sent: seq<Envelope>, streams: map<nat, Stream>)

  const Init := Server(Replay(1, 0, []), Idle, false, 0, [], [], map[])

  datatype Step =
    | Receive(frame: int)
    | OwnerLock
    | OwnerSend
    | OwnerPark
    | AckLock(sequence: nat)
    | AckNotify
    | Subscribe(id: nat, after: nat)
    | Snapshot(id: nat)
    | Emit(id: nat)
    | Recv(id: nat)
    | Recover(id: nat)

  function Oldest(s: Server): nat {
    if |s.sent| > BROADCAST_CAPACITY then |s.sent| - BROADCAST_CAPACITY else 0
  }

  function Open(s: Server, st: Stream): Stream
    requires st.Subscribed?
  {
    var initial := Above(s.replay.events, st.after);
    Streaming(st.after, st.pos, s.replay.acked, [], initial,
              if initial == [] then st.after else initial[|initial| - 1].sequence, false, false)
  }

  function Deliver(st: Stream, e: Envelope): Stream
    requires st.Streaming?
  {
    st.(delivered := st.delivered + [e], last := e.sequence)
  }

  /** One `rx.recv()`: a lagging receiver is moved to the oldest retained entry and must recover first. */
  function Receiving(s: Server, st: Stream): Stream
    requires st.Streaming?
  {
    if st.pos < Oldest(s) then st.(pos := Oldest(s), recovering := true, lagged := true)
    else if st.pos < |s.sent| then
      var st' := st.(pos := st.pos + 1);
      if s.sent[st.pos].sequence > st.last then Deliver(st', s.sent[st.pos]) else st'
    else st
  }

  /** The rest of the Lagged arm: one event from the replay buffer, if it has one. */
  function Recovering(s: Server, st: Stream): Stream
    requires st.Streaming?
  {
    match FirstAbove(s.replay.events, st.last)
    case Some(e) => Deliver(st.(recovering := false), e)
    case None => st.(recovering := false)
  }

  function StepStream(s: Server, st: Stream, step: Step): Stream {
    match step
    case Snapshot(_) => if st.Subscribed? then Open(s, st) else st
    case Emit(_) =>
      if st.Streaming? && st.pending != [] then
        st.(delivered := st.delivered + [st.pending[0]], pending := st.pending[1..])
      else st
    case Recv(_) => if st.Streaming? && st.pending == [] && !st.recovering then Receiving(s, st) else st
    case Recover(_) => if st.Streaming? && st.recovering then Recovering(s, st) else st
    case _ => st
  }

  function Next(s: Server, step: Step): Server {
    match step
    case Receive(frame) => if s.owner.Idle? then s.(owner := Locking(frame)) else s
    case OwnerLock =>
      if s.owner.Locking? then
        var (replay, appended) := Append(s.replay, s.owner.frame);
        match appended
        case Some(e) => s.(replay := replay, owner := Sending(e), published := s.published + [e])
        case None => s.(replay := replay, owner := GivingUp(s.owner.frame))
      else s
    case OwnerSend => if s.owner.Sending? then s.(owner := Idle, sent := s.sent + [s.owner.e]) else s
    case OwnerPark =>
      if s.owner.GivingUp? then
        if s.permit then s.(owner := Locking(s.owner.frame), permit := false) else s.(owner := Parked(s.owner.frame))
      else s
    case AckLock(sequence) =>
      (match Ack(s.replay, sequence)
       case Some(replay) => s.(replay := replay, waking := s.waking + 1)
       case None => s)
    case AckNotify =>
      if s.waking == 0 then s
      else if s.owner.Parked? then s.(waking := s.waking - 1, owner := Locking(s.owner.frame))
      else s.(waking := s.waking - 1, permit := true)
    case Subscribe(id, after) =>
      if id in s.streams then s else s.(streams := s.streams[id := Subscribed(after, |s.sent|)])
    case Snapshot(id) => if id in s.streams then s.(streams := s.streams[id := StepStream(s, s.streams[id], step)])
        else s
    case Emit(id) => if id in s.streams then s.(streams := s.streams[id := StepStream(s, s.streams[id], step)]) else s
    case Recv(id) => if id in s.streams then s.(streams := s.streams[id := StepStream(s, s.streams[id], step)]) else s
    case Recover(id) => if id in s.streams then s.(streams := s.streams[id := StepStream(s, s.streams[id], step)])
        else s
  }

  function Run(s: Server, steps: seq<Step>): Server
    decreases |steps|
  {
    if steps == [] then s else Run(Next(s, steps[0]), steps[1..])
  }

  // ----- The lock regions on consecutive events -----

  /** The events numbered 1, 2, 3, ... in publication order. */
  ghost predicate Numbered(published: seq<Envelope>) {
    forall i :: 0 <= i < |published| ==> published[i].sequence == i + 1
  }

  lemma {:induction false} TrimCuts(published: seq<Envelope>, from: nat, acked: nat)
    requires Numbered(published) && from <= acked <= |published|
    ensures Trim(published[from..], acked) == published[acked..]
    decreases acked - from
  {
    if from < acked {
      assert published[from..][0] == published[from] && published[from..][1..] == published[from + 1..];
      TrimCuts(published, from + 1, acked);
    } else if from < |published| {
      assert published[from..][0] == published[from];
    }
  }

  function Max(a: nat, b: nat): nat {
    if a > b then a else b
  }

  lemma {:induction false} AboveCuts(published: seq<Envelope>, from: nat, after: nat)
    requires Numbered(published) && from <= |published|
    ensures Above(published[from..], after) == if Max(from, after) < |published| then published[Max(from, after)..]
        else []
    decreases |published| - from
  {
    if from < |published| {
      assert published[from..][0] == published[from] && published[from..][1..] == published[from + 1..];
      AboveCuts(published, from + 1, after);
      if from >= after {
        assert [published[from]] + published[from + 1..] == published[from..];
      }
    }
  }

  lemma {:induction false} FirstAboveCuts(published: seq<Envelope>, from: nat, after: nat)
    requires Numbered(published) && from <= |published|
    ensures FirstAbove(published[from..], after)
         == if Max(from, after) < |published| then Some(published[Max(from, after)]) else None
    decreases |published| - from
  {
    if from < |published| {
      assert published[from..][0] == published[from] && published[from..][1..] == published[from + 1..];
      FirstAboveCuts(published, from + 1, after);
    }
  }

  // ----- The invariant -----

  ghost predicate LogOk(s: Server) {
    && s.replay.next == |s.published| + 1
    && Numbered(s.published)
    && s.replay.acked <= |s.published|
    && s.replay.events == s.published[s.replay.acked..]
    && |s.replay.events| <= REPLAY_CAPACITY
    && (if s.owner.Sending? then s.published == s.sent + [s.owner.e] else s.published == s.sent)
  }

  /** A waiting owner has been or is about to be woken, unless the buffer is full of unacknowledged events. */
  ghost predicate WakeOk(s: Server) {
    && (s.owner.Parked? ==> !s.permit)
    && (s.owner.Parked? || s.owner.GivingUp? ==>
          s.permit || s.waking > 0 || |s.replay.events| == REPLAY_CAPACITY)
  }

  /** All a stream has delivered or holds in its snapshot. */
  function Output(st: Stream): seq<Envelope>
    requires st.Streaming?
  {
    st.delivered + st.pending
  }

  ghost predicate Increasing(out: seq<Envelope>, after: nat) {
    && (forall i :: 0 <= i < |out| ==> out[i].sequence > after)
    && (forall i, j :: 0 <= i < j < |out| ==> out[i].sequence < out[j].sequence)
  }

  ghost predicate Genuine(out: seq<Envelope>, published: seq<Envelope>) {
    forall i :: 0 <= i < |out| ==> 0 < out[i].sequence <= |published| && published[out[i].sequence - 1] == out[i]
  }

  /** The first sequence a stream owes its client is the one above this. */
  function Bound(st: Stream): nat
    requires st.Streaming?
  {
    Max(st.after, st.floor)
  }

  /** A stream's clauses that hold with or without lag. */
  ghost predicate Ordered(published: seq<Envelope>, st: Stream)
    requires st.Streaming?
  {
    && Increasing(Output(st), st.after) && Genuine(Output(st), published)
    && st.last == (if Output(st) == [] then st.after else Output(st)[|Output(st)| - 1].sequence)
  }

  ghost predicate StreamOk(s: Server, st: Stream) {
    && st.pos <= |s.sent|
    && (st.Streaming? ==>
          && Ordered(s.published, st)
          && st.floor <= |s.published|
          && (st.recovering ==> st.lagged && st.pending == [])
          && (!st.lagged ==> GapFree(s.published, st)))
  }

  /** The output is a slice of the publications, starts no later than it should, and the receiver is not ahead of it. */
  ghost predicate GapFree(published: seq<Envelope>, st: Stream)
    requires st.Streaming?
  {
    var out := Output(st);
    if out == [] then st.pos <= Bound(st)
    else
      && st.pos <= st.last
      && |out| <= st.last <= |published| && st.last - |out| <= Bound(st)
      && out == published[st.last - |out|..st.last]
  }

  ghost predicate Inv(s: Server) {
    LogOk(s) && WakeOk(s) && forall id <- s.streams :: StreamOk(s, s.streams[id])
  }

  // ----- Every step keeps it, as long as the sequence counter has not saturated -----

  lemma SeqTail<T>(a: seq<T>, n: nat, x: T)
    requires n <= |a|
    ensures (a + [x])[n..] == a[n..] + [x]
  {
  }

  lemma OwnerLockKeepsLog(s: Server)
    requires LogOk(s) && WakeOk(s) && Next(s, OwnerLock).replay.next < U64_MAX
    ensures LogOk(Next(s, OwnerLock)) && WakeOk(Next(s, OwnerLock))
  {
    if s.owner.Locking? {
      TrimCuts(s.published, s.replay.acked, s.replay.acked);
      SeqTail(s.published, s.replay.acked, Envelope(s.replay.next, s.owner.frame));
    }
  }

  lemma AckLockKeepsLog(s: Server, sequence: nat)
    requires LogOk(s) && WakeOk(s)
    ensures LogOk(Next(s, AckLock(sequence))) && WakeOk(Next(s, AckLock(sequence)))
  {
    if sequence < s.replay.next { TrimCuts(s.published, s.replay.acked, Max(sequence, s.replay.acked)); }
  }

  lemma LogKept(s: Server, step: Step)
    requires Inv(s) && Next(s, step).replay.next < U64_MAX
    ensures LogOk(Next(s, step)) && WakeOk(Next(s, step))
  {
    match step
    case OwnerLock => OwnerLockKeepsLog(s);
    case AckLock(sequence) => AckLockKeepsLog(s, sequence);
    case _ =>
  }

  /** More publications and broadcasts do not disturb a stream. */
  lemma StreamKept(s: Server, s': Server, st: Stream)
    requires StreamOk(s, st) && s.sent <= s'.sent && s.published <= s'.published
    ensures StreamOk(s', st)
  {
    if st.Streaming? && !st.lagged && Output(st) != [] {
      var n := |Output(st)|;
      assert s'.published[st.last - n..st.last] == s.published[st.last - n..st.last];
    }
  }

  /** A stream that holds a final slice of the publications, as a snapshot does. */
  lemma SliceIsOrdered(published: seq<Envelope>, st: Stream, from: nat)
    requires Numbered(published) && from < |published| && st.Streaming?
    requires Output(st) == published[from..] && st.after <= from && st.last == |published|
    ensures Ordered(published, st)
  {
    var out := Output(st);
    assert forall i :: 0 <= i < |out| ==> out[i] == published[from + i];
  }

  lemma SliceIsGapFree(published: seq<Envelope>, st: Stream, from: nat)
    requires from < |published| && st.Streaming?
    requires Output(st) == published[from..] && st.last == |published| && st.pos <= |published| && from <= Bound(st)
    ensures GapFree(published, st)
  {
    assert published[from..] == published[from..|published|];
  }

  lemma EmptyIsOrdered(published: seq<Envelope>, st: Stream)
    requires st.Streaming? && Output(st) == [] && st.last == st.after
    ensures Ordered(published, st)
    ensures st.pos <= Bound(st) ==> GapFree(published, st)
  {
  }

  /** What a snapshot sets up. */
  ghost predicate Opened(st: Stream, initial: seq<Envelope>, after: nat, pos: nat, floor: nat) {
    && st.Streaming? && Output(st) == initial && st.after == after && st.pos == pos && st.floor == floor
    && st.last == if initial == [] then after else initial[|initial| - 1].sequence
  }

  lemma OpenOpens(s: Server, st: Stream)
    requires st.Subscribed?
    ensures Opened(Open(s, st), Above(s.replay.events, st.after), st.after, st.pos, s.replay.acked)
  {
  }

  lemma LastOfSlice(published: seq<Envelope>, from: nat)
    requires Numbered(published) && from < |published|
    ensures published[from..] != [] && published[from..][|published[from..]| - 1].sequence == |published|
  {
  }

  lemma OpenedOk(published: seq<Envelope>, st: Stream, initial: seq<Envelope>, after: nat, pos: nat, acked: nat)
    requires Numbered(published) && acked <= |published| && pos <= |published|
    requires Opened(st, initial, after, pos, acked)
    requires initial == if Max(acked, after) < |published| then published[Max(acked, after)..] else []
    ensures Ordered(published, st) && GapFree(published, st)
  {
    if Max(acked, after) < |published| {
      LastOfSlice(published, Max(acked, after));
      SliceIsOrdered(published, st, Max(acked, after));
      SliceIsGapFree(published, st, Max(acked, after));
    } else {
      EmptyIsOrdered(published, st);
    }
  }

  lemma OpenOk(s: Server, st: Stream)
    requires Numbered(s.published) && s.replay.acked <= |s.published| &&
        s.replay.events == s.published[s.replay.acked..]
    requires st.Subscribed? && st.pos <= |s.published|
    ensures Ordered(s.published, Open(s, st)) && GapFree(s.published, Open(s, st))
  {
    AboveCuts(s.published, s.replay.acked, st.after);
    OpenOpens(s, st);
    OpenedOk(s.published, Open(s, st), Above(s.replay.events, st.after), st.after, st.pos, s.replay.acked);
  }

  lemma DeliverOrdered(published: seq<Envelope>, st: Stream, e: Envelope)
    requires st.Streaming? && st.pending == [] && Ordered(published, st)
    requires 0 < e.sequence <= |published| && published[e.sequence - 1] == e && e.sequence > st.last
    ensures Ordered(published, Deliver(st, e)) && Output(Deliver(st, e)) == Output(st) + [e]
  {
    var out := Output(st);
    assert Output(Deliver(st, e)) == out + [e];
    if out != [] { assert out[|out| - 1].sequence == st.last; }
    IncreasingGrows(out, st.after, e);
    GenuineGrows(out, published, e);
  }

  lemma IncreasingGrows(out: seq<Envelope>, after: nat, e: Envelope)
    requires Increasing(out, after) && e.sequence > after && (out != [] ==> e.sequence > out[|out| - 1].sequence)
    ensures Increasing(out + [e], after)
  {
  }

  lemma GenuineGrows(out: seq<Envelope>, published: seq<Envelope>, e: Envelope)
    requires Genuine(out, published) && 0 < e.sequence <= |published| && published[e.sequence - 1] == e
    ensures Genuine(out + [e], published)
  {
  }

  lemma SliceGrows<T>(a: seq<T>, i: nat, j: nat)
    requires i <= j < |a|
    ensures a[i..j] + [a[j]] == a[i..j + 1]
  {
  }

  lemma ReceiveGapFree(published: seq<Envelope>, st: Stream)
    requires st.Streaming? && st.pending == [] && GapFree(published, st)
    requires Output(st) == [] ==> st.last == st.after
    requires st.last <= st.pos < |published| && published[st.pos].sequence == st.pos + 1
    ensures GapFree(published, Deliver(st.(pos := st.pos + 1), published[st.pos]))
  {
    var out := Output(st);
    assert Output(Deliver(st.(pos := st.pos + 1), published[st.pos])) == out + [published[st.pos]];
    SliceGrows(published, if out == [] then st.pos else st.last - |out|, st.pos);
  }

  /** Skipping an event already delivered. */
  lemma SkipOk(s: Server, st: Stream)
    requires StreamOk(s, st) && st.Streaming? && st.pos < st.last && st.pos < |s.sent|
    ensures StreamOk(s, st.(pos := st.pos + 1))
  {
    assert Output(st.(pos := st.pos + 1)) == Output(st);
  }

  lemma LagOk(s: Server, st: Stream)
    requires StreamOk(s, st) && st.Streaming? && st.pending == []
    ensures StreamOk(s, st.(pos := Oldest(s), recovering := true, lagged := true))
  {
    assert Output(st.(pos := Oldest(s), recovering := true, lagged := true)) == Output(st);
  }

  lemma ReceiveNewOk(s: Server, st: Stream)
    requires LogOk(s) && StreamOk(s, st) && st.Streaming? && st.pending == [] && !st.recovering
    requires st.last <= st.pos < |s.sent|
    ensures StreamOk(s, Deliver(st.(pos := st.pos + 1), s.published[st.pos]))
  {
    assert Output(st.(pos := st.pos + 1)) == Output(st);
    DeliverOrdered(s.published, st.(pos := st.pos + 1), s.published[st.pos]);
    if !st.lagged { ReceiveGapFree(s.published, st); }
  }

  lemma ReceivingOk(s: Server, st: Stream)
    requires LogOk(s) && StreamOk(s, st) && st.Streaming? && st.pending == [] && !st.recovering
    ensures StreamOk(s, Receiving(s, st))
  {
    if st.pos < Oldest(s) {
      LagOk(s, st);
    } else if st.pos < |s.sent| {
      assert s.sent[st.pos] == s.published[st.pos];
      if st.pos < st.last { SkipOk(s, st); } else { ReceiveNewOk(s, st); }
    }
  }

  lemma RecoveringOk(s: Server, st: Stream)
    requires LogOk(s) && StreamOk(s, st) && st.Streaming? && st.recovering
    ensures StreamOk(s, Recovering(s, st))
  {
    FirstAboveCuts(s.published, s.replay.acked, st.last);
    assert Output(st.(recovering := false)) == Output(st);
    if Max(s.replay.acked, st.last) < |s.published| {
      DeliverOrdered(s.published, st.(recovering := false), s.published[Max(s.replay.acked, st.last)]);
    }
  }

  lemma EmitOk(s: Server, st: Stream)
    requires StreamOk(s, st) && st.Streaming? && st.pending != []
    ensures StreamOk(s, st.(delivered := st.delivered + [st.pending[0]], pending := st.pending[1..]))
  {
    assert Output(st.(delivered := st.delivered + [st.pending[0]], pending := st.pending[1..])) == Output(st);
  }

  lemma StepStreamOk(s: Server, st: Stream, step: Step)
    requires Inv(s) && StreamOk(s, st)
    ensures StreamOk(s, StepStream(s, st, step))
  {
    match step
    case Snapshot(_) => if st.Subscribed? { OpenOk(s, st); }
    case Emit(_) => if st.Streaming? && st.pending != [] { EmitOk(s, st); }
    case Recv(_) => if st.Streaming? && st.pending == [] && !st.recovering { ReceivingOk(s, st); }
    case Recover(_) => if st.Streaming? && st.recovering { RecoveringOk(s, st); }
    case _ =>
  }

  lemma StreamsKept(s: Server, step: Step, id: nat)
    requires Inv(s) && id in Next(s, step).streams
    ensures StreamOk(Next(s, step), Next(s, step).streams[id])
  {
    var s' := Next(s, step);
    if id in s.streams {
      assert s'.streams[id] == s.streams[id] || s'.streams[id] == StepStream(s, s.streams[id], step);
      StepStreamOk(s, s.streams[id], step);
      assert s.sent <= s'.sent && s.published <= s'.published;
      StreamKept(s, s', s'.streams[id]);
    }
  }

  lemma NextKeeps(s: Server, step: Step)
    requires Inv(s) && Next(s, step).replay.next < U64_MAX
    ensures Inv(Next(s, step))
  {
    LogKept(s, step);
    forall id <- Next(s, step).streams { StreamsKept(s, step, id); }
  }

  lemma NextNeverCountsDown(s: Server, step: Step)
    requires s.replay.next <= U64_MAX
    ensures s.replay.next <= Next(s, step).replay.next <= U64_MAX
    ensures s.replay.acked <= Next(s, step).replay.acked
    ensures s.replay.next > s.replay.acked ==> Next(s, step).replay.next > Next(s, step).replay.acked
  {
  }

  lemma {:induction false} RunNeverCountsDown(s: Server, steps: seq<Step>)
    requires s.replay.next <= U64_MAX
    ensures s.replay.next <= Run(s, steps).replay.next <= U64_MAX && s.replay.acked <= Run(s, steps).replay.acked
    decreases |steps|
  {
    if steps != [] {
      NextNeverCountsDown(s, steps[0]);
      RunNeverCountsDown(Next(s, steps[0]), steps[1..]);
    }
  }

  lemma {:induction false} RunKeeps(s: Server, steps: seq<Step>)
    requires Inv(s) && s.replay.next <= U64_MAX && Run(s, steps).replay.next < U64_MAX
    ensures Inv(Run(s, steps))
    decreases |steps|
  {
    if steps != [] {
      NextNeverCountsDown(s, steps[0]);
      RunNeverCountsDown(Next(s, steps[0]), steps[1..]);
      NextKeeps(s, steps[0]);
      RunKeeps(Next(s, steps[0]), steps[1..]);
    }
  }

  ghost predicate Reachable(s: Server) {
    exists steps :: Run(Init, steps) == s
  }

  lemma ReachableHolds(s: Server)
    requires Reachable(s) && s.replay.next < U64_MAX
    ensures Inv(s)
  {
    var steps :| Run(Init, steps) == s;
    RunKeeps(Init, steps);
  }

  lemma {:induction false} RunExtends(s: Server, steps: seq<Step>, step: Step)
    ensures Run(s, steps + [step]) == Next(Run(s, steps), step)
    decreases |steps|
  {
    var longer := steps + [step];
    if steps == [] {
      assert longer == [step] && longer[1..] == [];
      assert Run(s, longer) == Run(Next(s, step), []);
    } else {
      assert longer[0] == steps[0] && longer[1..] == steps[1..] + [step];
      RunExtends(Next(s, steps[0]), steps[1..], step);
    }
  }

  lemma ReachableExtends(s: Server, step: Step)
    requires Reachable(s)
    ensures Reachable(Next(s, step))
  {
    var steps :| Run(Init, steps) == s;
    RunExtends(Init, steps, step);
  }
}
