/** `ReplayState` in the source's own form: the code run while the replay lock is held. */
module ReplayLog {
  import opened Wrappers
  import opened EventReplay

  /** One turn of the snapshot's filter loop. */
  lemma AboveOneMore(initial: seq<Envelope>, events: seq<Envelope>, after: nat, all: seq<Envelope>)
    requires events != [] && initial + Above(events, after) == all
    ensures (if events[0].sequence > after then initial + [events[0]] else initial) + Above(events[1..], after) == all
  {
  }

  class ReplayState {
    var next_sequence: nat
    var acked_sequence: nat
    var events: seq<Envelope>

    ghost function Model(): Replay
      reads this
    {
      Replay(next_sequence, acked_sequence, events)
    }

    constructor ()
      ensures Model() == Init.replay
    {
      next_sequence, acked_sequence, events := 1, 0, [];
    }

    method PopAcknowledged()
      modifies this`events
      ensures events == Trim(old(events), acked_sequence)
    {
      while events != [] && events[0].sequence <= acked_sequence
        invariant Trim(events, acked_sequence) == Trim(old(events), acked_sequence)
        decreases |events|
      {
        events := events[1..];
      }
    }

    /** The owner's turn under the lock; `None` means the buffer is full and the frame has to wait. */
    method TryAppend(frame: int) returns (appended: Option<Envelope>)
      modifies this
      ensures (Model(), appended) == Append(old(Model()), frame)
    {
      PopAcknowledged();
      if |events| < REPLAY_CAPACITY {
        var envelope := Envelope(next_sequence, frame);
        next_sequence := if next_sequence < U64_MAX then next_sequence + 1 else U64_MAX;
        events := events + [envelope];
        return Some(envelope);
      }
      return None;
    }

    method AckEvents(sequence: nat) returns (ok: bool)
      modifies this
      ensures ok <==> Ack(old(Model()), sequence).Some?
      ensures Model() == if ok then Ack(old(Model()), sequence).value else old(Model())
    {
      if sequence >= next_sequence { return false; }
      acked_sequence := if sequence > acked_sequence then sequence else acked_sequence;
      PopAcknowledged();
      return true;
    }

    /** The snapshot of a new stream, and the sequence its live part continues from. */
    method SnapshotAfter(after: nat) returns (initial: seq<Envelope>, last: nat)
      ensures initial == Above(events, after)
      ensures last == if initial == [] then after else initial[|initial| - 1].sequence
    {
      initial := [];
      ghost var rest := events;
      for i := 0 to |events|
        invariant rest == events[i..] && initial + Above(rest, after) == Above(events, after)
      {
        AboveOneMore(initial, rest, after, Above(events, after));
        rest := rest[1..];
        if events[i].sequence > after {
          initial := initial + [events[i]];
        }
      }
      last := if initial == [] then after else initial[|initial| - 1].sequence;
    }

    /** The search of the Lagged arm. */
    method FindAfter(last: nat) returns (found: Option<Envelope>)
      ensures found == FirstAbove(events, last)
    {
      for i := 0 to |events|
        invariant FirstAbove(events[i..], last) == FirstAbove(events, last)
      {
        if events[i].sequence > last { return Some(events[i]); }
      }
      return None;
    }
  }
}
