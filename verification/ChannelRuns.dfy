/** Whole runs of a channel: what is polled is what was sent, in order, both for
    operations in sequence and for atomic steps interleaved. */
module ChannelRuns {
  import opened Words
  import opened Wire
  import opened RingLayout
  import opened RingProtocol
  import opened Channel

  /** An operation on the channel: a successful send, or a poll. */
  datatype Op = Send(slot: Slot) | Take

  function Sent(ops: seq<Op>): seq<Slot>
  {
    if ops == [] then []
    else (if ops[0].Send? then [ops[0].slot] else []) + Sent(ops[1..])
  }

  /** The event a slot shows, if any. */
  function Reads(s: Slot, slotSize: u32): seq<Event>
  {
    match ReadSlot(s, slotSize) case Shown(e) => [e] case _ => []
  }

  /** The events a list of slots shows; slots that do not decode yield none. */
  function Events(slots: seq<Slot>, slotSize: u32): seq<Event>
  {
    if slots == [] then []
    else
      Reads(slots[0], slotSize) + Events(slots[1..], slotSize)
  }

  /** No slot faults. */
  ghost predicate Readable(slots: seq<Slot>, slotSize: u32)
  {
    forall i :: 0 <= i < |slots| ==> !ReadSlot(slots[i], slotSize).Faults?
  }

  datatype RunResult = RunResult(events: seq<Event>, q: seq<Slot>, pending: bool)

  /** Sends and polls in sequence. A poll that faults ends the run. */
  ghost function RunOps(q: seq<Slot>, pending: bool, ops: seq<Op>, slotSize: u32): RunResult
    requires pending ==> q != []
    decreases |ops|
  {
    if ops == [] then RunResult([], q, pending)
    else
      match ops[0]
      case Send(s) =>
        RunOps(q + [s], pending, ops[1..], slotSize)
      case Take =>
        var p := PollStep(q, pending, slotSize);
        if p.seen.Faults? then RunResult([], p.q, p.pending)
        else
          var r := RunOps(p.q, p.pending, ops[1..], slotSize);
          RunResult((match p.seen case Shown(e) => [e] case _ => []) + r.events, r.q, r.pending)
  }

  lemma EventsOfOne(s: Slot, rest: seq<Slot>, slotSize: u32)
    ensures Events([s] + rest, slotSize) ==
            Reads(s, slotSize) + Events(rest, slotSize)
  {
    assert ([s] + rest)[1..] == rest;
  }

  /** A run accounts for `all`: it polled the decodable events of a prefix, in order
      and once each, and the rest is still queued. */
  ghost predicate Accounts(all: seq<Slot>, r: RunResult, slotSize: u32)
  {
    (r.pending ==> r.q != []) &&
    var left := Fresh(r.q, r.pending);
    |left| <= |all| && all[|all| - |left|..] == left && r.events == Events(all[..|all| - |left|], slotSize)
  }

  /** Everything undelivered at the start or sent since is accounted for. */
  lemma {:induction false} PolledIsSent(q: seq<Slot>, pending: bool, ops: seq<Op>, slotSize: u32)
    requires (pending ==> q != []) && Readable(Fresh(q, pending) + Sent(ops), slotSize)
    ensures Accounts(Fresh(q, pending) + Sent(ops), RunOps(q, pending, ops, slotSize), slotSize)
    decreases |ops|
  {
    hide ReadSlot, PollStep;
    if ops == [] {
      assert Fresh(q, pending) + Sent(ops) == Fresh(q, pending);
    } else {
      hide Accounts, RunOps, Sent;
      match ops[0]
      case Send(s) =>
        SendSame(q, pending, ops);
        PolledIsSent(q + [s], pending, ops[1..], slotSize);
        SendCase(q, pending, ops, slotSize);
      case Take =>
        TakeReadable(q, pending, ops, slotSize);
        var p := PollStep(q, pending, slotSize);
        PolledIsSent(p.q, p.pending, ops[1..], slotSize);
        TakeCase(q, pending, ops, slotSize);
    }
  }

  lemma FreshSnoc(q: seq<Slot>, pending: bool, s: Slot)
    requires pending ==> q != []
    ensures Fresh(q + [s], pending) == Fresh(q, pending) + [s]
  {
  }

  lemma SlotsAssoc(a: seq<Slot>, b: seq<Slot>, c: seq<Slot>)
    ensures a + b + c == a + (b + c)
  {
  }

  lemma SendSame(q: seq<Slot>, pending: bool, ops: seq<Op>)
    requires (pending ==> q != []) && ops != [] && ops[0].Send?
    ensures Fresh(q + [ops[0].slot], pending) + Sent(ops[1..]) == Fresh(q, pending) + Sent(ops)
  {
    var s := ops[0].slot;
    FreshSnoc(q, pending, s);
    hide Fresh;
    assert Sent(ops) == [s] + Sent(ops[1..]);
    SlotsAssoc(Fresh(q, pending), [s], Sent(ops[1..]));
  }

  lemma SendCase(q: seq<Slot>, pending: bool, ops: seq<Op>, slotSize: u32)
    requires (pending ==> q != []) && ops != [] && ops[0].Send?
    requires var q1 := q + [ops[0].slot];
             Accounts(Fresh(q1, pending) + Sent(ops[1..]), RunOps(q1, pending, ops[1..], slotSize), slotSize)
    ensures Accounts(Fresh(q, pending) + Sent(ops), RunOps(q, pending, ops, slotSize), slotSize)
  {
    hide Accounts, PollStep, ReadSlot, Fresh, Sent;
    SendSame(q, pending, ops);
  }

  /** A poll of a readable slot does not fault, and leaves readable slots. */
  lemma TakeReadable(q: seq<Slot>, pending: bool, ops: seq<Op>, slotSize: u32)
    requires (pending ==> q != []) && ops != [] && ops[0].Take?
    requires Readable(Fresh(q, pending) + Sent(ops), slotSize)
    ensures var p := PollStep(q, pending, slotSize);
            !p.seen.Faults? && (p.pending ==> p.q != []) &&
            Readable(Fresh(p.q, p.pending) + Sent(ops[1..]), slotSize)
  {
    var front, rest := Fresh(q, pending), Sent(ops[1..]);
    var all := front + Sent(ops);
    assert Sent(ops) == rest;
    if front != [] {
      assert all[0] == front[0];
    }
    PollShrinks(q, pending, slotSize);
    hide PollStep, ReadSlot, Fresh, Sent;
    if front != [] {
      assert front[1..] + rest == all[1..];
      assert forall i :: 0 <= i < |all[1..]| ==> all[1..][i] == all[i + 1];
    }
  }

  lemma TakeCase(q: seq<Slot>, pending: bool, ops: seq<Op>, slotSize: u32)
    requires (pending ==> q != []) && ops != [] && ops[0].Take?
    requires var p := PollStep(q, pending, slotSize);
             !p.seen.Faults? && (p.pending ==> p.q != []) &&
             Accounts(Fresh(p.q, p.pending) + Sent(ops[1..]), RunOps(p.q, p.pending, ops[1..], slotSize), slotSize)
    ensures Accounts(Fresh(q, pending) + Sent(ops), RunOps(q, pending, ops, slotSize), slotSize)
  {
    PollShrinks(q, pending, slotSize);
    hide Accounts, PollStep, ReadSlot;
    var p := PollStep(q, pending, slotSize);
    var r := RunOps(p.q, p.pending, ops[1..], slotSize);
    assert Sent(ops) == Sent(ops[1..]);
    if Fresh(q, pending) == [] {
      assert [] + r.events == r.events;
    } else {
      PrependPolled(Fresh(q, pending), Sent(ops[1..]), r, slotSize);
    }
  }

  /** A poll takes the first undelivered slot, if there is one. */
  lemma PollShrinks(q: seq<Slot>, pending: bool, slotSize: u32)
    requires pending ==> q != []
    ensures var p := PollStep(q, pending, slotSize);
            var front := Fresh(q, pending);
            (p.pending ==> p.q != []) &&
            (front == [] ==> p.seen.Nothing? && Fresh(p.q, p.pending) == []) &&
            (front != [] ==> p.seen == ReadSlot(front[0], slotSize)) &&
            (front != [] && !p.seen.Faults? ==> Fresh(p.q, p.pending) == front[1..])
  {
    hide ReadSlot;
  }

  lemma PrependPolled(front: seq<Slot>, sent: seq<Slot>, r: RunResult, slotSize: u32)
    requires front != [] && Accounts(front[1..] + sent, r, slotSize)
    ensures Accounts(front + sent, r.(events := Reads(front[0], slotSize) + r.events), slotSize)
  {
    hide Reads, Events, Fresh;
    var rest := front[1..] + sent;
    assert front + sent == [front[0]] + rest;
    var n := |rest| - |Fresh(r.q, r.pending)|;
    PrefixCons(front[0], rest, n);
    EventsOfOne(front[0], rest[..n], slotSize);
  }

  lemma PrefixCons(s: Slot, rest: seq<Slot>, n: nat)
    requires n <= |rest|
    ensures ([s] + rest)[..n + 1] == [s] + rest[..n] && ([s] + rest)[n + 1..] == rest[n..]
  {
  }

  /** A reading that covers a whole slot, as bytes. */
  ghost predicate Whole(r: Reading, slotSize: nat) { forall k: nat :: k < slotSize ==> k in r }

  ghost function BytesOf(r: Reading, slotSize: nat): seq<byte>
    requires Whole(r, slotSize)
  {
    seq(slotSize, k requires 0 <= k < slotSize => r[k])
  }

  /** Under every interleaving of the two sides, if the producer filled the j-th slot with a
      frame it agreed to publish, the j-th slot the consumer took reads as exactly that event. */
  lemma PolledIsSentInterleaved(g: Geometry, s: State, acts: seq<Action>, s': State, j: nat,
                                f: Frame, payload: seq<byte>)
    requires Start(g, s) && Runs(g, s, acts, s') && j < |s'.taken| && Whole(s'.taken[j], g.slotSize)
    requires j < |s'.sent| ==> |s'.sent[j]| == g.slotSize && Carries(s'.sent[j], f, payload)
    requires Emittable(f, payload, g.slotSize)
    ensures var b := BytesOf(s'.taken[j], g.slotSize);
            ReadSlot(b, g.slotSize) == Shown(Event(f, payload))
  {
    hide Runs, Start, Carries, Emittable, ReadSlot;
    DeliveredInOrder(g, s, acts, s');
    var b := BytesOf(s'.taken[j], g.slotSize);
    assert b == s'.sent[j];
    ReadBack(s'.sent[j], f, payload, g.slotSize);
  }
}
