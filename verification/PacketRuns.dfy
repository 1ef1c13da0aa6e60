/** Packets over a channel: the module layers' port is the bus client, and what its sends put
    into the ring comes out of the peer's polls as the same packets, in order. */
module PacketRuns {
  import opened Words
  import opened Wrappers
  import opened Wire
  import opened RingLayout
  import opened FrameCodec
  import opened Channel
  import opened ChannelRuns
  import opened Fragments
  import opened Ports

  /** Sends a packet through a client, by the call for its pattern. A port of the client's
      geometry, at a moment of the client's epoch and ring, gives the same verdict; an accepted
      packet is one more slot, which carries it. */
  method SendOver(client: Client, ghost port: Port, p: Packet) returns (err: Option<SendError>)
    requires client.Valid() && client.attached && !p.pattern.Notification?
    requires p.pattern.Cancel? ==> p.payload == [] && !p.more
    requires port.handle == client.handle && port.slotSize == client.slotSize && port.budget == client.inlineBudget
    modifies client.outbound.mem
    ensures client.Valid()
    ensures var now := Moment(!old(client.EpochChanged()),
                              old(|client.outbound.Contents()| == client.outbound.capacity), false);
            err == port.VerdictAt(p, now)
    ensures err.None? ==>
      Appended(old(client.outbound.Contents()), client.outbound.Contents(), FrameOf(port.handle, p), p.payload) &&
      Emittable(FrameOf(port.handle, p), p.payload, port.slotSize)
    ensures err.Some? ==> client.outbound.mem[..] == old(client.outbound.mem[..])
  {
    hide EmitVerdict, EmitFrame, Appended, PatternFlags, Queue, Sound, Validate, Rings.Ring.Valid;
    ghost var now := Moment(!client.EpochChanged(),
                            |client.outbound.Contents()| == client.outbound.capacity, false);
    match p.pattern {
      case Request => err := client.RequestFragment(p.kind, p.corr, p.payload, p.more);
      case Reply => err := client.ReplyFragment(p.kind, p.corr, p.payload, p.more);
      case Cancel => err := client.Cancel(p.kind, p.corr);
    }
    if err.None? {
      AcceptedIsEmittable(port, p, now);
    }
  }

  /** What a port accepts is a frame that reads back. */
  lemma AcceptedIsEmittable(port: Port, p: Packet, now: Moment)
    requires port.VerdictAt(p, now).None?
    ensures Emittable(FrameOf(port.handle, p), p.payload, port.slotSize)
  {
    hide EmitVerdict, EmitFrame, Emittable, Validate, PatternFlags;
    PlainFlags(p.pattern, p.more);
    VerdictEmittable(true, now.sameEpoch, port.budget, port.slotSize, now.full,
                     port.handle, PatternFlags(p.pattern, p.more), p.kind, p.corr, p.payload);
  }

  lemma PlainFlags(q: Pattern, more: bool)
    ensures !Has(PatternFlags(q, more), F_INLINE)
  {
    EmitFlags(q, more, false);
  }

  /** The slots show these packets, one each, whoever sent them. */
  ghost predicate Conveys(slots: seq<Slot>, ps: seq<Packet>, slotSize: u32)
  {
    |slots| == |ps| && forall i :: 0 <= i < |ps| ==> ShowsPacket(slots[i], ps[i], slotSize)
  }

  ghost predicate ShowsPacket(slot: Slot, p: Packet, slotSize: u32)
  {
    ReadSlot(slot, slotSize).Shown? && PacketOf(ReadSlot(slot, slotSize).ev) == p
  }

  /** A slot that a client filled with a packet shows it. */
  lemma SentShows(slot: Slot, handle: u32, p: Packet, slotSize: u32)
    requires |slot| == slotSize && Carries(slot, FrameOf(handle, p), p.payload)
    requires Emittable(FrameOf(handle, p), p.payload, slotSize)
    ensures ShowsPacket(slot, p, slotSize)
  {
    hide ReadSlot, Carries, PacketOf, Validate, FrameOf, Has;
    ReadBack(slot, FrameOf(handle, p), p.payload, slotSize);
    PacketCrosses(handle, p);
  }

  function PacketsOf(events: seq<Event>): (ps: seq<Packet>)
    ensures |ps| == |events|
  {
    if events == [] then [] else [PacketOf(events[0])] + PacketsOf(events[1..])
  }

  /** Slots that carry packets do not fault, and show exactly those packets. */
  lemma {:induction false} ConveyedShow(slots: seq<Slot>, ps: seq<Packet>, slotSize: u32)
    requires Conveys(slots, ps, slotSize)
    ensures Readable(slots, slotSize) && PacketsOf(Events(slots, slotSize)) == ps
  {
    hide ReadSlot, PacketOf, Readable, PacketsOf, Events;
    if slots == [] {
      ShowNone(slotSize);
    } else {
      assert ShowsPacket(slots[0], ps[0], slotSize);
      ConveyedShow(slots[1..], ps[1..], slotSize);
      assert slots == [slots[0]] + slots[1..] && ps == [ps[0]] + ps[1..];
      ShowOne(slots[0], slots[1..], slotSize);
    }
  }

  lemma ShowNone(slotSize: u32)
    ensures Readable([], slotSize) && PacketsOf(Events([], slotSize)) == []
  {
  }

  lemma ShowOne(slot: Slot, rest: seq<Slot>, slotSize: u32)
    requires ReadSlot(slot, slotSize).Shown? && Readable(rest, slotSize)
    ensures Readable([slot] + rest, slotSize)
    ensures PacketsOf(Events([slot] + rest, slotSize)) ==
            [PacketOf(ReadSlot(slot, slotSize).ev)] + PacketsOf(Events(rest, slotSize))
  {
    hide ReadSlot, PacketOf;
    var e := ReadSlot(slot, slotSize).ev;
    EventsOfOne(slot, rest, slotSize);
    assert ([e] + Events(rest, slotSize))[1..] == Events(rest, slotSize);
  }

  /** A channel's whole run, from an empty ring: the packets polled are a prefix of the packets
      sent, in order and once each; the rest is still queued. */
  lemma PacketsArrive(ops: seq<Op>, ps: seq<Packet>, slotSize: u32)
    requires Conveys(Sent(ops), ps, slotSize)
    ensures var r := RunOps([], false, ops, slotSize);
            (r.pending ==> r.q != []) &&
            var left := |Fresh(r.q, r.pending)|;
            left <= |ps| && PacketsOf(r.events) == ps[..|ps| - left]
  {
    hide RunOps, ReadSlot, ShowsPacket;
    var slots := Sent(ops);
    ConveyedShow(slots, ps, slotSize);
    assert Fresh([], false) + slots == slots;
    PolledIsSent([], false, ops, slotSize);
    var r := RunOps([], false, ops, slotSize);
    var n := |ps| - |Fresh(r.q, r.pending)|;
    assert Conveys(slots[..n], ps[..n], slotSize);
    ConveyedShow(slots[..n], ps[..n], slotSize);
  }

  /** The packets of one correlation. */
  function OnCall(ps: seq<Packet>, corr: u64): seq<Packet>
  {
    if ps == [] then [] else (if ps[0].corr == corr then [ps[0]] else []) + OnCall(ps[1..], corr)
  }

  /** One channel: its slots, and its sends and polls. */
  datatype Way = Way(slotSize: u32, ops: seq<Op>)

  /** A link between two parties: one channel, from empty to drained. */
  ghost predicate Link(sent: seq<Packet>, way: Way, received: seq<Packet>)
  {
    Conveys(Sent(way.ops), sent, way.slotSize) &&
    var r := RunOps([], false, way.ops, way.slotSize);
    (r.pending ==> r.q != []) && Fresh(r.q, r.pending) == [] && received == PacketsOf(r.events)
  }

  lemma LinkDelivers(sent: seq<Packet>, way: Way, received: seq<Packet>)
    requires Link(sent, way, received)
    ensures received == sent
  {
    hide Conveys, RunOps, Sent, PacketsOf;
    PacketsArrive(way.ops, sent, way.slotSize);
    assert sent[..|sent|] == sent;
  }

  /** Each slot sent and then polled. */
  function InTurn(slots: seq<Slot>): seq<Op>
  {
    if slots == [] then [] else [Send(slots[0]), Take] + InTurn(slots[1..])
  }

  lemma {:induction false} InTurnSends(slots: seq<Slot>)
    ensures Sent(InTurn(slots)) == slots
  {
    if slots != [] {
      InTurnSends(slots[1..]);
      var ops := InTurn(slots);
      assert ops[1..] == [Take] + InTurn(slots[1..]) && ops[1..][1..] == InTurn(slots[1..]);
      assert slots == [slots[0]] + slots[1..];
    }
  }

  /** Polled after each send, a channel of readable slots ends drained. */
  lemma {:induction false} InTurnDrains(q: seq<Slot>, pending: bool, slots: seq<Slot>, slotSize: u32)
    requires (pending ==> q != []) && Fresh(q, pending) == [] && Readable(slots, slotSize)
    ensures var r := RunOps(q, pending, InTurn(slots), slotSize); (r.pending ==> r.q != []) && Fresh(r.q, r.pending) == []
    decreases |slots|
  {
    hide ReadSlot;
    if slots != [] {
      var s, ops := slots[0], InTurn(slots);
      assert ops[1..] == [Take] + InTurn(slots[1..]) && ops[1..][1..] == InTurn(slots[1..]);
      var q1 := q + [s];
      FreshSnoc(q, pending, s);
      PollShrinks(q1, pending, slotSize);
      var p := PollStep(q1, pending, slotSize);
      assert RunOps(q, pending, ops, slotSize) == RunOps(q1, pending, ops[1..], slotSize);
      InTurnDrains(p.q, p.pending, slots[1..], slotSize);
    }
  }

  /** Any packets that slots can show have a link. */
  lemma LinkExists(slots: seq<Slot>, ps: seq<Packet>, slotSize: u32)
    requires Conveys(slots, ps, slotSize)
    ensures Link(ps, Way(slotSize, InTurn(slots)), ps)
  {
    hide RunOps, Conveys, PacketsOf, Readable;
    InTurnSends(slots);
    ConveyedShow(slots, ps, slotSize);
    InTurnDrains([], false, slots, slotSize);
    PacketsArrive(InTurn(slots), ps, slotSize);
    assert ps[..|ps|] == ps;
  }

  /** The slot a client would fill with a packet, and the rest zeroes. */
  function SlotFor(handle: u32, p: Packet, slotSize: u32): (slot: Slot)
    requires HDR_LEN + |p.payload| <= slotSize
    ensures |slot| == slotSize
    ensures slot[..HDR_LEN] == HeaderBytes(FrameOf(handle, p))
    ensures slot[HDR_LEN..HDR_LEN + |p.payload|] == p.payload
  {
    var slot := HeaderBytes(FrameOf(handle, p)) + p.payload + seq(slotSize - HDR_LEN - |p.payload|, _ => 0);
    assert slot[HDR_LEN..HDR_LEN + |p.payload|] == p.payload;
    slot
  }

  /** On legal geometry, the packets of a correlated body can be sent. */
  lemma {:induction false} SlotsExist(ps: seq<Packet>, budget: u32, slotSize: u32) returns (slots: seq<Slot>)
    requires LegalBudget(budget, slotSize)
    requires forall i :: 0 <= i < |ps| ==>
      |ps[i].payload| <= budget && ps[i].corr != 0 && (ps[i].pattern.Request? || ps[i].pattern.Reply?) &&
      (ps[i].more ==> |ps[i].payload| > 0)
    ensures Conveys(slots, ps, slotSize)
  {
    if ps == [] {
      slots := [];
    } else {
      hide ShowsPacket, SlotFor;
      var rest := SlotsExist(ps[1..], budget, slotSize);
      OneSlotExists(ps[0], budget, slotSize);
      slots := [SlotFor(0, ps[0], slotSize)] + rest;
      forall i | 0 <= i < |ps| ensures ShowsPacket(slots[i], ps[i], slotSize) {
        if i > 0 { assert slots[i] == rest[i - 1] && ps[i] == ps[1..][i - 1]; }
      }
    }
  }

  lemma OneSlotExists(p: Packet, budget: u32, slotSize: u32)
    requires LegalBudget(budget, slotSize) && |p.payload| <= budget && p.corr != 0
    requires (p.pattern.Request? || p.pattern.Reply?) && (p.more ==> |p.payload| > 0)
    ensures ShowsPacket(SlotFor(0, p, slotSize), p, slotSize)
  {
    hide EmitVerdict, EmitFrame, PatternFlags, ShowsPacket, Validate, Emittable, HeaderBytes;
    FragmentsAreAccepted(true, budget, slotSize, false, 0, p.pattern, p.more, p.kind, p.corr, |p.payload|);
    PlainFlags(p.pattern, p.more);
    VerdictEmittable(true, true, budget, slotSize, false, 0, PatternFlags(p.pattern, p.more), p.kind, p.corr, p.payload);
    SentShows(SlotFor(0, p, slotSize), 0, p, slotSize);
  }
}
