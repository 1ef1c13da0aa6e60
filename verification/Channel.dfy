/** The client end of the bus: publishing frames on the outbound ring and taking
    events from the inbound one, a slot at a time. */
module Channel {
  import opened Words
  import opened Bits
  import opened Wrappers
  import opened Wire
  import opened FrameCodec
  import opened RingLayout
  import opened Rings

  datatype SendError = ErrProtocol | ErrPayload | ErrEpoch | ErrWouldBlock

  /** A received event. The payload is the bytes of the borrowed slot. */
  datatype Event = Event(frame: Frame, payload: seq<byte>)

  /** The frame `emit` builds. */
  function EmitFrame(handle: u32, flags: u16, kind: u32, corr: u64, n: nat): Frame
    requires flags < 0x100
  {
    OrInline(flags);
    Frame(if n > 0 then Or(flags, F_INLINE) else flags, WIRE_VERSION, kind, 0, corr, 0, 0,
          if n > 0 then HDR_LEN else 0, ToU32(n), handle, 0, 0)
  }

  lemma OrInline(flags: u16)
    requires flags < 0x100
    ensures 0 <= Or(flags, F_INLINE) < 0x100
    ensures !Has(flags, F_INLINE) ==> Or(flags, F_INLINE) == flags + F_INLINE
    ensures Has(Or(flags, F_INLINE), F_INLINE)
  {
    AndOne(flags);
    AndOne(flags + 1 - flags % 2);
    hide And;
  }

  /** Why `emit` refuses, in the order it tests. None means the frame is published. */
  function EmitVerdict(attached: bool, sameEpoch: bool, budget: u32, slotSize: u32, full: bool, f: Frame, n: nat)
    : Option<SendError>
  {
    if !attached then Some(ErrProtocol)
    else if n > 0 && (ToU32(n) > budget || HDR_LEN + n > slotSize) then Some(ErrPayload)
    else if !sameEpoch then Some(ErrEpoch)
    else if full then Some(ErrWouldBlock)
    else if slotSize < HDR_LEN || Validate(f).Some? then Some(ErrProtocol)
    else None
  }

  /** The narrowing conversion in the size test loses nothing, because the slot test stands beside it. */
  lemma SizeTestIsExact(n: nat, budget: u32, slotSize: u32)
    ensures (ToU32(n) > budget || HDR_LEN + n > slotSize) <==> (n > budget || HDR_LEN + n > slotSize)
  {
  }

  /** The flag word of a frame whose payload bits are still to be set. */
  function PatternFlags(q: Pattern, more: bool): (w: u16)
    ensures w < 0x100
  {
    FlagWord(NoPayload, q, false, more)
  }

  /** Which frames `emit` builds pass validation. */
  lemma EmitFrameValidIff(handle: u32, q: Pattern, more: bool, kind: u32, corr: u64, n: nat)
    requires n < TWO32
    ensures !Has(PatternFlags(q, more), F_INLINE)
    ensures var f := EmitFrame(handle, PatternFlags(q, more), kind, corr, n);
            (Validate(f).None? <==>
             n <= MAX_PAYLOAD && (q.Notification? <==> corr == 0) &&
             (more ==> n > 0 && (q.Request? || q.Reply?))) &&
            (Has(f.hdrFlags, F_MORE) <==> more) && (Has(f.hdrFlags, F_REQUEST) <==> q.Request?) &&
            (Has(f.hdrFlags, F_CANCEL) <==> q.Cancel?) && f.eventKind == kind && f.correlationId == corr
  {
    var b := FlagBits(n > 0, false, q.Notification?, q.Request?, q.Reply?, q.Cancel?, false, more, 0);
    var f := EmitFrame(handle, PatternFlags(q, more), kind, corr, n);
    EmitFlags(q, more, n > 0);
    EmitFrameIs(handle, q, more, kind, corr, n);
    hide EmitFrame, PatternFlags, WordOf, Or, Has;
    ValidateBits(f, b);
    hide Validate;
  }

  lemma EmitFrameIs(handle: u32, q: Pattern, more: bool, kind: u32, corr: u64, n: nat)
    requires n < TWO32
    ensures EmitFrame(handle, PatternFlags(q, more), kind, corr, n) ==
            Frame(WordOf(FlagBits(n > 0, false, q.Notification?, q.Request?, q.Reply?, q.Cancel?, false, more, 0)),
                  WIRE_VERSION, kind, 0, corr, 0, 0, if n > 0 then HDR_LEN else 0, n, handle, 0, 0)
  {
    EmitFlags(q, more, n > 0);
    hide PatternFlags, WordOf, Or, Has;
  }

  lemma EmitFlags(q: Pattern, more: bool, inl: bool)
    ensures var w := PatternFlags(q, more);
            !Has(w, F_INLINE) && (if inl then Or(w, F_INLINE) else w) ==
            WordOf(FlagBits(inl, false, q.Notification?, q.Request?, q.Reply?, q.Cancel?, false, more, 0))
  {
    var w := PatternFlags(q, more);
    AndOne(w);
    hide And;
  }

  /** The geometry the fragmenting layers rely on. */
  predicate LegalBudget(budget: u32, slotSize: u32)
  {
    0 < budget <= MAX_PAYLOAD && HDR_LEN + budget <= slotSize
  }

  /** On legal geometry a correlated frame within budget is refused only for a full ring
      or a changed epoch. */
  lemma FragmentsAreAccepted(sameEpoch: bool, budget: u32, slotSize: u32, full: bool,
                             handle: u32, q: Pattern, more: bool, kind: u32, corr: u64, n: nat)
    requires LegalBudget(budget, slotSize) && n <= budget
    requires corr != 0 && !q.Notification? && (more ==> n > 0 && !q.Cancel?)
    ensures EmitVerdict(true, sameEpoch, budget, slotSize, full,
                        EmitFrame(handle, PatternFlags(q, more), kind, corr, n), n)
            == if !sameEpoch then Some(ErrEpoch) else if full then Some(ErrWouldBlock) else None
  {
    EmitFrameValidIff(handle, q, more, kind, corr, n);
    SizeTestIsExact(n, budget, slotSize);
    hide Validate, Has, EmitFrame, PatternFlags, ToU32;
  }

  /** When the client sends, for every pattern and geometry, and why it does not. */
  lemma EmitAcceptsIff(attached: bool, sameEpoch: bool, budget: u32, slotSize: u32, full: bool,
                       handle: u32, q: Pattern, more: bool, kind: u32, corr: u64, n: nat)
    ensures var v := EmitVerdict(attached, sameEpoch, budget, slotSize, full,
                                 EmitFrame(handle, PatternFlags(q, more), kind, corr, n), n);
            var fits := n > 0 ==> n <= budget && 64 + n <= slotSize;
            var valid := n <= 0x10_0000 && (q.Notification? <==> corr == 0) &&
                         (more ==> n > 0 && (q.Request? || q.Reply?));
            (v == None <==> attached && fits && sameEpoch && !full && slotSize >= 64 && valid) &&
            (v == Some(ErrPayload) <==> attached && !fits) &&
            (v == Some(ErrEpoch) <==> attached && fits && !sameEpoch) &&
            (v == Some(ErrWouldBlock) <==> attached && fits && sameEpoch && full) &&
            (v == Some(ErrProtocol) <==>
               !attached || (fits && sameEpoch && !full && !(slotSize >= 64 && valid)))
  {
    hide Validate, Has, EmitFrame, PatternFlags, ToU32;
    SizeTestIsExact(n, budget, slotSize);
    if n < TWO32 {
      EmitFrameValidIff(handle, q, more, kind, corr, n);
    }
  }

  /** Setting the more flag on a pattern. */
  lemma MoreFlag()
    ensures Or(F_REQUEST, F_MORE) == PatternFlags(Request, true)
    ensures Or(F_REPLY, F_MORE) == PatternFlags(Reply, true)
    ensures F_REQUEST == PatternFlags(Request, false) && F_REPLY == PatternFlags(Reply, false)
  {
    assert And(F_REQUEST, F_MORE) == 0 && And(F_REPLY, F_MORE) == 0;
  }

  /** The guards of the sending operations, ahead of `emit`. */
  predicate Sendable(corr: u64, n: nat, more: bool) { corr != 0 && (more ==> n > 0) }

  /** A slot that carries this frame and payload. */
  ghost predicate Carries(slot: Slot, f: Frame, payload: seq<byte>)
  {
    HDR_LEN + |payload| <= |slot| && slot[..HDR_LEN] == HeaderBytes(f) &&
    slot[HDR_LEN..HDR_LEN + |payload|] == payload
  }

  /** The slice bounds `Poll` computes do not wrap around. */
  predicate SliceSafe(f: Frame, slotSize: u32)
  {
    Has(f.hdrFlags, F_INLINE) && f.payloadLen > 0 && Add64(f.payloadRef, f.payloadLen) <= slotSize
    ==> f.payloadRef + f.payloadLen <= slotSize
  }

  /** What a poll makes of a slot: nothing, when it does not decode; an event; or a slice out of
      range, at which the program stops. */
  datatype Sight = Nothing | Shown(ev: Event) | Faults

  function ReadSlot(slot: Slot, slotSize: u32): Sight
  {
    match Decode(slot)
    case Err(_) => Nothing
    case Ok(f) =>
      var end := Add64(f.payloadRef, f.payloadLen);
      if !(Has(f.hdrFlags, F_INLINE) && f.payloadLen > 0 && end <= slotSize) then Shown(Event(f, []))
      else if f.payloadRef <= end <= |slot| then Shown(Event(f, slot[f.payloadRef..end]))
      else Faults
  }

  /** A slot faults exactly when it decodes and its bounds wrap. */
  lemma FaultsIff(slot: Slot, slotSize: u32)
    requires |slot| == slotSize
    ensures ReadSlot(slot, slotSize).Faults? <==> Decode(slot).Ok? && !SliceSafe(Decode(slot).value, slotSize)
  {
    hide Decode, Has;
  }

  /** The wrapping bound of `Poll` lets a bad slice through exactly for the references within a
      slot of 2^64. */
  lemma SliceUnsafeIff(f: Frame, slotSize: u32)
    requires f.payloadLen > 0 && Has(f.hdrFlags, F_INLINE)
    ensures !SliceSafe(f, slotSize) <==> TWO64 <= f.payloadRef + f.payloadLen <= TWO64 + slotSize
  {
    hide Has;
  }

  /** What a poll shows of every frame: the payload of an inline one, wherever it lies in the slot;
      nothing for an arena reference, for no payload, or for one that does not end in the slot. */
  lemma PollShows(slot: Slot, slotSize: u32)
    requires |slot| == slotSize && Decode(slot).Ok?
    ensures var f := Decode(slot).value;
            var inline := Has(f.hdrFlags, F_INLINE) && f.payloadLen > 0;
            var end := f.payloadRef + f.payloadLen;
            if inline && end <= slotSize then
              ReadSlot(slot, slotSize) == Shown(Event(f, slot[f.payloadRef..end]))
            else if inline && TWO64 <= end <= TWO64 + slotSize then ReadSlot(slot, slotSize) == Faults
            else ReadSlot(slot, slotSize) == Shown(Event(f, []))
  {
    hide Decode, Has;
  }

  /** An arena frame is not an inline one. */
  lemma ArenaIsNotInline(f: Frame)
    requires Validate(f).None? && Has(f.hdrFlags, F_ARENA)
    ensures !Has(f.hdrFlags, F_INLINE)
  {
    var b := BitsOfWord(f.hdrFlags);
    ValidateBits(f, b);
    FlagTests(b);
    hide Validate, WordOf, And;
  }

  /** A slot that carries the header of a frame and zeroes. */
  function SlotWith(f: Frame, slotSize: u32): (slot: Slot)
    requires HDR_LEN <= slotSize
    ensures |slot| == slotSize && slot[..HDR_LEN] == HeaderBytes(f)
  {
    HeaderBytes(f) + seq(slotSize - HDR_LEN, _ => 0)
  }

  lemma InlineRequestIsValid(ref: u64)
    ensures var f := Frame(0x9, WIRE_VERSION, 256, 0, 1, 0, 0, ref, 2, 0, 0, 0);
            Validate(f).None? && Has(f.hdrFlags, F_INLINE) && Decode(SlotWith(f, 128)) == Ok(f)
  {
    var f := Frame(0x9, WIRE_VERSION, 256, 0, 1, 0, 0, ref, 2, 0, 0, 0);
    WellFormedIsAccepted(f, Inline, Request, false, false);
    hide Validate, Has, HeaderBytes, RawFrame, SlotWith;
    DecodeEncode(f, SlotWith(f, 128));
  }

  /** Such a frame exists: it is valid, it decodes, and polling it faults. */
  lemma PollCanFault()
    ensures var f := Frame(0x9, WIRE_VERSION, 256, 0, 1, 0, 0, TWO64 - 1, 2, 0, 0, 0);
            Validate(f).None? && ReadSlot(SlotWith(f, 128), 128) == Faults
  {
    InlineRequestIsValid(TWO64 - 1);
    hide Validate, Has, Decode, SlotWith;
  }

  /** And one whose payload begins inside the header, which a poll hands out although the
      placement check refuses it. */
  lemma PollCanShowHeader()
    ensures var f := Frame(0x9, WIRE_VERSION, 256, 0, 1, 0, 0, 0, 2, 0, 0, 0);
            CheckPlacement(f, 128, 0).Some? &&
            ReadSlot(SlotWith(f, 128), 128) == Shown(Event(f, HeaderBytes(f)[..2]))
  {
    InlineRequestIsValid(0);
    var f := Frame(0x9, WIRE_VERSION, 256, 0, 1, 0, 0, 0, 2, 0, 0, 0);
    hide Validate, Has, Decode, HeaderBytes;
    assert SlotWith(f, 128)[0..2] == SlotWith(f, 128)[..HDR_LEN][..2];
  }

  /** Placement-checked frames are slice-safe. For those that are merely slice-safe,
      the check is stricter by exactly one condition: the payload must lie past the header. */
  lemma PlacementVersusPoll(f: Frame, slotSize: u32, arenaSize: u64)
    requires Validate(f).None? && f.payloadLen > 0 && Has(f.hdrFlags, F_INLINE)
    ensures CheckPlacement(f, slotSize, arenaSize).None? <==>
            SliceSafe(f, slotSize) && Add64(f.payloadRef, f.payloadLen) <= slotSize && HDR_LEN <= f.payloadRef
  {
    PlacementInSlot(f, slotSize, arenaSize);
    hide Validate, Has, CheckPlacement;
  }

  /** A frame and payload `emit` agreed to publish. */
  ghost predicate Emittable(f: Frame, payload: seq<byte>, slotSize: u32)
  {
    Validate(f).None? && f.payloadLen == |payload| && HDR_LEN + |payload| <= slotSize &&
    f.payloadRef == (if payload == [] then 0 else HDR_LEN) &&
    (Has(f.hdrFlags, F_INLINE) <==> payload != [])
  }

  /** Reading a slot that carries an emitted frame returns that frame and payload. */
  lemma ReadBack(slot: Slot, f: Frame, payload: seq<byte>, slotSize: u32)
    requires |slot| == slotSize && Emittable(f, payload, slotSize) && Carries(slot, f, payload)
    ensures ReadSlot(slot, slotSize) == Shown(Event(f, payload))
  {
    hide Validate, Has, HeaderBytes, RawFrame;
    DecodeEncode(f, slot);
  }

  /** What a published message is: pattern flags, kind, correlation and payload. */
  lemma VerdictEmittable(attached: bool, sameEpoch: bool, budget: u32, slotSize: u32, full: bool,
                         handle: u32, flags: u16, kind: u32, corr: u64, payload: seq<byte>)
    requires flags < 0x100 && !Has(flags, F_INLINE)
    requires EmitVerdict(attached, sameEpoch, budget, slotSize, full,
                         EmitFrame(handle, flags, kind, corr, |payload|), |payload|).None?
    ensures Emittable(EmitFrame(handle, flags, kind, corr, |payload|), payload, slotSize)
  {
    SizeTestIsExact(|payload|, budget, slotSize);
    OrInline(flags);
    hide Has, Validate, Or;
  }

  class Client {
    const attached: bool          // a control region is mapped
    const handle: u32
    const slotSize: u32
    const inlineBudget: u32
    const attachedEpoch: u64
    const outbound: Ring
    const inbound: Ring
    var hostEpoch: u64            // the control region's epoch word, written by the host
    var pendingRead: bool

    constructor (outbound: Ring, inbound: Ring, handle: u32, budget: u32, epoch: u64)
      ensures this.outbound == outbound && this.inbound == inbound && this.handle == handle
      ensures slotSize == outbound.slotSize && inlineBudget == budget && attachedEpoch == epoch
      ensures attached && !pendingRead && hostEpoch == epoch
    {
      attached, this.handle := true, handle;
      slotSize, inlineBudget := outbound.slotSize, budget;
      attachedEpoch, hostEpoch := epoch, epoch;
      this.outbound, this.inbound := outbound, inbound;
      pendingRead := false;
    }

    ghost predicate Valid()
      reads this, outbound.mem, inbound.mem
    {
      outbound.mem != inbound.mem && outbound.Valid() && inbound.Valid() &&
      slotSize == outbound.slotSize == inbound.slotSize &&
      (pendingRead ==> inbound.Contents() != [])
    }

    predicate EpochChanged()
      reads this
    {
      attached && hostEpoch != attachedEpoch
    }

    method Emit(flags: u16, kind: u32, corr: u64, payload: seq<byte>) returns (err: Option<SendError>)
      requires Valid() && flags < 0x100
      modifies outbound.mem
      ensures Valid()
      ensures err == EmitVerdict(attached, !EpochChanged(), inlineBudget, slotSize,
                                 old(|outbound.Contents()| == outbound.capacity),
                                 EmitFrame(handle, flags, kind, corr, |payload|), |payload|)
      ensures err.None? ==> Appended(old(outbound.Contents()), outbound.Contents(),
                                     EmitFrame(handle, flags, kind, corr, |payload|), payload)
      ensures err.Some? ==> outbound.mem[..] == old(outbound.mem[..])
    {
      if !attached {
        return Some(ErrProtocol);
      }
      if |payload| > 0 && (ToU32(|payload|) > inlineBudget || HDR_LEN + |payload| > slotSize) {
        return Some(ErrPayload);
      }
      if EpochChanged() {
        return Some(ErrEpoch);
      }
      var slot := outbound.ProduceBegin();
      if slot.None? {
        return Some(ErrWouldBlock);
      }
      var f := EmitFrame(handle, flags, kind, corr, |payload|);
      ghost var before := outbound.mem[..];
      SlotInside(outbound.G(), HeadOf(before));
      var n := Encode(f, outbound.mem, slot.value, slotSize);
      if n != HDR_LEN {
        return Some(ErrProtocol);
      }
      FreeSlotIsPrivate(outbound.G(), before, outbound.mem[..]);
      SizeTestIsExact(|payload|, inlineBudget, slotSize);
      CopyAndCommit(slot.value, f, payload);
      err := None;
    }

    /** A notification: no correlation, and never a fragment. */
    method Publish(kind: u32, payload: seq<byte>) returns (err: Option<SendError>)
      requires Valid()
      modifies outbound.mem
      ensures Valid()
      ensures err == EmitVerdict(attached, !EpochChanged(), inlineBudget, slotSize,
                                 old(|outbound.Contents()| == outbound.capacity),
                                 EmitFrame(handle, PatternFlags(Notification, false), kind, 0, |payload|), |payload|)
      ensures err.None? ==>
        Appended(old(outbound.Contents()), outbound.Contents(),
                 EmitFrame(handle, PatternFlags(Notification, false), kind, 0, |payload|), payload)
      ensures err.Some? ==> outbound.mem[..] == old(outbound.mem[..])
    {
      hide EmitVerdict, EmitFrame, Appended, Sound, Queue;
      err := Emit(F_NOTIFICATION, kind, 0, payload);
    }

    method RequestFragment(kind: u32, corr: u64, payload: seq<byte>, more: bool) returns (err: Option<SendError>)
      requires Valid()
      modifies outbound.mem
      ensures Valid()
      ensures err == if !Sendable(corr, |payload|, more) then Some(ErrProtocol)
                     else EmitVerdict(attached, !EpochChanged(), inlineBudget, slotSize,
                                      old(|outbound.Contents()| == outbound.capacity),
                                      EmitFrame(handle, PatternFlags(Request, more), kind, corr, |payload|), |payload|)
      ensures err.None? ==>
        Appended(old(outbound.Contents()), outbound.Contents(),
                 EmitFrame(handle, PatternFlags(Request, more), kind, corr, |payload|), payload)
      ensures err.Some? ==> outbound.mem[..] == old(outbound.mem[..])
    {
      MoreFlag();
      hide EmitVerdict, EmitFrame, Appended, PatternFlags, Or, Sound, Queue;
      if corr == 0 {
        return Some(ErrProtocol);
      }
      var flags := F_REQUEST;
      if more {
        if |payload| == 0 {
          return Some(ErrProtocol);
        }
        flags := Or(flags, F_MORE);
      }
      err := Emit(flags, kind, corr, payload);
    }

    method ReplyFragment(kind: u32, corr: u64, payload: seq<byte>, more: bool) returns (err: Option<SendError>)
      requires Valid()
      modifies outbound.mem
      ensures Valid()
      ensures err == if !Sendable(corr, |payload|, more) then Some(ErrProtocol)
                     else EmitVerdict(attached, !EpochChanged(), inlineBudget, slotSize,
                                      old(|outbound.Contents()| == outbound.capacity),
                                      EmitFrame(handle, PatternFlags(Reply, more), kind, corr, |payload|), |payload|)
      ensures err.None? ==>
        Appended(old(outbound.Contents()), outbound.Contents(),
                 EmitFrame(handle, PatternFlags(Reply, more), kind, corr, |payload|), payload)
      ensures err.Some? ==> outbound.mem[..] == old(outbound.mem[..])
    {
      MoreFlag();
      hide EmitVerdict, EmitFrame, Appended, PatternFlags, Or, Sound, Queue;
      if corr == 0 {
        return Some(ErrProtocol);
      }
      var flags := F_REPLY;
      if more {
        if |payload| == 0 {
          return Some(ErrProtocol);
        }
        flags := Or(flags, F_MORE);
      }
      err := Emit(flags, kind, corr, payload);
    }

    method Cancel(kind: u32, corr: u64) returns (err: Option<SendError>)
      requires Valid()
      modifies outbound.mem
      ensures Valid()
      ensures err == if !Sendable(corr, 0, false) then Some(ErrProtocol)
                     else EmitVerdict(attached, !EpochChanged(), inlineBudget, slotSize,
                                      old(|outbound.Contents()| == outbound.capacity),
                                      EmitFrame(handle, PatternFlags(Pattern.Cancel, false), kind, corr, 0), 0)
      ensures err.None? ==>
        Appended(old(outbound.Contents()), outbound.Contents(),
                 EmitFrame(handle, PatternFlags(Pattern.Cancel, false), kind, corr, 0), [])
      ensures err.Some? ==> outbound.mem[..] == old(outbound.mem[..])
    {
      hide EmitVerdict, EmitFrame, Appended, Sound, Queue;
      if corr == 0 {
        return Some(ErrProtocol);
      }
      err := Emit(F_CANCEL, kind, corr, []);
    }

    /** The tail of `Emit`: with the header in place, copy the payload and publish. */
    method CopyAndCommit(slot: nat, ghost f: Frame, payload: seq<byte>)
      requires Valid() && |outbound.Contents()| < outbound.capacity
      requires slot == SlotOffset(outbound.G(), HeadOf(outbound.mem[..]))
      requires HDR_LEN + |payload| <= slotSize && slot + slotSize <= outbound.mem.Length
      requires outbound.mem[slot..slot + HDR_LEN] == HeaderBytes(f)
      modifies outbound.mem
      ensures Valid() && Appended(old(outbound.Contents()), outbound.Contents(), f, payload)
    {
      hide HeaderBytes, And, Get, Put, Times;
      ghost var before := outbound.mem[..];
      CopyPayload(slot + HDR_LEN, payload);
      ghost var filled := outbound.mem[..];
      FreeSlotIsPrivate(outbound.G(), before, filled);
      assert filled[slot..slot + HDR_LEN] == before[slot..slot + HDR_LEN];
      SlotCarries(outbound.G(), before, filled, f, payload);
      outbound.ProduceCommit();
    }

    /** Copies the payload to its place in the outbound bytes, and touches no other. */
    method CopyPayload(at: nat, payload: seq<byte>)
      requires at + |payload| <= outbound.mem.Length
      modifies outbound.mem
      ensures forall k :: 0 <= k < |payload| ==> outbound.mem[at + k] == payload[k]
      ensures forall k :: 0 <= k < outbound.mem.Length && !(at <= k < at + |payload|) ==>
                outbound.mem[k] == old(outbound.mem[k])
    {
      for i := 0 to |payload|
        invariant forall k :: 0 <= k < i ==> outbound.mem[at + k] == payload[k]
        invariant forall k :: 0 <= k < outbound.mem.Length && !(at <= k < at + i) ==>
                    outbound.mem[k] == old(outbound.mem[k])
      {
        outbound.mem[at + i] := payload[i];
      }
    }

    /** Takes the next event. The payload stays readable until the next call. `Faults` stands for
        the end of the program at a slice out of range. */
    method Poll() returns (seen: Sight, err: Option<SendError>)
      requires Valid()
      modifies this`pendingRead, inbound.mem
      ensures Valid()
      ensures err == (if !attached then Some(ErrProtocol) else if EpochChanged() then Some(ErrEpoch) else None)
      ensures err.Some? ==>
        seen.Nothing? && pendingRead == old(pendingRead) && inbound.mem[..] == old(inbound.mem[..])
      ensures err.None? ==>
        PollResult(seen, inbound.Contents(), pendingRead) ==
        PollStep(old(inbound.Contents()), old(pendingRead), slotSize)
    {
      hide ReadSlot, Queue, Sound, Used, SlotRun, HeadOf, TailOf, Ring.Valid;
      if !attached {
        return Nothing, Some(ErrProtocol);
      }
      if EpochChanged() {
        return Nothing, Some(ErrEpoch);
      }
      if pendingRead {
        inbound.ConsumeCommit();
        pendingRead := false;
      }
      seen := TakeFront();
      err := None;
    }

    /** The rest of `Poll`, once no slot is held. */
    method TakeFront() returns (seen: Sight)
      requires Valid() && !pendingRead
      modifies this`pendingRead, inbound.mem
      ensures Valid()
      ensures PollResult(seen, inbound.Contents(), pendingRead) ==
              PollStep(old(inbound.Contents()), false, slotSize)
    {
      hide ReadSlot, Queue, Sound;
      var slot := inbound.ConsumeBegin();
      if slot.None? {
        return Nothing;
      }
      var bytes := inbound.mem[slot.value..slot.value + slotSize];
      seen := ReadEvent(bytes);
      if seen.Nothing? {
        inbound.ConsumeCommit();
      } else if seen.Shown? {
        pendingRead := true;
      }
    }

    /** Decodes a slot and slices out its inline payload. */
    method ReadEvent(slot: Slot) returns (seen: Sight)
      requires |slot| == slotSize
      ensures seen == ReadSlot(slot, slotSize)
    {
      hide Validate, RawFrame, Has;
      var decoded := Decode(slot);
      if decoded.Err? {
        return Nothing;
      }
      var f := decoded.value;
      var payload := [];
      if Has(f.hdrFlags, F_INLINE) && f.payloadLen > 0 && Add64(f.payloadRef, f.payloadLen) <= slotSize {
        var end := Add64(f.payloadRef, f.payloadLen);
        if f.payloadRef > end || end > |slot| {
          return Faults;
        }
        payload := slot[f.payloadRef..end];
      }
      seen := Shown(Event(f, payload));
    }
  }

  /** One more slot, carrying this frame and payload. */
  ghost predicate Appended(q: seq<Slot>, q': seq<Slot>, f: Frame, payload: seq<byte>)
  {
    |q'| == |q| + 1 && q'[..|q|] == q && Carries(q'[|q|], f, payload)
  }

  lemma SlotCarries(g: Geometry, before: Image, m: Image, f: Frame, payload: seq<byte>)
    requires Mapped(g, before) && Mapped(g, m) && |m| == |before| && HeadOf(m) == HeadOf(before)
    requires HDR_LEN + |payload| <= g.slotSize
    requires var off := SlotOffset(g, HeadOf(m));
             off + g.slotSize <= |m| && m[off..off + HDR_LEN] == before[off..off + HDR_LEN] == HeaderBytes(f) &&
             (forall k :: 0 <= k < |payload| ==> m[off + HDR_LEN + k] == payload[k])
    ensures Carries(SlotOf(g, m, HeadOf(m)), f, payload)
  {
    var off := SlotOffset(g, HeadOf(m));
    var s := SlotOf(g, m, HeadOf(m));
    hide HeaderBytes, Get, Put, Legal;
    SubSlice(m, off, off + g.slotSize, 0, HDR_LEN);
    assert s[HDR_LEN..HDR_LEN + |payload|] == payload;
  }

  datatype PollResult = PollResult(seen: Sight, q: seq<Slot>, pending: bool)

  /** The slots not yet handed out. */
  ghost function Fresh(q: seq<Slot>, pending: bool): seq<Slot>
    requires pending ==> q != []
  {
    if pending then q[1..] else q
  }

  /** One `Poll` on the queue of inbound slots. */
  ghost function PollStep(q: seq<Slot>, pending: bool, slotSize: u32): PollResult
    requires pending ==> q != []
  {
    var rest := Fresh(q, pending);
    if rest == [] then PollResult(Nothing, [], false)
    else
      match ReadSlot(rest[0], slotSize)
      case Nothing => PollResult(Nothing, rest[1..], false)
      case Faults => PollResult(Faults, rest, false)
      case Shown(ev) => PollResult(Shown(ev), rest, true)
  }
}
