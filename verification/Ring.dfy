/** The ring object: a view onto mapped bytes with the operations of one producer
    and one consumer. Slots are returned as byte offsets into the mapping. */
module Rings {
  import opened Words
  import opened Bits
  import opened RingLayout
  import opened Wrappers

  class Ring {
    const mem: array<byte>
    const slotSize: u32
    const capacity: u32
    const mask: u32
    const slotsOff: u32

    ghost predicate Valid()
      reads mem
    {
      mask == capacity - 1 && slotsOff == HDR_BYTES && Sound(G(), mem[..])
    }

    function G(): Geometry { Geometry(slotSize, capacity) }

    /** The published slots, oldest first. */
    ghost function Contents(): (q: seq<Slot>)
      requires Valid()
      reads mem
    {
      Queue(G(), mem[..])
    }

    constructor (mem: array<byte>, slotSize: u32, capacity: u32)
      requires capacity > 0
      ensures this.mem == mem && this.slotSize == slotSize && this.capacity == capacity
      ensures this.mask == capacity - 1 && this.slotsOff == HDR_BYTES
    {
      this.mem := mem;
      this.slotSize := slotSize;
      this.capacity := capacity;
      this.mask := capacity - 1;
      this.slotsOff := HDR_BYTES;
    }

    /** A 64-bit atomic load, and the store of a counter word. */
    method Load(off: nat) returns (v: u64)
      requires off + 8 <= mem.Length
      ensures v == U64At(mem[..], off)
    {
      v := U64At(mem[..], off);
    }

    method SlotAt(index: u64) returns (off: nat)
      requires Valid()
      ensures off == SlotOffset(G(), index)
    {
      TimesIs(slotSize, And(index, mask));
      off := slotsOff + And(index, mask) * slotSize;
    }

    method ProduceBegin() returns (slot: Option<nat>)
      requires Valid()
      ensures slot.None? <==> |Contents()| == capacity
      ensures slot.Some? ==> slot.value == SlotOffset(G(), HeadOf(mem[..]))
    {
      var head := Load(OFF_HEAD);
      var tail := Load(OFF_TAIL);
      if Sub64(head, tail) >= capacity {
        return None;
      }
      var off := SlotAt(head);
      slot := Some(off);
    }

    method ProduceCommit()
      requires Valid() && |Contents()| < capacity
      modifies mem
      ensures Valid()
      ensures Contents() == old(Contents()) + [old(SlotOf(G(), mem[..], HeadOf(mem[..])))]
      ensures HeadOf(mem[..]) == Add64(old(HeadOf(mem[..])), 1)
    {
      var head := Load(OFF_HEAD);
      Publish(G(), mem[..]);
      Store(mem, OFF_HEAD, Add64(head, 1), 8);
    }

    method ConsumeBegin() returns (slot: Option<nat>)
      requires Valid()
      ensures slot.None? <==> Contents() == []
      ensures slot.Some? ==> slot.value == SlotOffset(G(), TailOf(mem[..]))
      ensures slot.Some? ==> slot.value + slotSize <= mem.Length
      ensures slot.Some? ==> mem[slot.value..slot.value + slotSize] == Contents()[0]
    {
      var tail := Load(OFF_TAIL);
      var head := Load(OFF_HEAD);
      if head == tail {
        return None;
      }
      var off := SlotAt(tail);
      slot := Some(off);
      SlotInside(G(), tail);
      FrontIsTailSlot(G(), mem[..]);
      assert mem[off..off + slotSize] == mem[..][off..off + slotSize];
    }

    method ConsumeCommit()
      requires Valid() && |Contents()| > 0
      modifies mem
      ensures Valid() && Contents() == old(Contents())[1..]
      ensures HeadOf(mem[..]) == old(HeadOf(mem[..]))
    {
      var tail := Load(OFF_TAIL);
      Release(G(), mem[..]);
      Store(mem, OFF_TAIL, Add64(tail, 1), 8);
    }

    method Count() returns (n: u64)
      requires Valid()
      ensures n == |Contents()|
    {
      var head := Load(OFF_HEAD);
      var tail := Load(OFF_TAIL);
      n := Sub64(head, tail);
    }
  }

  /** The size of a ring, as signed 64-bit arithmetic computes it. */
  method RingBytes(g: Geometry) returns (need: nat)
    requires Legal(g)
    ensures need == Need(g) < 0x8000_0000_0000_0000
  {
    NeedFits(g);
    need := HDR_BYTES + g.slotSize * g.capacity;
  }

  /** Adopts a laid-out ring, after checking every geometry field against the mapping. */
  method AttachRing(mem: array<byte>) returns (r: Option<Ring>)
    ensures r.Some? <==> HeaderOk(mem[..])
    ensures r.Some? ==> fresh(r.value) && r.value.mem == mem && r.value.Valid()
    ensures r.Some? ==> r.value.G() == HeaderGeometry(mem[..])
  {
    if mem.Length < HDR_BYTES {
      return None;
    }
    var magic := U32At(mem[..], OFF_MAGIC);
    if magic != RING_MAGIC {
      return None;
    }
    var slot := U32At(mem[..], OFF_SLOT);
    var capv := U32At(mem[..], OFF_CAP);
    var mask := U32At(mem[..], OFF_MASK);
    var slotsOff := U32At(mem[..], OFF_SLOTS);
    if capv >= 2 { Pow2Test(capv); }
    if capv < 2 || And(capv, capv - 1) != 0 || slot == 0 || mask != capv - 1 || slotsOff != HDR_BYTES {
      return None;
    }
    var need := RingBytes(Geometry(slot, capv));
    if mem.Length < need {
      return None;
    }
    var head := U64At(mem[..], OFF_HEAD);
    var tail := U64At(mem[..], OFF_TAIL);
    if Sub64(head, tail) > capv {
      return None;
    }
    var ring := new Ring(mem, slot, capv);
    r := Some(ring);
  }

  ghost predicate CanInit(len: nat, slotSize: u32, capacity: u32)
  {
    Legal(Geometry(slotSize, capacity)) && Need(Geometry(slotSize, capacity)) <= len
  }

  /** Lays out an empty ring. */
  method InitRing(mem: array<byte>, slotSize: u32, capacity: u32) returns (r: Option<Ring>)
    modifies mem
    ensures r.Some? <==> CanInit(mem.Length, slotSize, capacity)
    ensures r.None? ==> mem[..] == old(mem[..])
    ensures r.Some? ==> fresh(r.value) && r.value.mem == mem && r.value.Valid()
    ensures r.Some? ==> r.value.G() == Geometry(slotSize, capacity) && r.value.Contents() == []
    ensures r.Some? ==> mem[Need(r.value.G())..] == old(mem[Need(Geometry(slotSize, capacity))..])
  {
    hide And, Get, Put, Laid, HeaderOk, HeaderGeometry, IsPow2, Times;
    if capacity > 0 { Pow2Test(capacity); }
    if capacity < 2 || And(capacity, capacity - 1) != 0 || slotSize == 0 {
      return None;
    }
    var need := RingBytes(Geometry(slotSize, capacity));
    if mem.Length < need {
      return None;
    }
    for i := 0 to need
      invariant forall k :: need <= k < mem.Length ==> mem[k] == old(mem[k])
    {
      mem[i] := 0;
    }
    ghost var zeroed := mem[..];
    LaidOut(zeroed, slotSize, capacity);
    WriteHeader(mem, slotSize, capacity);
    LaidKeepsRest(zeroed, slotSize, capacity, need);
    assert mem[need..] == mem[..][need..] == zeroed[need..] == old(mem[need..]);
    r := AttachRing(mem);
  }

  method WriteHeader(mem: array<byte>, slotSize: u32, capacity: u32)
    requires HDR_BYTES <= mem.Length && capacity > 0
    modifies mem
    ensures mem[..] == Laid(old(mem[..]), slotSize, capacity)
  {
    hide Put, Splice;
    Store(mem, OFF_SLOT, slotSize, 4);
    Store(mem, OFF_CAP, capacity, 4);
    Store(mem, OFF_MASK, capacity - 1, 4);
    Store(mem, OFF_SLOTS, HDR_BYTES, 4);
    Store(mem, OFF_HEAD, 0, 8);
    Store(mem, OFF_TAIL, 0, 8);
    Store(mem, OFF_MAGIC, RING_MAGIC, 4);
  }

  /** The image `InitRing` writes over `base`. */
  ghost function Laid(base: Image, slotSize: u32, capacity: u32): (m: Image)
    requires HDR_BYTES <= |base| && capacity > 0
    ensures |m| == |base| && m[HDR_BYTES..] == base[HDR_BYTES..]
  {
    var m1 := Splice(Splice(base, OFF_SLOT, Put(slotSize, 4)), OFF_CAP, Put(capacity, 4));
    var m2 := Splice(Splice(m1, OFF_MASK, Put(capacity - 1, 4)), OFF_SLOTS, Put(HDR_BYTES, 4));
    var m3 := Splice(Splice(m2, OFF_HEAD, Put(0, 8)), OFF_TAIL, Put(0, 8));
    Splice(m3, OFF_MAGIC, Put(RING_MAGIC, 4))
  }

  lemma LaidKeepsRest(base: Image, slotSize: u32, capacity: u32, need: nat)
    requires HDR_BYTES <= need <= |base| && capacity > 0
    ensures Laid(base, slotSize, capacity)[need..] == base[need..]
  {
    hide Splice;
    var m := Laid(base, slotSize, capacity);
    assert m[need..] == m[HDR_BYTES..][need - HDR_BYTES..] && base[need..] == base[HDR_BYTES..][need - HDR_BYTES..];
  }

  lemma LaidWords(base: Image, slotSize: u32, capacity: u32)
    requires HDR_BYTES <= |base| && capacity > 0
    ensures var m := Laid(base, slotSize, capacity);
            m[OFF_SLOT..OFF_SLOT + 4] == Put(slotSize, 4) &&
            m[OFF_CAP..OFF_CAP + 4] == Put(capacity, 4) &&
            m[OFF_MASK..OFF_MASK + 4] == Put(capacity - 1, 4) &&
            m[OFF_SLOTS..OFF_SLOTS + 4] == Put(HDR_BYTES, 4) &&
            m[OFF_HEAD..OFF_HEAD + 8] == Put(0, 8) &&
            m[OFF_TAIL..OFF_TAIL + 8] == Put(0, 8) &&
            m[OFF_MAGIC..OFF_MAGIC + 4] == Put(RING_MAGIC, 4)
  {
  }

  lemma LaidOut(base: Image, slotSize: u32, capacity: u32)
    requires HDR_BYTES <= |base| && CanInit(|base|, slotSize, capacity)
    ensures HeaderOk(Laid(base, slotSize, capacity))
    ensures HeaderGeometry(Laid(base, slotSize, capacity)) == Geometry(slotSize, capacity)
    ensures Used(Laid(base, slotSize, capacity)) == 0
  {
    LaidWords(base, slotSize, capacity);
    Spans();
    GetPut(slotSize, 4);
    GetPut(capacity, 4);
    GetPut(capacity - 1, 4);
    GetPut(HDR_BYTES, 4);
    GetPut(0, 8);
    GetPut(RING_MAGIC, 4);
  }
}
