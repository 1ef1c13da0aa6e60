/** The memory image of a single-producer/single-consumer ring: where its header
    words and slots live, and the queue of slots the image stands for. */
module RingLayout {
  import opened Words
  import opened Bits

  const RING_MAGIC: u32 := 0x474e4952
  const OFF_MAGIC := 0
  const OFF_SLOT := 4
  const OFF_CAP := 8
  const OFF_MASK := 12
  const OFF_SLOTS := 16
  const OFF_HEAD := 64
  const OFF_TAIL := 128
  const HDR_BYTES := 192

  type Image = seq<byte>
  type Slot = seq<byte>

  datatype Geometry = Geometry(slotSize: u32, capacity: u32)

  ghost predicate Legal(g: Geometry)
  {
    g.slotSize > 0 && g.capacity >= 2 && IsPow2(g.capacity)
  }

  /** Bytes of `count` slots, by repeated addition: slot addresses then stay linear
      for the solver. `TimesIs` gives the product. */
  function Times(size: nat, count: nat): nat
  {
    if count == 0 then 0 else size + Times(size, count - 1)
  }

  lemma {:induction false} TimesIs(size: nat, count: nat)
    ensures Times(size, count) == size * count
  {
    if count > 0 { TimesIs(size, count - 1); }
  }

  lemma {:induction false} TimesStep(size: nat, a: nat, b: nat)
    requires a < b
    ensures Times(size, a) + size <= Times(size, b)
  {
    if a + 1 < b { TimesStep(size, a, b - 1); }
  }

  function Need(g: Geometry): nat { HDR_BYTES + Times(g.slotSize, g.capacity) }

  function HeadOf(m: Image): u64
    requires HDR_BYTES <= |m|
  {
    U64At(m, OFF_HEAD)
  }

  function TailOf(m: Image): u64
    requires HDR_BYTES <= |m|
  {
    U64At(m, OFF_TAIL)
  }

  /** Occupied slots: the distance between two wrapping counters. */
  function Used(m: Image): u64
    requires HDR_BYTES <= |m|
  {
    Sub64(HeadOf(m), TailOf(m))
  }

  function SlotOffset(g: Geometry, index: u64): nat
    requires g.capacity > 0
  {
    HDR_BYTES + Times(g.slotSize, And(index, g.capacity - 1))
  }

  ghost predicate Mapped(g: Geometry, m: Image) { Legal(g) && Need(g) <= |m| }

  ghost predicate Sound(g: Geometry, m: Image) { Mapped(g, m) && Used(m) <= g.capacity }

  /** What `AttachRing` demands of the mapped bytes. */
  ghost predicate HeaderOk(m: Image)
  {
    HDR_BYTES <= |m| &&
    U32At(m, OFF_MAGIC) == RING_MAGIC &&
    U32At(m, OFF_MASK) == U32At(m, OFF_CAP) - 1 &&
    U32At(m, OFF_SLOTS) == HDR_BYTES &&
    Sound(HeaderGeometry(m), m)
  }

  function HeaderGeometry(m: Image): Geometry
    requires HDR_BYTES <= |m|
  {
    Geometry(U32At(m, OFF_SLOT), U32At(m, OFF_CAP))
  }

  /** The size computation stays inside a signed 64-bit integer, whatever the
      header says, because the capacity is a power of two. */
  lemma NeedFits(g: Geometry)
    requires Legal(g)
    ensures g.capacity <= 0x8000_0000
    ensures Need(g) == HDR_BYTES + g.slotSize * g.capacity < 0x8000_0000_0000_0000
    ensures TWO64 % g.capacity == 0
  {
    var k: nat :| g.capacity == Pow2(k);
    Powers();
    if k >= 32 {
      if k > 32 { Pow2Mono(32, k); }
      assert false;
    }
    if k < 31 { Pow2Mono(k, 31); }
    Pow2Divides(k, 64);
    TimesIs(g.slotSize, g.capacity);
    MulMono(g.slotSize, g.capacity, TWO32 - 1, 0x8000_0000);
  }

  lemma MulMono(a: nat, b: nat, x: nat, y: nat)
    requires a <= x && b <= y
    ensures a * b <= x * y
  {
    assert a * b <= a * y <= x * y;
  }

  lemma Powers()
    ensures Pow2(31) == 0x8000_0000 && Pow2(32) == TWO32 && Pow2(64) == TWO64
  {
    assert Pow2(8) == 0x100;
    assert Pow2(16) == 0x100 * Pow2(8) by { assert Pow2(12) == 16 * Pow2(8); }
    assert Pow2(24) == 0x100 * Pow2(16) by { assert Pow2(20) == 16 * Pow2(16); }
    assert Pow2(31) == 0x80 * Pow2(24) by { assert Pow2(28) == 16 * Pow2(24); }
    assert Pow2(40) == 0x200 * Pow2(31) by { assert Pow2(36) == 32 * Pow2(31); }
    assert Pow2(48) == 0x100 * Pow2(40) by { assert Pow2(44) == 16 * Pow2(40); }
    assert Pow2(56) == 0x100 * Pow2(48) by { assert Pow2(52) == 16 * Pow2(48); }
    assert Pow2(64) == 0x100 * Pow2(56) by { assert Pow2(60) == 16 * Pow2(56); }
  }

  /** Masking reduces an index modulo the capacity. */
  lemma MaskReduces(g: Geometry, index: u64)
    requires Legal(g)
    ensures And(index, g.capacity - 1) == index % g.capacity
  {
    var k: nat :| g.capacity == Pow2(k);
    AndMask(index, k);
  }

  /** Where the other end of the mapping looks for slot `index`. */
  lemma SlotLives(g: Geometry, index: u64)
    requires Legal(g)
    ensures SlotOffset(g, index) == 192 + (index % g.capacity) * g.slotSize
  {
    MaskReduces(g, index);
    TimesIs(g.slotSize, index % g.capacity);
  }

  /** The header that is accepted, word by word, at the offsets both ends of the mapping share. */
  lemma HeaderIs(m: Image)
    ensures HeaderOk(m) <==>
            192 <= |m| && U32At(m, 0) == 0x474e4952 &&
            var slot, capacity := U32At(m, 4), U32At(m, 8);
            slot > 0 && capacity >= 2 && IsPow2(capacity) && U32At(m, 12) == capacity - 1 && U32At(m, 16) == 192 &&
            192 + slot * capacity <= |m| && (U64At(m, 64) - U64At(m, 128)) % 0x1_0000_0000_0000_0000 <= capacity
  {
    if 192 <= |m| {
      TimesIs(U32At(m, 4), U32At(m, 8));
      WrapsModulo(U64At(m, 64), U64At(m, 128));
    }
  }

  /** Every slot lies inside the mapping and past the header. */
  lemma SlotInside(g: Geometry, index: u64)
    requires Legal(g)
    ensures HDR_BYTES <= SlotOffset(g, index)
    ensures SlotOffset(g, index) + g.slotSize <= Need(g)
  {
    MaskReduces(g, index);
    TimesStep(g.slotSize, index % g.capacity, g.capacity);
  }

  /** Indexes less than a capacity apart, counted modulo 2^64, name different residues. */
  lemma ResiduesDiffer(c: nat, i: u64, d: u64)
    requires 0 < d < c && TWO64 % c == 0
    ensures i % c != Add64(i, d) % c
  {
    var j := Add64(i, d);
    var wraps := if i + d < TWO64 then 0 else 1;
    var z := j / c - i / c + (TWO64 / c) * wraps;
    assert j == i + d - TWO64 * wraps;
    assert i % c == j % c ==> d == c * z by {
      assert TWO64 * wraps == c * (TWO64 / c * wraps) by {
        assert TWO64 == c * (TWO64 / c);
        MulAssoc(c, TWO64 / c, wraps);
      }
      assert i == c * (i / c) + i % c && j == c * (j / c) + j % c;
      MulSum(c, j / c, i / c, TWO64 / c * wraps);
    }
    NoMultipleBetween(c, z, d);
  }

  lemma MulAssoc(a: int, b: int, c: int)
    ensures (a * b) * c == a * (b * c)
  {
  }

  lemma MulSum(c: int, x: int, y: int, w: int)
    ensures c * (x - y + w) == c * x - c * y + c * w
  {
  }

  lemma NoMultipleBetween(c: nat, z: int, d: nat)
    requires 0 < d < c
    ensures d != c * z
  {
    assert z <= 0 ==> c * z <= 0;
    assert z >= 1 ==> c * z >= c;
  }

  /** Two different indexes less than a capacity apart own disjoint slots. */
  lemma SlotsDisjoint(g: Geometry, i: u64, d: u64)
    requires Legal(g) && 0 < d < g.capacity
    ensures var p, q := SlotOffset(g, i), SlotOffset(g, Add64(i, d));
            p + g.slotSize <= q || q + g.slotSize <= p
  {
    var j := Add64(i, d);
    NeedFits(g);
    MaskReduces(g, i);
    MaskReduces(g, j);
    ResiduesDiffer(g.capacity, i, d);
    if i % g.capacity < j % g.capacity {
      TimesStep(g.slotSize, i % g.capacity, j % g.capacity);
    } else {
      TimesStep(g.slotSize, j % g.capacity, i % g.capacity);
    }
  }

  function SlotOf(g: Geometry, m: Image, index: u64): (s: Slot)
    requires Mapped(g, m)
    ensures |s| == g.slotSize
  {
    SlotInside(g, index);
    m[SlotOffset(g, index)..SlotOffset(g, index) + g.slotSize]
  }

  /** The `n` slots from index `t` on. */
  function SlotRun(g: Geometry, m: Image, t: u64, n: u64): (q: seq<Slot>)
    requires Mapped(g, m)
    ensures |q| == n
    ensures forall i :: 0 <= i < n ==> q[i] == SlotOf(g, m, Add64(t, i))
  {
    if n == 0 then [] else SlotRun(g, m, t, n - 1) + [SlotOf(g, m, Add64(t, n - 1))]
  }

  /** The slots published and not yet released, oldest first. */
  function Queue(g: Geometry, m: Image): (q: seq<Slot>)
    requires Sound(g, m)
    ensures |q| == Used(m)
  {
    SlotRun(g, m, TailOf(m), Used(m))
  }

  /** `m'` differs from `m` at most in the bytes of one slot. */
  ghost predicate DiffersInSlot(g: Geometry, m: Image, m': Image, index: u64)
    requires g.capacity > 0
  {
    |m'| == |m| &&
    forall k :: 0 <= k < |m| && !(SlotOffset(g, index) <= k < SlotOffset(g, index) + g.slotSize) ==> m'[k] == m[k]
  }

  lemma SlotWriteKeepsWords(g: Geometry, m: Image, m': Image, index: u64)
    requires Mapped(g, m) && DiffersInSlot(g, m, m', index)
    ensures HeadOf(m') == HeadOf(m) && TailOf(m') == TailOf(m)
  {
    SlotInside(g, index);
    assert m'[OFF_HEAD..OFF_HEAD + 8] == m[OFF_HEAD..OFF_HEAD + 8];
    assert m'[OFF_TAIL..OFF_TAIL + 8] == m[OFF_TAIL..OFF_TAIL + 8];
  }

  lemma SlotWriteKeepsOthers(g: Geometry, m: Image, m': Image, index: u64, d: u64)
    requires Mapped(g, m) && 0 < d < g.capacity && DiffersInSlot(g, m, m', Add64(index, d))
    ensures SlotOf(g, m', index) == SlotOf(g, m, index)
  {
    SlotsDisjoint(g, index, d);
    SlotInside(g, index);
  }

  /** Two images with equal words and equal live slots stand for the same queue. */
  lemma QueuesAgree(g: Geometry, m: Image, m': Image)
    requires Sound(g, m) && Sound(g, m') && TailOf(m') == TailOf(m) && Used(m') == Used(m)
    requires forall i :: 0 <= i < Used(m) ==> SlotOf(g, m', Add64(TailOf(m), i)) == SlotOf(g, m, Add64(TailOf(m), i))
    ensures Queue(g, m') == Queue(g, m)
  {
  }

  /** The distance from the i-th live slot to the head. */
  lemma GapToHead(h: u64, t: u64, i: u64)
    requires i < Sub64(h, t)
    ensures Add64(Add64(t, i), Sub64(h, t) - i) == h
  {
  }

  /** Bytes of the free slot at the head are not part of the queue. */
  lemma FreeSlotIsPrivate(g: Geometry, m: Image, m': Image)
    requires Sound(g, m) && Used(m) < g.capacity && DiffersInSlot(g, m, m', HeadOf(m))
    ensures HeadOf(m') == HeadOf(m) && TailOf(m') == TailOf(m)
    ensures Sound(g, m') && Queue(g, m') == Queue(g, m)
  {
    SlotWriteKeepsWords(g, m, m', HeadOf(m));
    var n, t := Used(m), TailOf(m);
    forall i | 0 <= i < n
      ensures SlotOf(g, m', Add64(t, i)) == SlotOf(g, m, Add64(t, i))
    {
      GapToHead(HeadOf(m), t, i);
      SlotWriteKeepsOthers(g, m, m', Add64(t, i), n - i);
    }
    QueuesAgree(g, m, m');
  }

  /** The image after a 64-bit store to the head or to the tail word. */
  function StoreHead(m: Image, v: u64): (m': Image)
    requires HDR_BYTES <= |m|
    ensures |m'| == |m|
  {
    Splice(m, OFF_HEAD, Put(v, 8))
  }

  function StoreTail(m: Image, v: u64): (m': Image)
    requires HDR_BYTES <= |m|
    ensures |m'| == |m|
  {
    Splice(m, OFF_TAIL, Put(v, 8))
  }

  lemma StoredWords(m: Image, v: u64)
    requires HDR_BYTES <= |m|
    ensures HeadOf(StoreHead(m, v)) == v && TailOf(StoreHead(m, v)) == TailOf(m)
    ensures TailOf(StoreTail(m, v)) == v && HeadOf(StoreTail(m, v)) == HeadOf(m)
  {
    Spans();
    GetPut(v, 8);
    assert StoreHead(m, v)[OFF_TAIL..OFF_TAIL + 8] == m[OFF_TAIL..OFF_TAIL + 8];
    assert StoreTail(m, v)[OFF_HEAD..OFF_HEAD + 8] == m[OFF_HEAD..OFF_HEAD + 8];
  }

  /** A store to a header word leaves every slot alone. */
  lemma StoresKeepSlots(g: Geometry, m: Image, v: u64, index: u64)
    requires Mapped(g, m)
    ensures SlotOf(g, StoreHead(m, v), index) == SlotOf(g, m, index)
    ensures SlotOf(g, StoreTail(m, v), index) == SlotOf(g, m, index)
  {
    SlotInside(g, index);
  }

  lemma {:induction false} StoresKeepRun(g: Geometry, m: Image, v: u64, t: u64, n: u64)
    requires Mapped(g, m)
    ensures SlotRun(g, StoreHead(m, v), t, n) == SlotRun(g, m, t, n)
    ensures SlotRun(g, StoreTail(m, v), t, n) == SlotRun(g, m, t, n)
  {
    if n > 0 {
      StoresKeepRun(g, m, v, t, n - 1);
      StoresKeepSlots(g, m, v, Add64(t, n - 1));
    }
  }

  /** One step of the counters: head + 1 lies one further from the tail, tail + 1 one nearer. */
  lemma CounterSteps(h: u64, t: u64)
    ensures Sub64(h, t) + 1 < TWO64 ==> Sub64(Add64(h, 1), t) == Sub64(h, t) + 1
    ensures Sub64(h, t) > 0 ==> Sub64(h, Add64(t, 1)) == Sub64(h, t) - 1
    ensures Add64(t, Sub64(h, t)) == h
  {
  }

  lemma NextIndex(t: u64, i: u64)
    requires i + 1 < TWO64
    ensures Add64(Add64(t, 1), i) == Add64(t, i + 1)
  {
  }

  lemma {:induction false} RunTail(g: Geometry, m: Image, t: u64, n: u64)
    requires Mapped(g, m) && n > 0
    ensures SlotRun(g, m, t, n)[1..] == SlotRun(g, m, Add64(t, 1), n - 1)
  {
    if n > 1 {
      RunTail(g, m, t, n - 1);
      NextIndex(t, n - 2);
    }
  }

  /** Storing head + 1 appends the slot at the head to the queue. */
  lemma Publish(g: Geometry, m: Image)
    requires Sound(g, m) && Used(m) < g.capacity
    ensures var m' := StoreHead(m, Add64(HeadOf(m), 1));
            Sound(g, m') && Used(m') == Used(m) + 1 && TailOf(m') == TailOf(m) &&
            HeadOf(m') == Add64(HeadOf(m), 1) &&
            Queue(g, m') == Queue(g, m) + [SlotOf(g, m, HeadOf(m))]
  {
    var h, t := HeadOf(m), TailOf(m);
    StoredWords(m, Add64(h, 1));
    CounterSteps(h, t);
    StoresKeepRun(g, m, Add64(h, 1), t, Used(m) + 1);
  }

  /** Storing tail + 1 removes the front of the queue. */
  lemma Release(g: Geometry, m: Image)
    requires Sound(g, m) && Used(m) > 0
    ensures var m' := StoreTail(m, Add64(TailOf(m), 1));
            Sound(g, m') && Used(m') == Used(m) - 1 && HeadOf(m') == HeadOf(m) &&
            TailOf(m') == Add64(TailOf(m), 1) && Queue(g, m') == Queue(g, m)[1..]
  {
    var h, t := HeadOf(m), TailOf(m);
    StoredWords(m, Add64(t, 1));
    CounterSteps(h, t);
    StoresKeepRun(g, m, Add64(t, 1), Add64(t, 1), Used(m) - 1);
    RunTail(g, m, t, Used(m));
  }

  /** The front of a nonempty queue is the slot at the tail. */
  lemma FrontIsTailSlot(g: Geometry, m: Image)
    requires Sound(g, m) && Used(m) > 0
    ensures Queue(g, m)[0] == SlotOf(g, m, TailOf(m))
  {
    assert Add64(TailOf(m), 0) == TailOf(m);
  }
}
