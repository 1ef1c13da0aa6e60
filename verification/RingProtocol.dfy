/** One producer and one consumer on a shared ring image, interleaved one atomic
    step at a time: each loads its own index, loads the other's, works on its slot
    byte by byte, reloads its index and stores it. Either side may act on an index
    it loaded long ago. The history variables are purely local: `sent` is what the
    producer wrote, `taken` what the consumer read. */
module RingProtocol {
  import opened Words
  import opened RingLayout

  datatype Producer =
    | PIdle
    | PHead(h: u64)
    | PTail(h: u64, t: u64)
    | PSlot(h: u64)
    | PStore(h: u64)

  datatype Consumer =
    | CIdle
    | CTail(t: u64)
    | CHead(t: u64, h: u64)
    | CSlot(t: u64)
    | CStore(t: u64)

  /** Bytes read from a slot, by position. */
  type Reading = map<nat, byte>

  datatype State = State(
    m: Image,
    p: Producer,
    c: Consumer,
    draft: Slot,            // the slot the producer is filling, as it believes
    sent: seq<Slot>,        // published slots, oldest first
    got: Reading,           // bytes the consumer has read from the slot it holds
    taken: seq<Reading>)    // readings of the slots released so far

  datatype Action =
    | LoadOwnHead
    | LoadPeerTail
    | BeginProduce
    | WriteByte(k: nat, b: byte)
    | Abandon
    | ReloadHead
    | StoreNewHead
    | LoadOwnTail
    | LoadPeerHead
    | BeginConsume
    | ReadByte(k: nat)
    | ReloadTail
    | StoreNewTail

  ghost predicate Enabled(g: Geometry, s: State, a: Action)
  {
    Mapped(g, s.m) &&
    match a
    case LoadOwnHead => s.p.PIdle?
    case LoadPeerTail => s.p.PHead?
    case BeginProduce => s.p.PTail?
    case WriteByte(k, _) => s.p.PSlot? && k < g.slotSize && |s.draft| == g.slotSize
    case Abandon => s.p.PSlot?
    case ReloadHead => s.p.PSlot?
    case StoreNewHead => s.p.PStore?
    case LoadOwnTail => s.c.CIdle?
    case LoadPeerHead => s.c.CTail?
    case BeginConsume => s.c.CHead?
    case ReadByte(k) => s.c.CSlot? && k < g.slotSize
    case ReloadTail => s.c.CSlot?
    case StoreNewTail => s.c.CStore?
  }

  ghost function Step(g: Geometry, s: State, a: Action): State
    requires Enabled(g, s, a)
  {
    match a
    case LoadOwnHead => s.(p := PHead(HeadOf(s.m)))
    case LoadPeerTail => s.(p := PTail(s.p.h, TailOf(s.m)))
    case BeginProduce =>
      if Sub64(s.p.h, s.p.t) >= g.capacity then s.(p := PIdle)
      else s.(p := PSlot(s.p.h), draft := SlotOf(g, s.m, s.p.h))
    case WriteByte(k, b) =>
      SlotInside(g, s.p.h);
      s.(m := s.m[SlotOffset(g, s.p.h) + k := b], draft := s.draft[k := b])
    case Abandon => s.(p := PIdle)
    case ReloadHead => s.(p := PStore(HeadOf(s.m)))
    case StoreNewHead =>
      s.(m := StoreHead(s.m, Add64(s.p.h, 1)), p := PIdle, sent := s.sent + [s.draft])
    case LoadOwnTail => s.(c := CTail(TailOf(s.m)))
    case LoadPeerHead => s.(c := CHead(s.c.t, HeadOf(s.m)))
    case BeginConsume => s.(c := if s.c.h == s.c.t then CIdle else CSlot(s.c.t), got := map[])
    case ReadByte(k) =>
      SlotInside(g, s.c.t);
      s.(got := s.got[k := s.m[SlotOffset(g, s.c.t) + k]])
    case ReloadTail => s.(c := CStore(TailOf(s.m)))
    case StoreNewTail =>
      s.(m := StoreTail(s.m, Add64(s.c.t, 1)), c := CIdle, taken := s.taken + [s.got])
  }

  /** Both sides idle on a sound ring; `sent` starts as the slots already queued. */
  ghost predicate Start(g: Geometry, s: State)
  {
    Sound(g, s.m) && s.p.PIdle? && s.c.CIdle? && s.taken == [] && s.sent == Queue(g, s.m)
  }

  /** A reading shows bytes of this slot and nothing else. */
  ghost predicate Shows(r: Reading, slot: Slot)
  {
    forall k :: k in r ==> k < |slot| && r[k] == slot[k]
  }

  ghost predicate ProducerInv(g: Geometry, s: State)
    requires Sound(g, s.m)
  {
    match s.p
    case PIdle => true
    case PHead(h) => h == HeadOf(s.m)
    // The loaded tail may be stale; it can only make the ring look fuller than it is.
    case PTail(h, t) => h == HeadOf(s.m) && Used(s.m) <= Sub64(h, t) <= g.capacity
    case PSlot(h) => h == HeadOf(s.m) && Used(s.m) < g.capacity && s.draft == SlotOf(g, s.m, h)
    case PStore(h) => h == HeadOf(s.m) && Used(s.m) < g.capacity && s.draft == SlotOf(g, s.m, h)
  }

  ghost predicate ConsumerInv(g: Geometry, s: State)
    requires Sound(g, s.m) && |s.taken| <= |s.sent| && s.sent[|s.taken|..] == Queue(g, s.m)
  {
    match s.c
    case CIdle => true
    case CTail(t) => t == TailOf(s.m)
    // The loaded head may be stale; it can only make the ring look emptier than it is.
    case CHead(t, h) => t == TailOf(s.m) && Sub64(h, t) <= Used(s.m)
    case CSlot(t) => t == TailOf(s.m) && Used(s.m) > 0 && Shows(s.got, s.sent[|s.taken|])
    case CStore(t) => t == TailOf(s.m) && Used(s.m) > 0 && Shows(s.got, s.sent[|s.taken|])
  }

  ghost predicate Inv(g: Geometry, s: State)
  {
    Sound(g, s.m) && |s.taken| <= |s.sent| && s.sent[|s.taken|..] == Queue(g, s.m) &&
    (forall j :: 0 <= j < |s.taken| ==> Shows(s.taken[j], s.sent[j])) &&
    ProducerInv(g, s) && ConsumerInv(g, s)
  }

  lemma WriteStep(g: Geometry, s: State, k: nat, b: byte)
    requires Inv(g, s) && Enabled(g, s, WriteByte(k, b))
    ensures var s' := Step(g, s, WriteByte(k, b)); Inv(g, s') && Queue(g, s'.m) == Queue(g, s.m)
  {
    var s' := Step(g, s, WriteByte(k, b));
    SlotInside(g, s.p.h);
    FreeSlotIsPrivate(g, s.m, s'.m);
    assert SlotOf(g, s'.m, s.p.h) == s.draft[k := b];
  }

  lemma PublishStep(g: Geometry, s: State)
    requires Inv(g, s) && Enabled(g, s, StoreNewHead)
    ensures var s' := Step(g, s, StoreNewHead);
            Inv(g, s') && Queue(g, s'.m) == Queue(g, s.m) + [s.draft]
  {
    hide Queue, SlotOf, HeadOf, TailOf, Legal, SlotOffset;
    Publish(g, s.m);
    var s' := Step(g, s, StoreNewHead);
    assert s'.sent[|s.taken|..] == s.sent[|s.taken|..] + [s.draft];
  }

  lemma ReadStep(g: Geometry, s: State, k: nat)
    requires Inv(g, s) && Enabled(g, s, ReadByte(k))
    ensures var s' := Step(g, s, ReadByte(k));
            Inv(g, s') && s'.got[k] == Queue(g, s.m)[0][k] == s.sent[|s.taken|][k]
  {
    FrontIsTailSlot(g, s.m);
    SlotInside(g, s.c.t);
    assert s.sent[|s.taken|] == s.sent[|s.taken|..][0];
  }

  lemma ReleaseStep(g: Geometry, s: State)
    requires Inv(g, s) && Enabled(g, s, StoreNewTail)
    ensures var s' := Step(g, s, StoreNewTail);
            Inv(g, s') && Queue(g, s.m) != [] && Queue(g, s'.m) == Queue(g, s.m)[1..]
  {
    hide Queue, SlotOf, HeadOf, TailOf, Legal, SlotOffset;
    Release(g, s.m);
    var s' := Step(g, s, StoreNewTail);
    assert s'.sent[|s'.taken|..] == s.sent[|s.taken|..][1..];
    StoresKeepSlots(g, s.m, Add64(s.c.t, 1), HeadOf(s.m));
    if s.p.PTail? { StaleTail(s.p.h, TailOf(s.m), s.p.t); }
  }

  /** A stale tail overestimates even more once the tail moves on. */
  lemma StaleTail(h: u64, t: u64, stale: u64)
    requires 0 < Sub64(h, t) <= Sub64(h, stale)
    ensures Sub64(h, Add64(t, 1)) <= Sub64(h, stale)
  {
  }

  /** A bounded first-in first-out queue. */
  ghost predicate FifoStep(q: seq<Slot>, q': seq<Slot>, capacity: nat)
  {
    q' == q ||
    (|q| < capacity && |q'| == |q| + 1 && q'[..|q|] == q) ||
    (q != [] && q' == q[1..])
  }

  /** Every atomic step keeps the invariant and is a step, or a stutter, of the
      bounded queue; only the two index stores move the queue. */
  lemma StepRefinesFifo(g: Geometry, s: State, a: Action)
    requires Inv(g, s) && Enabled(g, s, a)
    ensures var s' := Step(g, s, a);
            Inv(g, s') && FifoStep(Queue(g, s.m), Queue(g, s'.m), g.capacity) &&
            Queue(g, s'.m) == (match a
                               case StoreNewHead => Queue(g, s.m) + [s.draft]
                               case StoreNewTail => Queue(g, s.m)[1..]
                               case _ => Queue(g, s.m))
  {
    hide Queue, SlotOf, HeadOf, TailOf, Legal, SlotOffset;
    match a
    case WriteByte(k, b) => WriteStep(g, s, k, b);
    case StoreNewHead => PublishStep(g, s);
    case ReadByte(k) => ReadStep(g, s, k);
    case StoreNewTail => ReleaseStep(g, s);
    case _ =>
  }

  /** "Full" and "empty" are true answers at the instant the peer's index is loaded,
      and a slot is granted only when one is free, or one is there to read. */
  lemma VerdictsAreSound(g: Geometry, s: State)
    requires Inv(g, s)
    ensures s.p.PHead? ==> (Sub64(s.p.h, TailOf(s.m)) >= g.capacity <==> |Queue(g, s.m)| == g.capacity)
    ensures s.c.CTail? ==> (HeadOf(s.m) == s.c.t <==> Queue(g, s.m) == [])
    ensures s.p.PTail? && Step(g, s, BeginProduce).p.PSlot? ==> |Queue(g, s.m)| < g.capacity
    ensures s.c.CHead? && Step(g, s, BeginConsume).c.CSlot? ==> Queue(g, s.m) != []
  {
  }

  ghost predicate Runs(g: Geometry, s: State, acts: seq<Action>, s': State)
    decreases |acts|
  {
    if acts == [] then s' == s
    else Enabled(g, s, acts[0]) && Runs(g, Step(g, s, acts[0]), acts[1..], s')
  }

  lemma {:induction false} RunKeepsInv(g: Geometry, s: State, acts: seq<Action>, s': State)
    requires Inv(g, s) && Runs(g, s, acts, s')
    ensures Inv(g, s')
    decreases |acts|
  {
    hide Inv, Step, Enabled;
    if acts != [] {
      StepRefinesFifo(g, s, acts[0]);
      RunKeepsInv(g, Step(g, s, acts[0]), acts[1..], s');
    }
  }

  /** Over every run: nothing is lost, duplicated, reordered or torn. The j-th slot
      the consumer released showed it only bytes of the j-th slot the producer sent;
      what is sent and not yet released is exactly the queue, at most a capacity. */
  lemma DeliveredInOrder(g: Geometry, s: State, acts: seq<Action>, s': State)
    requires Start(g, s) && Runs(g, s, acts, s')
    ensures Sound(g, s'.m) && |s'.taken| <= |s'.sent|
    ensures |s'.sent| - |s'.taken| == Used(s'.m) <= g.capacity
    ensures s'.sent[|s'.taken|..] == Queue(g, s'.m)
    ensures forall j :: 0 <= j < |s'.taken| ==> Shows(s'.taken[j], s'.sent[j])
    ensures s'.c.CSlot? ==> |s'.taken| < |s'.sent| && Shows(s'.got, s'.sent[|s'.taken|])
  {
    RunKeepsInv(g, s, acts, s');
  }

  /** While the consumer holds a slot, no run of producer steps changes a byte of it. */
  lemma {:induction false} BorrowedSlotIsStable(g: Geometry, s: State, acts: seq<Action>, s': State)
    requires Inv(g, s) && s.c.CSlot? && Runs(g, s, acts, s')
    requires forall a :: a in acts ==> !a.ReloadTail?
    ensures s'.c == s.c && Mapped(g, s'.m) && SlotOf(g, s'.m, s.c.t) == SlotOf(g, s.m, s.c.t)
    decreases |acts|
  {
    hide Queue, SlotOf, HeadOf, TailOf, Legal, SlotOffset, ProducerInv;
    if acts != [] {
      var n := Step(g, s, acts[0]);
      StepRefinesFifo(g, s, acts[0]);
      FrontIsTailSlot(g, s.m);
      FrontIsTailSlot(g, n.m);
      BorrowedSlotIsStable(g, n, acts[1..], s');
    }
  }
}
