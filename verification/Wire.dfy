/** The 64-byte frame header: validation, encoding and decoding. */
module Wire {
  import opened Words
  import opened Bits
  import opened Wrappers

  const WIRE_MAGIC: u32 := 0x30535542
  const WIRE_VERSION: u16 := 3
  const HDR_LEN := 64
  const MAX_PAYLOAD: u32 := 0x10_0000

  const F_INLINE: u16 := 0x0001
  const F_ARENA: u16 := 0x0002
  const F_NOTIFICATION: u16 := 0x0004
  const F_REQUEST: u16 := 0x0008
  const F_REPLY: u16 := 0x0010
  const F_CANCEL: u16 := 0x0020
  const F_CONTROL: u16 := 0x0040
  const F_MORE: u16 := 0x0080
  const PLACEMENT_MASK: u16 := 0x0003
  const PATTERN_MASK: u16 := 0x003c
  const KNOWN_MASK: u16 := 0x00ff

  const KIND_ERROR: u32 := 3
  const KIND_CAPABILITY_ABSENT: u32 := 4

  datatype Frame = Frame(
    hdrFlags: u16,
    wireVersion: u16,
    eventKind: u32,
    principalRef: u32,
    correlationId: u64,
    seqNo: u64,
    logicalTs: u64,
    payloadRef: u64,
    payloadLen: u32,
    srcHandle: u32,
    dstHandle: u32,
    generation: u32)

  datatype WireError = ErrShort | ErrMagic | ErrVersion | ErrFlags | ErrPayloadLen | ErrCorrelation

  predicate Has(flags: u16, bit: u16) { And(flags, bit) != 0 }

  predicate ExactlyOne(v: nat) { v != 0 && And(v, v - 1) == 0 }

  /** The header rules, in the order they apply. None means OK. */
  function Validate(f: Frame): Option<WireError>
  {
    var pattern := And(f.hdrFlags, PATTERN_MASK);
    var placement := And(f.hdrFlags, PLACEMENT_MASK);
    if f.wireVersion != WIRE_VERSION then Some(ErrVersion)
    else if f.hdrFlags - And(f.hdrFlags, KNOWN_MASK) != 0 then Some(ErrFlags)
    else if !ExactlyOne(pattern) then Some(ErrFlags)
    else if f.payloadLen > 0 && !ExactlyOne(placement) then Some(ErrFlags)
    else if f.payloadLen > 0 && f.payloadLen > MAX_PAYLOAD then Some(ErrPayloadLen)
    else if f.payloadLen == 0 && placement != 0 then Some(ErrFlags)
    else if f.payloadLen == 0 && f.payloadRef != 0 then Some(ErrPayloadLen)
    else if Has(f.hdrFlags, F_MORE) &&
            ((pattern != F_REQUEST && pattern != F_REPLY) || placement != F_INLINE || f.payloadLen == 0)
    then Some(ErrFlags)
    else if !Has(f.hdrFlags, F_ARENA) && f.generation != 0 then Some(ErrFlags)
    else if Has(f.hdrFlags, F_NOTIFICATION) then
      if f.correlationId != 0 then Some(ErrCorrelation) else None
    else if f.correlationId == 0 then Some(ErrCorrelation)
    else None
  }

  /** Bounds a payload reference against the live geometry. */
  function CheckPlacement(f: Frame, slotSize: u32, arenaSize: u64): Option<WireError>
  {
    if Validate(f).Some? then Validate(f)
    else if f.payloadLen == 0 then None
    else if Has(f.hdrFlags, F_INLINE) then
      var end := Add64(f.payloadRef, f.payloadLen);
      if end < f.payloadRef then Some(ErrPayloadLen)
      else if f.payloadRef < HDR_LEN || end > slotSize then Some(ErrPayloadLen)
      else None
    else if f.payloadLen > arenaSize then Some(ErrPayloadLen)
    else None
  }

  /** The wrapping sum never lets an inline payload escape its slot. */
  lemma PlacementInSlot(f: Frame, slotSize: u32, arenaSize: u64)
    requires Validate(f).None? && f.payloadLen > 0 && Has(f.hdrFlags, F_INLINE)
    ensures CheckPlacement(f, slotSize, arenaSize).None? <==>
            HDR_LEN <= f.payloadRef && f.payloadRef + f.payloadLen <= slotSize
  {
    hide Validate, Has;
  }

  /** The flag word read as independent choices. */
  datatype Placement = NoPayload | Inline | Arena

  datatype Pattern = Notification | Request | Reply | Cancel

  function PlacementBits(p: Placement): u16
  {
    match p case NoPayload => 0 case Inline => F_INLINE case Arena => F_ARENA
  }

  function PatternBits(p: Pattern): u16
  {
    match p
    case Notification => F_NOTIFICATION
    case Request => F_REQUEST
    case Reply => F_REPLY
    case Cancel => F_CANCEL
  }

  function FlagWord(p: Placement, q: Pattern, control: bool, more: bool): u16
  {
    PlacementBits(p) + PatternBits(q) + (if control then F_CONTROL else 0) + (if more then F_MORE else 0)
  }

  /** What a valid frame is, independently of the order of the tests. */
  ghost predicate WellFormed(f: Frame, p: Placement, q: Pattern, control: bool, more: bool)
  {
    f.wireVersion == WIRE_VERSION &&
    f.hdrFlags == FlagWord(p, q, control, more) &&
    (p.NoPayload? <==> f.payloadLen == 0) &&
    f.payloadLen <= MAX_PAYLOAD &&
    (p.NoPayload? ==> f.payloadRef == 0) &&
    (more ==> (q.Request? || q.Reply?) && p.Inline?) &&
    (!p.Arena? ==> f.generation == 0) &&
    (q.Notification? <==> f.correlationId == 0)
  }

  /** A flag word spelt out bit by bit; `high` is whatever lies above the known bits. */
  datatype FlagBits = FlagBits(
    inl: bool, arena: bool, notification: bool, request: bool,
    reply: bool, cancel: bool, control: bool, more: bool, high: nat)

  function I(b: bool): nat { if b then 1 else 0 }

  function Placed(b: FlagBits): nat { I(b.inl) + 2 * I(b.arena) }

  function Patterned(b: FlagBits): nat
  {
    4 * I(b.notification) + 8 * I(b.request) + 16 * I(b.reply) + 32 * I(b.cancel)
  }

  function WordOf(b: FlagBits): nat
  {
    Placed(b) + Patterned(b) + 64 * I(b.control) + 128 * I(b.more) + 0x100 * b.high
  }

  lemma Halve(w: nat) returns (b: bool, h: nat)
    ensures w == I(b) + 2 * h
  {
    b, h := w % 2 == 1, w / 2;
  }

  lemma BitsOfWord(w: nat) returns (b: FlagBits)
    ensures WordOf(b) == w
  {
    var b0, w1 := Halve(w);
    var b1, w2 := Halve(w1);
    var b2, w3 := Halve(w2);
    var b3, w4 := Halve(w3);
    var b4, w5 := Halve(w4);
    var b5, w6 := Halve(w5);
    var b6, w7 := Halve(w6);
    var b7, w8 := Halve(w7);
    b := FlagBits(b0, b1, b2, b3, b4, b5, b6, b7, w8);
  }

  /** One bit of a conjunction, where the mask has the bit and where it has not. */
  lemma Take(b: bool, x: nat, y: nat)
    ensures And(I(b) + 2 * x, 2 * y + 1) == I(b) + 2 * And(x, y)
  {
    var u, v := I(b) + 2 * x, 2 * y + 1;
    assert u / 2 == x && v / 2 == y;
    if u == 0 { assert And(x, y) == 0; }
  }

  lemma Drop(b: bool, x: nat, y: nat)
    ensures And(I(b) + 2 * x, 2 * y) == 2 * And(x, y)
  {
    var u, v := I(b) + 2 * x, 2 * y;
    assert u / 2 == x && v / 2 == y;
    if u == 0 || v == 0 { assert And(x, y) == 0; }
  }

  lemma AndOne(x: nat)
    ensures And(x, 1) == x % 2
  {
    if x > 0 { assert And(x / 2, 0) == 0; }
  }

  lemma AndZero(x: nat)
    ensures And(x, 0) == 0
  {
  }

  /** The flag word with its low two, and its low six, bits shifted out. */
  ghost function AbovePlacement(b: FlagBits): nat
  {
    I(b.notification) + 2 * I(b.request) + 4 * I(b.reply) + 8 * I(b.cancel) + 16 * AbovePattern(b)
  }

  ghost function AbovePattern(b: FlagBits): nat { I(b.control) + 2 * I(b.more) + 4 * b.high }

  /** A mask splits at the fields: placement bits first, the rest from `rest`. */
  lemma SplitPlacement(b: FlagBits, rest: nat)
    ensures And(WordOf(b), 4 * rest) == 4 * And(AbovePlacement(b), rest)
    ensures And(WordOf(b), 4 * rest + 1) == I(b.inl) + 4 * And(AbovePlacement(b), rest)
    ensures And(WordOf(b), 4 * rest + 2) == 2 * I(b.arena) + 4 * And(AbovePlacement(b), rest)
    ensures And(WordOf(b), 4 * rest + 3) == Placed(b) + 4 * And(AbovePlacement(b), rest)
  {
    hide And, I;
    var w := I(b.arena) + 2 * AbovePlacement(b);
    assert WordOf(b) == I(b.inl) + 2 * w;
    Drop(b.inl, w, 2 * rest);
    Take(b.inl, w, 2 * rest);
    Drop(b.inl, w, 2 * rest + 1);
    Take(b.inl, w, 2 * rest + 1);
    Drop(b.arena, AbovePlacement(b), rest);
    Take(b.arena, AbovePlacement(b), rest);
  }

  /** The pattern word with its low bits shifted out, one at a time. */
  lemma PatternShifts(b: FlagBits) returns (w1: nat, w2: nat, w3: nat)
    ensures AbovePlacement(b) == I(b.notification) + 2 * w1
    ensures w1 == I(b.request) + 2 * w2
    ensures w2 == I(b.reply) + 2 * w3
    ensures w3 == I(b.cancel) + 2 * AbovePattern(b)
  {
    w3 := I(b.cancel) + 2 * AbovePattern(b);
    w2 := I(b.reply) + 2 * w3;
    w1 := I(b.request) + 2 * w2;
  }

  lemma SplitPattern(b: FlagBits, rest: nat)
    ensures And(AbovePlacement(b), 16 * rest) == 16 * And(AbovePattern(b), rest)
    ensures 4 * And(AbovePlacement(b), 16 * rest + 15) == Patterned(b) + 64 * And(AbovePattern(b), rest)
  {
    var w1, w2, w3 := PatternShifts(b);
    hide And, I, AbovePlacement, AbovePattern;
    Drop(b.notification, w1, 8 * rest);
    Drop(b.request, w2, 4 * rest);
    Drop(b.reply, w3, 2 * rest);
    Drop(b.cancel, AbovePattern(b), rest);
    Take(b.notification, w1, 8 * rest + 7);
    Take(b.request, w2, 4 * rest + 3);
    Take(b.reply, w3, 2 * rest + 1);
    Take(b.cancel, AbovePattern(b), rest);
  }

  lemma PatternBit(b: FlagBits)
    ensures And(AbovePlacement(b), 1) == I(b.notification)
    ensures And(AbovePlacement(b), 2) == 2 * I(b.request)
    ensures And(AbovePlacement(b), 8) == 8 * I(b.cancel)
  {
    var w1, w2, w3 := PatternShifts(b);
    hide And, I, AbovePlacement, AbovePattern;
    Take(b.notification, w1, 0);
    AndZero(w1);
    Drop(b.notification, w1, 1);
    Take(b.request, w2, 0);
    AndZero(w2);
    Drop(b.notification, w1, 4);
    Drop(b.request, w2, 2);
    Drop(b.reply, w3, 1);
    Take(b.cancel, AbovePattern(b), 0);
    AndZero(AbovePattern(b));
  }

  lemma SplitTop(b: FlagBits)
    ensures And(AbovePattern(b), 2) == 2 * I(b.more)
    ensures And(AbovePattern(b), 3) == I(b.control) + 2 * I(b.more)
  {
    hide And, I;
    var w := I(b.more) + 2 * b.high;
    Drop(b.control, w, 1);
    Take(b.control, w, 1);
    Take(b.more, b.high, 0);
    AndZero(b.high);
  }

  /** What every mask and flag test, of validation and of its callers, says about the bits. */
  lemma FlagTests(b: FlagBits)
    ensures And(WordOf(b), KNOWN_MASK) == WordOf(b) - 0x100 * b.high
    ensures And(WordOf(b), PLACEMENT_MASK) == Placed(b)
    ensures And(WordOf(b), PATTERN_MASK) == Patterned(b)
    ensures And(WordOf(b), F_ARENA) == 2 * I(b.arena)
    ensures And(WordOf(b), F_INLINE) == I(b.inl)
    ensures And(WordOf(b), F_NOTIFICATION) == 4 * I(b.notification)
    ensures And(WordOf(b), F_REQUEST) == 8 * I(b.request)
    ensures And(WordOf(b), F_CANCEL) == 32 * I(b.cancel)
    ensures And(WordOf(b), F_MORE) == 128 * I(b.more)
  {
    hide And, I;
    AndZero(AbovePlacement(b));
    AndZero(AbovePattern(b));
    SplitTop(b);
    PatternBit(b);
    SplitPattern(b, 0);
    SplitPattern(b, 2);
    SplitPattern(b, 3);
    SplitPlacement(b, 63);
    SplitPlacement(b, 0);
    SplitPlacement(b, 15);
    SplitPlacement(b, 1);
    SplitPlacement(b, 2);
    SplitPlacement(b, 8);
    SplitPlacement(b, 32);
  }

  ghost predicate OneOf(a: bool, b: bool, c: bool, d: bool)
  {
    (a && !b && !c && !d) || (!a && b && !c && !d) || (!a && !b && c && !d) || (!a && !b && !c && d)
  }

  /** The pattern field, in the terms the tests use. */
  lemma PatternFacts(b: FlagBits)
    ensures ExactlyOne(Patterned(b)) <==> OneOf(b.notification, b.request, b.reply, b.cancel)
    ensures Patterned(b) == F_REQUEST <==> !b.notification && b.request && !b.reply && !b.cancel
    ensures Patterned(b) == F_REPLY <==> !b.notification && !b.request && b.reply && !b.cancel
  {
    var n := Patterned(b);
    if n != 0 {
      Pow2Test(n);
      SmallPowers(n);
    }
  }

  lemma PlacementFacts(b: FlagBits)
    ensures ExactlyOne(Placed(b)) <==> b.inl != b.arena
    ensures Placed(b) == 0 <==> !b.inl && !b.arena
    ensures Placed(b) == F_INLINE <==> b.inl && !b.arena
  {
    var n := Placed(b);
    if n != 0 {
      Pow2Test(n);
      SmallPowers(n);
    }
  }

  lemma SmallPowers(n: nat)
    requires n < 64
    ensures IsPow2(n) <==> n == 1 || n == 2 || n == 4 || n == 8 || n == 16 || n == 32
  {
    assert Pow2(0) == 1 && Pow2(1) == 2 && Pow2(2) == 4 && Pow2(3) == 8;
    assert Pow2(4) == 16 && Pow2(5) == 32 && Pow2(6) == 64;
    if IsPow2(n) {
      var k: nat :| n == Pow2(k);
      if k > 6 { Pow2Mono(6, k); }
    }
  }

  ghost function PlacementOf(b: FlagBits): Placement
  {
    if b.inl then Inline else if b.arena then Arena else NoPayload
  }

  ghost function PatternOf(b: FlagBits): Pattern
  {
    if b.notification then Notification else if b.request then Request else if b.reply then Reply else Cancel
  }

  /** The ordered tests accept exactly the well-formed frames. */
  lemma ValidateIff(f: Frame)
    ensures Validate(f).None? <==> exists p, q, control, more :: WellFormed(f, p, q, control, more)
  {
    if Validate(f).None? {
      AcceptedIsWellFormed(f);
    }
    if p, q, control, more :| WellFormed(f, p, q, control, more) {
      WellFormedIsAccepted(f, p, q, control, more);
    }
  }

  /** The header rules over bits. */
  ghost predicate BitsOk(f: Frame, b: FlagBits)
  {
    f.wireVersion == WIRE_VERSION && b.high == 0 &&
    OneOf(b.notification, b.request, b.reply, b.cancel) &&
    (if f.payloadLen > 0 then b.inl != b.arena && f.payloadLen <= MAX_PAYLOAD
     else !b.inl && !b.arena && f.payloadRef == 0) &&
    (b.more ==> (b.request || b.reply) && b.inl && f.payloadLen > 0) &&
    (!b.arena ==> f.generation == 0) &&
    (b.notification <==> f.correlationId == 0)
  }

  lemma ValidateBits(f: Frame, b: FlagBits)
    requires f.hdrFlags == WordOf(b)
    ensures Validate(f).None? <==> BitsOk(f, b)
    ensures Has(f.hdrFlags, F_INLINE) <==> b.inl
    ensures Has(f.hdrFlags, F_REQUEST) <==> b.request
    ensures Has(f.hdrFlags, F_CANCEL) <==> b.cancel
    ensures Has(f.hdrFlags, F_MORE) <==> b.more
  {
    FlagTests(b);
    PatternFacts(b);
    PlacementFacts(b);
    hide And, ExactlyOne, Placed, Patterned, WordOf;
  }

  lemma AcceptedIsWellFormed(f: Frame)
    requires Validate(f).None?
    ensures exists p, q, control, more :: WellFormed(f, p, q, control, more)
  {
    hide Validate;
    var b := BitsOfWord(f.hdrFlags);
    ValidateBits(f, b);
    WordIsFlags(b);
    hide WordOf, FlagWord, Has;
    assert WellFormed(f, PlacementOf(b), PatternOf(b), b.control, b.more);
  }

  lemma WordIsFlags(b: FlagBits)
    requires b.high == 0 && OneOf(b.notification, b.request, b.reply, b.cancel) && !(b.inl && b.arena)
    ensures WordOf(b) == FlagWord(PlacementOf(b), PatternOf(b), b.control, b.more)
  {
  }

  lemma WellFormedIsAccepted(f: Frame, p: Placement, q: Pattern, control: bool, more: bool)
    requires WellFormed(f, p, q, control, more)
    ensures Validate(f).None?
    ensures Has(f.hdrFlags, F_INLINE) <==> p.Inline?
    ensures Has(f.hdrFlags, F_REQUEST) <==> q.Request?
    ensures Has(f.hdrFlags, F_CANCEL) <==> q.Cancel?
    ensures Has(f.hdrFlags, F_MORE) <==> more
  {
    hide Validate, Has;
    var b := FlagBits(p.Inline?, p.Arena?, q.Notification?, q.Request?, q.Reply?, q.Cancel?, control, more, 0);
    ValidateBits(f, b);
  }
}
