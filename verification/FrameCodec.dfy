/** The byte layout of the frame header, written and read at fixed offsets. */
module FrameCodec {
  import opened Words
  import opened Wrappers
  import opened Wire

  function Identity(f: Frame): (b: seq<byte>)
    ensures |b| == 16
  {
    Put(WIRE_MAGIC, 4) + Put(f.hdrFlags, 2) + Put(f.wireVersion, 2) + (Put(f.eventKind, 4) + Put(f.principalRef, 4))
  }

  function Order(f: Frame): (b: seq<byte>)
    ensures |b| == 32
  {
    Put(f.correlationId, 8) + Put(f.seqNo, 8) + (Put(f.logicalTs, 8) + Put(f.payloadRef, 8))
  }

  function Routing(f: Frame): (b: seq<byte>)
    ensures |b| == 16
  {
    Put(f.payloadLen, 4) + Put(f.srcHandle, 4) + (Put(f.dstHandle, 4) + Put(f.generation, 4))
  }

  /** The 64 header bytes of a frame. */
  function HeaderBytes(f: Frame): (b: seq<byte>)
    ensures |b| == HDR_LEN
  {
    Identity(f) + Order(f) + Routing(f)
  }

  /** The fields at their offsets, before validation. */
  function RawFrame(b: seq<byte>): Frame
    requires HDR_LEN <= |b|
  {
    Frame(U16At(b, 4), U16At(b, 6), U32At(b, 8), U32At(b, 12), U64At(b, 16), U64At(b, 24),
          U64At(b, 32), U64At(b, 40), U32At(b, 48), U32At(b, 52), U32At(b, 56), U32At(b, 60))
  }

  function Decode(b: seq<byte>): Result<Frame, WireError>
  {
    if |b| < HDR_LEN then Err(ErrShort)
    else if U32At(b, 0) != WIRE_MAGIC then Err(ErrMagic)
    else
      var f := RawFrame(b);
      match Validate(f)
      case Some(e) => Err(e)
      case None => Ok(f)
  }

  /** What is accepted, and which bytes hold which field. */
  lemma HeaderLayout(b: seq<byte>)
    ensures Decode(b).Ok? <==>
            64 <= |b| && U32At(b, 0) == 0x30535542 && Validate(RawFrame(b)).None?
    ensures Decode(b).Ok? ==>
      var f := Decode(b).value;
      f.hdrFlags == U16At(b, 4) && f.wireVersion == U16At(b, 6) == 3 && f.eventKind == U32At(b, 8) &&
      f.principalRef == U32At(b, 12) && f.correlationId == U64At(b, 16) && f.seqNo == U64At(b, 24) &&
      f.logicalTs == U64At(b, 32) && f.payloadRef == U64At(b, 40) && f.payloadLen == U32At(b, 48) &&
      f.srcHandle == U32At(b, 52) && f.dstHandle == U32At(b, 56) && f.generation == U32At(b, 60)
    ensures Decode(b) == Err(ErrShort) <==> |b| < 64
    ensures Decode(b) == Err(ErrMagic) <==> 64 <= |b| && U32At(b, 0) != 0x30535542
  {
    if 64 <= |b| { ValidateNames(RawFrame(b)); }
  }

  /** Validation has its own errors, and accepts only version 3. */
  lemma ValidateNames(f: Frame)
    ensures Validate(f) != Some(ErrShort) && Validate(f) != Some(ErrMagic)
    ensures Validate(f).None? ==> f.wireVersion == 3
  {
    hide Has, ExactlyOne;
  }

  lemma IdentityAt(f: Frame, b: seq<byte>)
    requires HDR_LEN <= |b| && b[0..16] == Identity(f)
    ensures U32At(b, 0) == WIRE_MAGIC && U16At(b, 4) == f.hdrFlags && U16At(b, 6) == f.wireVersion
    ensures U32At(b, 8) == f.eventKind && U32At(b, 12) == f.principalRef
  {
    Spans();
    GetPut(WIRE_MAGIC, 4);
    GetPut(f.hdrFlags, 2);
    GetPut(f.wireVersion, 2);
    GetPut(f.eventKind, 4);
    GetPut(f.principalRef, 4);
    hide Put, Get, Span;
    var last := Put(f.eventKind, 4) + Put(f.principalRef, 4);
    Split2(b, 0, Put(WIRE_MAGIC, 4) + Put(f.hdrFlags, 2) + Put(f.wireVersion, 2), last);
    Split3(b, 0, Put(WIRE_MAGIC, 4), Put(f.hdrFlags, 2), Put(f.wireVersion, 2));
    Split2(b, 8, Put(f.eventKind, 4), Put(f.principalRef, 4));
  }

  lemma OrderAt(f: Frame, b: seq<byte>)
    requires HDR_LEN <= |b| && b[16..48] == Order(f)
    ensures U64At(b, 16) == f.correlationId && U64At(b, 24) == f.seqNo
    ensures U64At(b, 32) == f.logicalTs && U64At(b, 40) == f.payloadRef
  {
    Spans();
    GetPut(f.correlationId, 8);
    GetPut(f.seqNo, 8);
    GetPut(f.logicalTs, 8);
    GetPut(f.payloadRef, 8);
    hide Put, Get, Span;
    Split3(b, 16, Put(f.correlationId, 8), Put(f.seqNo, 8), Put(f.logicalTs, 8) + Put(f.payloadRef, 8));
    Split2(b, 32, Put(f.logicalTs, 8), Put(f.payloadRef, 8));
  }

  lemma RoutingAt(f: Frame, b: seq<byte>)
    requires HDR_LEN <= |b| && b[48..64] == Routing(f)
    ensures U32At(b, 48) == f.payloadLen && U32At(b, 52) == f.srcHandle
    ensures U32At(b, 56) == f.dstHandle && U32At(b, 60) == f.generation
  {
    Spans();
    GetPut(f.payloadLen, 4);
    GetPut(f.srcHandle, 4);
    GetPut(f.dstHandle, 4);
    GetPut(f.generation, 4);
    hide Put, Get, Span;
    Split3(b, 48, Put(f.payloadLen, 4), Put(f.srcHandle, 4), Put(f.dstHandle, 4) + Put(f.generation, 4));
    Split2(b, 56, Put(f.dstHandle, 4), Put(f.generation, 4));
  }

  /** Decoding an encoding returns the frame, whatever follows the header. */
  lemma DecodeEncode(f: Frame, b: seq<byte>)
    requires HDR_LEN <= |b| && b[..HDR_LEN] == HeaderBytes(f)
    ensures RawFrame(b) == f
    ensures Decode(b) == (match Validate(f) case None => Ok(f) case Some(e) => Err(e))
  {
    hide Identity, Order, Routing, Validate;
    assert b[0..HDR_LEN] == b[..HDR_LEN];
    Split3(b, 0, Identity(f), Order(f), Routing(f));
    IdentityAt(f, b);
    OrderAt(f, b);
    RoutingAt(f, b);
  }

  lemma IdentityOf(b: seq<byte>)
    requires HDR_LEN <= |b| && U32At(b, 0) == WIRE_MAGIC
    ensures Identity(RawFrame(b)) == b[0..16]
  {
    var f := RawFrame(b);
    Bytes32(b, 0);
    Bytes16(b, 4);
    Bytes16(b, 6);
    Bytes32(b, 8);
    Bytes32(b, 12);
    hide Put, U16At, U32At, U64At;
    Join3(b, 0, 4, 6, 8, Put(WIRE_MAGIC, 4), Put(f.hdrFlags, 2), Put(f.wireVersion, 2));
    Join2(b, 8, 12, 16, Put(f.eventKind, 4), Put(f.principalRef, 4));
    Adjacent(b, 0, 8, 16);
  }

  lemma OrderOf(b: seq<byte>)
    requires HDR_LEN <= |b|
    ensures Order(RawFrame(b)) == b[16..48]
  {
    var f := RawFrame(b);
    Bytes64(b, 16);
    Bytes64(b, 24);
    Bytes64(b, 32);
    Bytes64(b, 40);
    hide Put, U16At, U32At, U64At;
    Join2(b, 32, 40, 48, Put(f.logicalTs, 8), Put(f.payloadRef, 8));
    Join3(b, 16, 24, 32, 48, Put(f.correlationId, 8), Put(f.seqNo, 8), Put(f.logicalTs, 8) + Put(f.payloadRef, 8));
  }

  lemma RoutingOf(b: seq<byte>)
    requires HDR_LEN <= |b|
    ensures Routing(RawFrame(b)) == b[48..64]
  {
    var f := RawFrame(b);
    Bytes32(b, 48);
    Bytes32(b, 52);
    Bytes32(b, 56);
    Bytes32(b, 60);
    hide Put, U16At, U32At, U64At;
    Join2(b, 56, 60, 64, Put(f.dstHandle, 4), Put(f.generation, 4));
    Join3(b, 48, 52, 56, 64, Put(f.payloadLen, 4), Put(f.srcHandle, 4), Put(f.dstHandle, 4) + Put(f.generation, 4));
  }

  /** Re-encoding an accepted header reproduces its 64 bytes: the encoding is canonical. */
  lemma EncodeDecode(b: seq<byte>)
    requires Decode(b).Ok?
    ensures HeaderBytes(Decode(b).value) == b[..HDR_LEN] && Validate(Decode(b).value).None?
  {
    hide Validate, RawFrame, Identity, Order, Routing;
    var f := RawFrame(b);
    IdentityOf(b);
    OrderOf(b);
    RoutingOf(b);
    Join3(b, 0, 16, 48, 64, Identity(f), Order(f), Routing(f));
    assert b[..HDR_LEN] == b[0..64];
  }

  /** Two accepted buffers with the same header decode alike, and only those. */
  lemma DecodeInjective(a: seq<byte>, b: seq<byte>)
    requires Decode(a).Ok? && Decode(b).Ok?
    ensures Decode(a) == Decode(b) <==> a[..HDR_LEN] == b[..HDR_LEN]
  {
    hide HeaderBytes, Validate, RawFrame;
    EncodeDecode(a);
    EncodeDecode(b);
    if a[..HDR_LEN] == b[..HDR_LEN] {
      DecodeEncode(Decode(a).value, a);
      DecodeEncode(Decode(a).value, b);
    }
  }

  /** Writes a frame into the slice of `len` bytes at `base`: all 64 bytes, or nothing. */
  method Encode(f: Frame, out: array<byte>, base: nat, len: nat) returns (n: nat)
    requires base + len <= out.Length
    modifies out
    ensures n == (if len < HDR_LEN || Validate(f).Some? then 0 else HDR_LEN)
    ensures n == 0 ==> out[..] == old(out[..])
    ensures n != 0 ==> out[..] == Splice(old(out[..]), base, HeaderBytes(f))
  {
    if len < HDR_LEN {
      return 0;
    }
    var verdict := Validate(f);
    if verdict.Some? {
      return 0;
    }
    WriteHeader(f, out, base);
    n := HDR_LEN;
  }

  method WriteHeader(f: Frame, out: array<byte>, base: nat)
    requires base + HDR_LEN <= out.Length
    modifies out
    ensures out[..] == Splice(old(out[..]), base, HeaderBytes(f))
  {
    ghost var before := out[..];
    for i := 0 to HDR_LEN
      invariant forall k :: 0 <= k < out.Length && (k < base || base + HDR_LEN <= k) ==> out[k] == before[k]
    {
      out[base + i] := 0;
    }
    ghost var zeroed := out[..];
    WriteIdentity(f, out, base);
    WriteOrder(f, out, base + 16);
    WriteRouting(f, out, base + 48);
    SpliceAppend(zeroed, base, Identity(f), Order(f));
    SpliceAppend(zeroed, base, Identity(f) + Order(f), Routing(f));
    SpliceOver(zeroed, before, base, HeaderBytes(f));
  }

  method WriteIdentity(f: Frame, out: array<byte>, base: nat)
    requires base + 16 <= out.Length
    modifies out
    ensures out[..] == Splice(old(out[..]), base, Identity(f))
  {
    ghost var b := out[..];
    Store(out, base, WIRE_MAGIC, 4);
    Store(out, base + 4, f.hdrFlags, 2);
    Store(out, base + 6, f.wireVersion, 2);
    SpliceThree(b, base, Put(WIRE_MAGIC, 4), Put(f.hdrFlags, 2), Put(f.wireVersion, 2));
    ghost var c := out[..];
    Store(out, base + 8, f.eventKind, 4);
    Store(out, base + 12, f.principalRef, 4);
    SpliceAppend(c, base + 8, Put(f.eventKind, 4), Put(f.principalRef, 4));
    SpliceAppend(b, base, Put(WIRE_MAGIC, 4) + Put(f.hdrFlags, 2) + Put(f.wireVersion, 2),
                 Put(f.eventKind, 4) + Put(f.principalRef, 4));
  }

  method WriteOrder(f: Frame, out: array<byte>, base: nat)
    requires base + 32 <= out.Length
    modifies out
    ensures out[..] == Splice(old(out[..]), base, Order(f))
  {
    ghost var b := out[..];
    Store(out, base, f.correlationId, 8);
    Store(out, base + 8, f.seqNo, 8);
    SpliceAppend(b, base, Put(f.correlationId, 8), Put(f.seqNo, 8));
    ghost var c := out[..];
    Store(out, base + 16, f.logicalTs, 8);
    Store(out, base + 24, f.payloadRef, 8);
    SpliceAppend(c, base + 16, Put(f.logicalTs, 8), Put(f.payloadRef, 8));
    SpliceAppend(b, base, Put(f.correlationId, 8) + Put(f.seqNo, 8), Put(f.logicalTs, 8) + Put(f.payloadRef, 8));
  }

  method WriteRouting(f: Frame, out: array<byte>, base: nat)
    requires base + 16 <= out.Length
    modifies out
    ensures out[..] == Splice(old(out[..]), base, Routing(f))
  {
    ghost var b := out[..];
    Store(out, base, f.payloadLen, 4);
    Store(out, base + 4, f.srcHandle, 4);
    SpliceAppend(b, base, Put(f.payloadLen, 4), Put(f.srcHandle, 4));
    ghost var c := out[..];
    Store(out, base + 8, f.dstHandle, 4);
    Store(out, base + 12, f.generation, 4);
    SpliceAppend(c, base + 8, Put(f.dstHandle, 4), Put(f.generation, 4));
    SpliceAppend(b, base, Put(f.payloadLen, 4) + Put(f.srcHandle, 4), Put(f.dstHandle, 4) + Put(f.generation, 4));
  }
}
