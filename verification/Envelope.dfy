/** The 40-byte module envelope that precedes every request and response body. */
module Envelope {
  import opened Words
  import opened Wrappers

  const MSG_MAGIC: u32 := 0x444f4d41
  const MSG_VERSION: u16 := 1
  const MSG_HDR := 40
  const MAX_BODY: u32 := 0x100_0000

  const OP_INVOKE: u16 := 1
  const OP_RESULT: u16 := 2

  const ST_OK: u16 := 0
  const ST_CAPABILITY_ABSENT: u16 := 1
  const ST_CANCELLED: u16 := 2
  const ST_DEADLINE_EXCEEDED: u16 := 3
  const ST_INVALID_REQUEST: u16 := 4
  const ST_INTERNAL: u16 := 5

  datatype Message = Message(
    operation: u16,
    status: u16,
    stageId: u32,
    flags: u32,
    bodyLen: u32,
    deadlineNs: u64,
    traceId: u64)
  {
    predicate Valid()
    {
      if operation != OP_INVOKE && operation != OP_RESULT then false
      else if status > ST_INTERNAL || (operation == OP_INVOKE && status != ST_OK) then false
      else stageId != 0 && flags == 0 && bodyLen <= MAX_BODY
    }

    predicate DeadlineExpired(nowNs: u64) { deadlineNs != 0 && nowNs >= deadlineNs }
  }

  function Lead(m: Message): (b: seq<byte>)
    ensures |b| == 16
  {
    Put(MSG_MAGIC, 4) + Put(MSG_VERSION, 2) + Put(MSG_HDR, 2) + (Put(m.operation, 2) + Put(m.status, 2) + Put(m.stageId, 4))
  }

  function Trail(m: Message): (b: seq<byte>)
    ensures |b| == 24
  {
    Put(m.flags, 4) + Put(m.bodyLen, 4) + (Put(m.deadlineNs, 8) + Put(m.traceId, 8))
  }

  /** The 40 bytes of an envelope. */
  function EnvelopeBytes(m: Message): (b: seq<byte>)
    ensures |b| == MSG_HDR
  {
    Lead(m) + Trail(m)
  }

  function RawMessage(b: seq<byte>): Message
    requires MSG_HDR <= |b|
  {
    Message(U16At(b, 8), U16At(b, 10), U32At(b, 12), U32At(b, 16), U32At(b, 20), U64At(b, 24), U64At(b, 32))
  }

  predicate Tagged(b: seq<byte>)
    requires MSG_HDR <= |b|
  {
    U32At(b, 0) == MSG_MAGIC && U16At(b, 4) == MSG_VERSION && U16At(b, 6) == MSG_HDR
  }

  /** None stands for the decoding error. */
  function DecodeMessage(b: seq<byte>): Option<Message>
  {
    if |b| < MSG_HDR || !Tagged(b) then None
    else
      var m := RawMessage(b);
      if !m.Valid() || m.bodyLen > |b| - MSG_HDR then None else Some(m)
  }

  /** The rules of an envelope. */
  lemma ValidIff(m: Message)
    ensures m.Valid() <==>
            ((m.operation == 1 && m.status == 0) || (m.operation == 2 && m.status <= 5)) &&
            m.stageId != 0 && m.flags == 0 && m.bodyLen <= 0x100_0000
  {
  }

  /** What is accepted, and which bytes hold which field. */
  lemma EnvelopeLayout(b: seq<byte>)
    ensures DecodeMessage(b).Some? <==>
            40 <= |b| && U32At(b, 0) == 0x444f4d41 && U16At(b, 4) == 1 && U16At(b, 6) == 40 &&
            RawMessage(b).Valid() && 40 + U32At(b, 20) <= |b|
    ensures DecodeMessage(b).Some? ==>
      var m := DecodeMessage(b).value;
      m.operation == U16At(b, 8) && m.status == U16At(b, 10) && m.stageId == U32At(b, 12) &&
      m.flags == U32At(b, 16) && m.bodyLen == U32At(b, 20) && m.deadlineNs == U64At(b, 24) && m.traceId == U64At(b, 32)
  {
    hide Message.Valid;
  }

  lemma LeadAt(m: Message, b: seq<byte>)
    requires MSG_HDR <= |b| && b[0..16] == Lead(m)
    ensures Tagged(b)
    ensures U16At(b, 8) == m.operation && U16At(b, 10) == m.status && U32At(b, 12) == m.stageId
  {
    Spans();
    GetPut(MSG_MAGIC, 4);
    GetPut(MSG_VERSION, 2);
    GetPut(MSG_HDR, 2);
    GetPut(m.operation, 2);
    GetPut(m.status, 2);
    GetPut(m.stageId, 4);
    hide Put, Get, Span;
    var rest := Put(m.operation, 2) + Put(m.status, 2) + Put(m.stageId, 4);
    Split2(b, 0, Put(MSG_MAGIC, 4) + Put(MSG_VERSION, 2) + Put(MSG_HDR, 2), rest);
    Split3(b, 0, Put(MSG_MAGIC, 4), Put(MSG_VERSION, 2), Put(MSG_HDR, 2));
    Split3(b, 8, Put(m.operation, 2), Put(m.status, 2), Put(m.stageId, 4));
  }

  lemma TrailAt(m: Message, b: seq<byte>)
    requires MSG_HDR <= |b| && b[16..40] == Trail(m)
    ensures U32At(b, 16) == m.flags && U32At(b, 20) == m.bodyLen
    ensures U64At(b, 24) == m.deadlineNs && U64At(b, 32) == m.traceId
  {
    Spans();
    GetPut(m.flags, 4);
    GetPut(m.bodyLen, 4);
    GetPut(m.deadlineNs, 8);
    GetPut(m.traceId, 8);
    hide Put, Get, Span;
    Split3(b, 16, Put(m.flags, 4), Put(m.bodyLen, 4), Put(m.deadlineNs, 8) + Put(m.traceId, 8));
    Split2(b, 24, Put(m.deadlineNs, 8), Put(m.traceId, 8));
  }

  /** Decoding an encoding succeeds exactly for a valid envelope whose body is covered. */
  lemma DecodeEnvelope(m: Message, b: seq<byte>)
    requires MSG_HDR <= |b| && b[..MSG_HDR] == EnvelopeBytes(m)
    ensures DecodeMessage(b) == if m.Valid() && m.bodyLen <= |b| - MSG_HDR then Some(m) else None
  {
    assert b[0..MSG_HDR] == b[..MSG_HDR];
    hide Lead, Trail;
    Split2(b, 0, Lead(m), Trail(m));
    LeadAt(m, b);
    TrailAt(m, b);
    hide Put, Get;
  }

  lemma LeadOf(b: seq<byte>)
    requires MSG_HDR <= |b| && Tagged(b)
    ensures Lead(RawMessage(b)) == b[0..16]
  {
    var m := RawMessage(b);
    Bytes32(b, 0);
    Bytes16(b, 4);
    Bytes16(b, 6);
    Bytes16(b, 8);
    Bytes16(b, 10);
    Bytes32(b, 12);
    hide Put, U16At, U32At, U64At;
    Join3(b, 0, 4, 6, 8, Put(MSG_MAGIC, 4), Put(MSG_VERSION, 2), Put(MSG_HDR, 2));
    Join3(b, 8, 10, 12, 16, Put(m.operation, 2), Put(m.status, 2), Put(m.stageId, 4));
    Adjacent(b, 0, 8, 16);
  }

  lemma TrailOf(b: seq<byte>)
    requires MSG_HDR <= |b|
    ensures Trail(RawMessage(b)) == b[16..40]
  {
    var m := RawMessage(b);
    Bytes32(b, 16);
    Bytes32(b, 20);
    Bytes64(b, 24);
    Bytes64(b, 32);
    hide Put, U16At, U32At, U64At;
    Join2(b, 24, 32, 40, Put(m.deadlineNs, 8), Put(m.traceId, 8));
    Join3(b, 16, 20, 24, 40, Put(m.flags, 4), Put(m.bodyLen, 4), Put(m.deadlineNs, 8) + Put(m.traceId, 8));
  }

  /** Re-encoding an accepted envelope reproduces its 40 bytes. */
  lemma EncodeDecoded(b: seq<byte>)
    requires DecodeMessage(b).Some?
    ensures DecodeMessage(b).value.Valid() && EnvelopeBytes(DecodeMessage(b).value) == b[..MSG_HDR]
  {
    hide RawMessage, Lead, Trail;
    LeadOf(b);
    TrailOf(b);
    Adjacent(b, 0, 16, 40);
    assert b[..MSG_HDR] == b[0..40];
  }

  /** Only the 40 header bytes and the presence of the declared body matter. */
  lemma TrailingBytesDoNotMatter(a: seq<byte>, b: seq<byte>)
    requires DecodeMessage(a).Some? && MSG_HDR <= |b| && b[..MSG_HDR] == a[..MSG_HDR]
    ensures DecodeMessage(b) ==
            if DecodeMessage(a).value.bodyLen <= |b| - MSG_HDR then DecodeMessage(a) else None
  {
    EncodeDecoded(a);
    DecodeEnvelope(DecodeMessage(a).value, b);
  }

  /** Writes a valid envelope at the start of a buffer; an error leaves it alone. */
  method Encode(m: Message, out: array<byte>) returns (n: Option<nat>)
    modifies out
    ensures n == if out.Length < MSG_HDR || !m.Valid() then None else Some(MSG_HDR)
    ensures n.None? ==> out[..] == old(out[..])
    ensures n.Some? ==> out[..] == Splice(old(out[..]), 0, EnvelopeBytes(m))
  {
    if out.Length < MSG_HDR || !m.Valid() {
      return None;
    }
    ghost var before := out[..];
    for i := 0 to MSG_HDR
      invariant forall k :: MSG_HDR <= k < out.Length ==> out[k] == before[k]
    {
      out[i] := 0;
    }
    ghost var zeroed := out[..];
    WriteLead(m, out);
    WriteTrail(m, out);
    SpliceAppend(zeroed, 0, Lead(m), Trail(m));
    SpliceOver(zeroed, before, 0, EnvelopeBytes(m));
    n := Some(MSG_HDR);
  }

  method WriteLead(m: Message, out: array<byte>)
    requires MSG_HDR <= out.Length
    modifies out
    ensures out[..] == Splice(old(out[..]), 0, Lead(m))
  {
    ghost var b := out[..];
    Store(out, 0, MSG_MAGIC, 4);
    Store(out, 4, MSG_VERSION, 2);
    Store(out, 6, MSG_HDR, 2);
    ghost var tag := Put(MSG_MAGIC, 4) + Put(MSG_VERSION, 2) + Put(MSG_HDR, 2);
    SpliceThree(b, 0, Put(MSG_MAGIC, 4), Put(MSG_VERSION, 2), Put(MSG_HDR, 2));
    ghost var c := out[..];
    Store(out, 8, m.operation, 2);
    Store(out, 10, m.status, 2);
    Store(out, 12, m.stageId, 4);
    SpliceThree(c, 8, Put(m.operation, 2), Put(m.status, 2), Put(m.stageId, 4));
    SpliceAppend(b, 0, tag, Put(m.operation, 2) + Put(m.status, 2) + Put(m.stageId, 4));
  }

  method WriteTrail(m: Message, out: array<byte>)
    requires MSG_HDR <= out.Length
    modifies out
    ensures out[..] == Splice(old(out[..]), 16, Trail(m))
  {
    ghost var b := out[..];
    Store(out, 16, m.flags, 4);
    Store(out, 20, m.bodyLen, 4);
    SpliceAppend(b, 16, Put(m.flags, 4), Put(m.bodyLen, 4));
    ghost var c := out[..];
    Store(out, 24, m.deadlineNs, 8);
    Store(out, 32, m.traceId, 8);
    SpliceAppend(c, 24, Put(m.deadlineNs, 8), Put(m.traceId, 8));
    SpliceAppend(b, 16, Put(m.flags, 4) + Put(m.bodyLen, 4), Put(m.deadlineNs, 8) + Put(m.traceId, 8));
  }
}
