/** Splitting a body into envelope-headed packets, and what the split conserves. */
module Fragments {
  import opened Words
  import opened Bits
  import opened Wrappers
  import opened Wire
  import opened Envelope
  import opened Channel

  /** A frame as the module layers see it. */
  datatype Packet = Packet(pattern: Pattern, more: bool, kind: u32, corr: u64, payload: seq<byte>)

  function PatternOfFlags(flags: u16): Pattern
  {
    if Has(flags, F_CANCEL) then Pattern.Cancel
    else if Has(flags, F_REQUEST) then Request
    else if Has(flags, F_NOTIFICATION) then Notification
    else Reply
  }

  function PacketOf(e: Event): Packet
  {
    Packet(PatternOfFlags(e.frame.hdrFlags), Has(e.frame.hdrFlags, F_MORE),
           e.frame.eventKind, e.frame.correlationId, e.payload)
  }

  /** The frame a packet is sent in. */
  function FrameOf(handle: u32, p: Packet): Frame
  {
    EmitFrame(handle, PatternFlags(p.pattern, p.more), p.kind, p.corr, |p.payload|)
  }

  /** A packet that crosses the channel arrives as it was sent. */
  lemma PacketCrosses(handle: u32, p: Packet)
    requires |p.payload| < TWO32
    ensures PacketOf(Event(FrameOf(handle, p), p.payload)) == p
  {
    hide Validate, EmitFrame, PatternFlags;
    EmitFrameValidIff(handle, p.pattern, p.more, p.kind, p.corr, |p.payload|);
    NotificationFlag(handle, p);
  }

  lemma NotificationFlag(handle: u32, p: Packet)
    requires |p.payload| < TWO32
    ensures Has(FrameOf(handle, p).hdrFlags, F_NOTIFICATION) <==> p.pattern.Notification?
  {
    hide Validate, PatternFlags, EmitFrame, And, WordOf;
    var q, n := p.pattern, |p.payload|;
    var b := FlagBits(n > 0, false, q.Notification?, q.Request?, q.Reply?, q.Cancel?, false, p.more, 0);
    EmitFlags(q, p.more, n > 0);
    EmitFrameIs(handle, q, p.more, p.kind, p.corr, n);
    NotificationBit(b);
  }

  lemma NotificationBit(b: FlagBits)
    ensures And(WordOf(b), F_NOTIFICATION) == 4 * I(b.notification)
  {
    FlagTests(b);
  }

  /** What the fragments of one body share. */
  datatype Header = Header(
    pattern: Pattern, operation: u16, status: u16, kind: u32, corr: u64,
    stage: u32, deadline: u64, trace: u64)

  function MessageFor(h: Header, n: u32): Message
  {
    Message(h.operation, h.status, h.stage, 0, n, h.deadline, h.trace)
  }

  function Fragment(h: Header, part: seq<byte>, more: bool): Packet
    requires |part| < TWO32
  {
    Packet(h.pattern, more, h.kind, h.corr, EnvelopeBytes(MessageFor(h, |part|)) + part)
  }

  /** The packets of a body, `chunk` body bytes at a time; an empty body still takes one. */
  function Split(h: Header, body: seq<byte>, chunk: nat): (ps: seq<Packet>)
    requires 0 < chunk < TWO32
    ensures |ps| > 0
  {
    if |body| <= chunk then [Fragment(h, body, false)]
    else [Fragment(h, body[..chunk], true)] + Split(h, body[chunk..], chunk)
  }

  /** The body bytes a packet carries. */
  function BodyOf(p: Packet): seq<byte>
  {
    if |p.payload| < MSG_HDR then [] else p.payload[MSG_HDR..]
  }

  function Joined(ps: seq<Packet>): seq<byte>
  {
    if ps == [] then [] else BodyOf(ps[0]) + Joined(ps[1..])
  }

  /** One fragment reads back as its header and its part. */
  lemma FragmentReads(h: Header, part: seq<byte>, more: bool)
    requires |part| <= MAX_BODY && MessageFor(h, |part|).Valid()
    ensures DecodeMessage(Fragment(h, part, more).payload) == Some(MessageFor(h, |part|))
    ensures BodyOf(Fragment(h, part, more)) == part
  {
    hide RawMessage, Lead, Trail, EnvelopeBytes;
    var payload := EnvelopeBytes(MessageFor(h, |part|)) + part;
    assert payload[..MSG_HDR] == EnvelopeBytes(MessageFor(h, |part|));
    DecodeEnvelope(MessageFor(h, |part|), payload);
  }

  ghost predicate ValidHeader(h: Header) { MessageFor(h, 0).Valid() }

  /** The parts join to the body; every packet but the last says more follows; every
      payload fits the budget and none of the non-final ones is empty. */
  lemma {:induction false} SplitConserves(h: Header, body: seq<byte>, chunk: nat)
    requires 0 < chunk < TWO32
    ensures var ps := Split(h, body, chunk);
            Joined(ps) == body &&
            (forall i :: 0 <= i < |ps| ==>
               ps[i].pattern == h.pattern && ps[i].kind == h.kind && ps[i].corr == h.corr &&
               (ps[i].more <==> i < |ps| - 1) && MSG_HDR <= |ps[i].payload| <= MSG_HDR + chunk)
    decreases |body|
  {
    hide EnvelopeBytes;
    if |body| <= chunk {
      assert Joined([Fragment(h, body, false)]) == BodyOf(Fragment(h, body, false)) + [];
    } else {
      SplitConserves(h, body[chunk..], chunk);
      var rest := Split(h, body[chunk..], chunk);
      assert Split(h, body, chunk)[1..] == rest;
      assert body[..chunk] + body[chunk..] == body;
    }
  }

  /** Every packet of a body reads back as the fields its header was given. */
  ghost predicate ReadsAs(p: Packet, h: Header)
  {
    p.pattern == h.pattern && p.kind == h.kind && p.corr == h.corr && DecodeMessage(p.payload).Some? &&
    var m := DecodeMessage(p.payload).value;
    m.operation == h.operation && m.status == h.status && m.stageId == h.stage &&
    m.deadlineNs == h.deadline && m.traceId == h.trace && m.bodyLen == |p.payload| - MSG_HDR
  }

  lemma FragmentReadsAs(h: Header, part: seq<byte>, more: bool)
    requires ValidHeader(h) && |part| <= MAX_BODY
    ensures ReadsAs(Fragment(h, part, more), h)
  {
    hide DecodeMessage;
    FragmentEnvelopeValid(h, |part|);
    FragmentReads(h, part, more);
  }

  lemma {:induction false} PacketsRead(h: Header, body: seq<byte>, chunk: nat, i: nat)
    requires 0 < chunk < TWO32 && ValidHeader(h) && (chunk <= MAX_BODY || |body| <= MAX_BODY)
    requires i < |Split(h, body, chunk)|
    ensures ReadsAs(Split(h, body, chunk)[i], h)
    decreases |body|
  {
    hide ReadsAs, EnvelopeBytes, Fragment, ValidHeader;
    if |body| <= chunk {
      FragmentReadsAs(h, body, false);
    } else if i == 0 {
      FragmentReadsAs(h, body[..chunk], true);
    } else {
      PacketsRead(h, body[chunk..], chunk, i - 1);
    }
  }

  /** The number of fragments is the length divided by the chunk, rounded up, and at least one. */
  lemma {:induction false} SplitCount(h: Header, body: seq<byte>, chunk: nat)
    requires 0 < chunk < TWO32
    ensures var k := |Split(h, body, chunk)|;
            (k - 1) * chunk < (if |body| == 0 then 1 else |body|) <= k * chunk
    decreases |body|
  {
    if |body| > chunk {
      SplitCount(h, body[chunk..], chunk);
      var k := |Split(h, body[chunk..], chunk)|;
      Scaled(k, chunk);
    }
  }

  lemma Scaled(k: int, c: int)
    ensures (k + 1) * c == k * c + c && (k - 1) * c + c == k * c
  {
  }

  /** The fragments still to send after `i` of them are those of the rest of the body. */
  ghost predicate AtOffset(h: Header, body: seq<byte>, chunk: nat, i: nat, offset: nat)
    requires 0 < chunk < TWO32
  {
    offset <= |body| && i < |Split(h, body, chunk)| &&
    Split(h, body, chunk)[i..] == Split(h, body[offset..], chunk)
  }

  lemma StartOffset(h: Header, body: seq<byte>, chunk: nat)
    requires 0 < chunk < TWO32
    ensures AtOffset(h, body, chunk, 0, 0)
  {
    assert body[0..] == body;
  }

  lemma NextOffset(h: Header, body: seq<byte>, chunk: nat, i: nat, offset: nat)
    requires 0 < chunk < TWO32 && AtOffset(h, body, chunk, i, offset)
    ensures offset <= |body| && i < |Split(h, body, chunk)|
    ensures var rest := |body| - offset;
            if rest <= chunk
            then i + 1 == |Split(h, body, chunk)| &&
                 Split(h, body, chunk)[i] == Fragment(h, body[offset..], false)
            else AtOffset(h, body, chunk, i + 1, offset + chunk) &&
                 Split(h, body, chunk)[i] == Fragment(h, body[offset..offset + chunk], true)
  {
    hide EnvelopeBytes;
    var all, tail := Split(h, body, chunk), body[offset..];
    assert all[i..][0] == all[i];
    if |tail| > chunk {
      assert tail[..chunk] == body[offset..offset + chunk] && tail[chunk..] == body[offset + chunk..];
      assert all[i + 1..] == all[i..][1..] == Split(h, body[offset + chunk..], chunk);
    }
  }

  /** The envelope of every fragment is valid when that of an empty one is. */
  lemma FragmentEnvelopeValid(h: Header, n: u32)
    requires ValidHeader(h) && n <= MAX_BODY
    ensures MessageFor(h, n).Valid()
  {
  }
}
