/** The narrow surface the module layers use of a bus client, with the moments at which
    its sends happen supplied from outside: whether the host epoch still stands, whether
    the outbound ring is full, and whether the caller's context is done. */
module Ports {
  import opened Words
  import opened Wrappers
  import opened Wire
  import opened Envelope
  import opened Channel
  import opened Fragments

  /** What a send attempt, and the pause after a refused one, will find. */
  datatype Moment = Moment(sameEpoch: bool, full: bool, contextDone: bool)

  datatype CallError =
    | Config
    | Runtime
    | BadMessage
    | Bus(e: SendError)
    | ContextDone
    | Cancelled
    | Deadline
    | CapabilityAbsent
    | Rejected
    | Failed(status: u16)

  /** The moment of the n-th attempt from now, and those left after n attempts. */
  function MomentAt(moments: seq<Moment>, n: nat): Moment
  {
    if n < |moments| then moments[n] else Moment(true, false, false)
  }

  function After(moments: seq<Moment>, n: nat): seq<Moment>
  {
    if n < |moments| then moments[n..] else []
  }

  lemma AfterMore(moments: seq<Moment>, n: nat)
    ensures After(After(moments, n), 1) == After(moments, n + 1)
    ensures MomentAt(After(moments, n), 0) == MomentAt(moments, n)
    ensures After(moments, 0) == moments
  {
  }

  class Port {
    const handle: u32
    const slotSize: u32
    const budget: u32
    var moments: seq<Moment>      // yet to come; beyond the last one nothing is refused
    var sent: seq<Packet>

    constructor (handle: u32, slotSize: u32, budget: u32, moments: seq<Moment>)
      ensures this.handle == handle && this.slotSize == slotSize && this.budget == budget
      ensures this.moments == moments && sent == []
    {
      this.handle, this.slotSize, this.budget, this.moments := handle, slotSize, budget, moments;
      sent := [];
    }

    function Now(): Moment
      reads this
    {
      MomentAt(moments, 0)
    }

    /** Why the client refuses a packet at a moment: the same verdict `Client` gives. */
    function VerdictAt(p: Packet, now: Moment): Option<SendError>
    {
      if !Sendable(p.corr, |p.payload|, p.more) then Some(ErrProtocol)
      else EmitVerdict(true, now.sameEpoch, budget, slotSize, now.full, FrameOf(handle, p), |p.payload|)
    }

    function Verdict(p: Packet): Option<SendError>
      reads this
    {
      VerdictAt(p, Now())
    }

    /** One attempt to send; time moves on whatever comes of it. */
    method Send(p: Packet) returns (err: Option<SendError>)
      modifies this
      ensures err == old(Verdict(p))
      ensures sent == if err.None? then old(sent) + [p] else old(sent)
      ensures moments == After(old(moments), 1)
    {
      err := Verdict(p);
      if err.None? {
        sent := sent + [p];
      }
      if moments != [] {
        moments := moments[1..];
      }
    }

    /** Why one fragment is not sent at a moment: its envelope is invalid, or the client refuses it. */
    function FragmentVerdict(h: Header, part: seq<byte>, more: bool, now: Moment): Option<CallError>
      requires |part| < TWO32
    {
      if !MessageFor(h, |part|).Valid() then Some(BadMessage)
      else match VerdictAt(Fragment(h, part, more), now)
           case None => None
           case Some(e) => Some(Bus(e))
    }
  }

  /** Encodes an envelope and its part into `frame`, and sends the filled bytes. */
  method SendFragment(port: Port, frame: array<byte>, h: Header, part: seq<byte>, more: bool)
    returns (err: Option<CallError>)
    requires MSG_HDR + |part| <= frame.Length && frame.Length < TWO32
    modifies port, frame
    ensures err == old(port.FragmentVerdict(h, part, more, port.Now()))
    ensures port.sent == if err.None? then old(port.sent) + [Fragment(h, part, more)] else old(port.sent)
    ensures err.None? ==> port.moments == After(old(port.moments), 1)
  {
    hide EmitVerdict, EmitFrame, EnvelopeBytes;
    var written := Encode(MessageFor(h, |part|), frame);
    if written.None? {
      return Some(BadMessage);
    }
    assert frame[..MSG_HDR] == EnvelopeBytes(MessageFor(h, |part|));
    ghost var header := frame[..MSG_HDR];
    for i := 0 to |part|
      modifies frame
      invariant frame[..MSG_HDR] == header
      invariant frame[MSG_HDR..MSG_HDR + i] == part[..i]
    {
      frame[MSG_HDR + i] := part[i];
    }
    assert part[..|part|] == part;
    assert frame[..MSG_HDR + |part|] == header + part;
    var p := Packet(h.pattern, more, h.kind, h.corr, frame[..MSG_HDR + |part|]);
    assert p == Fragment(h, part, more);
    var refused := port.Send(p);
    err := match refused case None => None case Some(e) => Some(Bus(e));
  }

  /** With no moment left, nothing is refused for a full ring. */
  lemma FullNeedsMoment(handle: u32, p: Packet, budget: u32, slotSize: u32)
    ensures EmitVerdict(true, true, budget, slotSize, false, FrameOf(handle, p), |p.payload|) != Some(ErrWouldBlock)
  {
    hide Validate, EmitFrame;
  }

  /** On legal geometry, a fragment of a correlated request or reply is refused only because
      the ring is full or the host restarted. */
  lemma FragmentRefusals(port: Port, h: Header, body: seq<byte>, i: nat, now: Moment)
    requires LegalBudget(port.budget, port.slotSize) && MSG_HDR < port.budget
    requires h.corr != 0 && (h.pattern.Request? || h.pattern.Reply?)
    requires i < |Split(h, body, port.budget - MSG_HDR)|
    ensures port.VerdictAt(Split(h, body, port.budget - MSG_HDR)[i], now) ==
            if !now.sameEpoch then Some(ErrEpoch) else if now.full then Some(ErrWouldBlock) else None
  {
    hide EmitVerdict, EmitFrame, Split;
    SplitConserves(h, body, port.budget - MSG_HDR);
    var p := Split(h, body, port.budget - MSG_HDR)[i];
    FragmentsAreAccepted(now.sameEpoch, port.budget, port.slotSize, now.full,
                         port.handle, p.pattern, p.more, p.kind, p.corr, |p.payload|);
  }
}
