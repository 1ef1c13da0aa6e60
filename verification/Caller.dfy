/** Issuing a stage call: fragmenting the request and gathering the correlated reply. */
module Caller {
  import opened Words
  import opened Wrappers
  import opened Wire
  import opened Envelope
  import opened Channel
  import opened Fragments
  import opened Ports

  function RequestHeader(kind: u32, stage: u32, trace: u64, corr: u64, deadline: u64): Header
  {
    Header(Request, OP_INVOKE, ST_OK, kind, corr, stage, deadline, trace)
  }

  /** `old` followed by the first `k` of `ps`. */
  ghost predicate SentPrefix(before: seq<Packet>, after: seq<Packet>, ps: seq<Packet>, k: nat)
  {
    k <= |ps| && after == before + ps[..k]
  }

  lemma NoneSent(before: seq<Packet>, ps: seq<Packet>)
    ensures SentPrefix(before, before, ps, 0)
  {
    assert ps[..0] == [];
  }

  lemma NextPrefix(before: seq<Packet>, sent: seq<Packet>, ps: seq<Packet>, k: nat)
    requires SentPrefix(before, sent, ps, k) && k < |ps|
    ensures SentPrefix(before, sent + [ps[k]], ps, k + 1)
  {
    assert ps[..k + 1] == ps[..k] + [ps[k]];
  }

  /** The first `k` fragments are accepted, one at each of the moments to come. */
  ghost predicate Accepted(port: Port, moments: seq<Moment>, ps: seq<Packet>, k: nat)
  {
    k <= |ps| && forall i :: 0 <= i < k ==> port.VerdictAt(ps[i], MomentAt(moments, i)).None?
  }

  /** Why the sending of fragment `k` fails: its envelope, or the client at that moment. */
  ghost predicate FailsAt(port: Port, moments: seq<Moment>, h: Header, ps: seq<Packet>, k: nat, e: CallError)
  {
    k < |ps| &&
    if e.Bus? then port.VerdictAt(ps[k], MomentAt(moments, k)) == Some(e.e)
    else e == BadMessage && !(ValidHeader(h) && |BodyOf(ps[k])| <= MAX_BODY)
  }

  lemma FailureIs(port: Port, moments: seq<Moment>, h: Header, ps: seq<Packet>, k: nat,
                  part: seq<byte>, more: bool, e: CallError)
    requires k < |ps| && |part| < TWO32 && ps[k] == Fragment(h, part, more)
    requires port.FragmentVerdict(h, part, more, MomentAt(moments, k)) == Some(e)
    ensures FailsAt(port, moments, h, ps, k, e)
  {
    hide EnvelopeBytes, Port.VerdictAt;
    assert BodyOf(Fragment(h, part, more)) == part by {
      assert (EnvelopeBytes(MessageFor(h, |part|)) + part)[MSG_HDR..] == part;
    }
  }

  /** Sends the request in fragments, one attempt each. It stops at the first that fails, for
      the reason that one fails. */
  method SendRequest(port: Port, kind: u32, stage: u32, trace: u64, corr: u64, deadline: u64, request: seq<byte>)
    returns (err: Option<CallError>, ghost k: nat)
    modifies port
    ensures port.budget <= MSG_HDR ==> err == Some(Runtime) && port.sent == old(port.sent)
    ensures port.budget > MSG_HDR ==>
      var h := RequestHeader(kind, stage, trace, corr, deadline);
      var ps := Split(h, request, port.budget - MSG_HDR);
      SentPrefix(old(port.sent), port.sent, ps, k) && (err.None? <==> k == |ps|) &&
      Accepted(port, old(port.moments), ps, k) &&
      (err.Some? ==> FailsAt(port, old(port.moments), h, ps, k, err.value)) &&
      (err.None? ==> port.moments == After(old(port.moments), |ps|))
  {
    hide EnvelopeBytes, Split, Port.FragmentVerdict, Port.VerdictAt, AtOffset, SentPrefix, Fragment, FailsAt, After;
    k := 0;
    if port.budget <= MSG_HDR {
      return Some(Runtime), 0;
    }
    var chunk: nat := port.budget - MSG_HDR;
    var frame := new byte[port.budget];
    var h := RequestHeader(kind, stage, trace, corr, deadline);
    ghost var ps := Split(h, request, chunk);
    ghost var before, moments := port.sent, port.moments;
    AfterMore(moments, 0);
    StartOffset(h, request, chunk);
    NoneSent(before, ps);
    var first, offset := true, 0;
    while first || offset < |request|
      invariant 0 <= offset <= |request|
      invariant SentPrefix(before, port.sent, ps, k)
      invariant Accepted(port, moments, ps, k) && port.moments == After(moments, k)
      invariant if first || offset < |request| then AtOffset(h, request, chunk, k, offset) else k == |ps|
      invariant first ==> offset == 0
      decreases first, |request| - offset
    {
      first := false;
      var part := |request| - offset;
      if part > chunk {
        part := chunk;
      }
      var more := offset + part < |request|;
      NextOffset(h, request, chunk, k, offset);
      assert offset + part == |request| ==> request[offset..offset + part] == request[offset..];
      ghost var sent := port.sent;
      AfterMore(moments, k);
      err := SendFragment(port, frame, h, request[offset..offset + part], more);
      if err.Some? {
        FailureIs(port, moments, h, ps, k, request[offset..offset + part], more, err.value);
        return;
      }
      VerdictOfNone(port, h, request[offset..offset + part], more, MomentAt(moments, k));
      NextPrefix(before, sent, ps, k);
      offset := offset + part;
      k := k + 1;
    }
    err := None;
  }

  lemma VerdictOfNone(port: Port, h: Header, part: seq<byte>, more: bool, now: Moment)
    requires |part| < TWO32 && port.FragmentVerdict(h, part, more, now).None?
    ensures port.VerdictAt(Fragment(h, part, more), now).None?
  {
    hide Port.VerdictAt, Fragment;
  }

  /** What one `Poll` brings the waiting caller; an empty poll also samples its context and clock. */
  datatype Polled =
    | Idle(contextDone: bool, expired: bool)
    | Broken(e: SendError)
    | Arrived(p: Packet)

  datatype Outcome = Body(body: seq<byte>) | Error(e: CallError) | Waiting

  datatype Judgement = Skip | Stop(e: CallError) | Take(part: seq<byte>, more: bool)

  /** What a packet means to the call (kind, corr). */
  function Judge(p: Packet, kind: u32, corr: u64): Judgement
  {
    if p.corr == corr && p.kind == KIND_CAPABILITY_ABSENT then Stop(CapabilityAbsent)
    else if p.corr == corr && p.kind == KIND_ERROR then Stop(Rejected)
    else if p.kind != kind || p.corr != corr then Skip
    else
      match DecodeMessage(p.payload)
      case None => Skip
      case Some(m) =>
        if m.operation != OP_RESULT then Skip
        else if m.status != ST_OK then Stop(Failed(m.status))
        else Take(p.payload[MSG_HDR..MSG_HDR + m.bodyLen], p.more)
  }

  /** The length test of the reply loop, in 32-bit arithmetic. */
  predicate TooLong(have: nat, n: nat) { ToU32(ToU32(have) + ToU32(n)) > MAX_BODY }

  /** The sum is small enough that nothing wraps. */
  lemma LengthTestIsExact(have: nat, n: nat)
    requires have <= MAX_BODY && n <= MAX_BODY
    ensures TooLong(have, n) <==> have + n > MAX_BODY
  {
  }

  /** The outcome of waiting with `body` gathered so far. */
  function Await(polls: seq<Polled>, kind: u32, corr: u64, body: seq<byte>): Outcome
    decreases |polls|
  {
    if polls == [] then Waiting
    else
      match polls[0]
      case Broken(e) => Error(Bus(e))
      case Idle(done, expired) =>
        if done then Error(Cancelled) else if expired then Error(Deadline)
        else Await(polls[1..], kind, corr, body)
      case Arrived(p) =>
        match Judge(p, kind, corr)
        case Skip => Await(polls[1..], kind, corr, body)
        case Stop(e) => Error(e)
        case Take(part, more) =>
          if TooLong(|body|, |part|) then Error(Runtime)
          else if more then Await(polls[1..], kind, corr, body + part)
          else Body(body + part)
  }

  method AwaitReply(polls: seq<Polled>, kind: u32, corr: u64) returns (r: Outcome)
    ensures r == Await(polls, kind, corr, [])
    ensures r.Body? ==> |r.body| <= MAX_BODY
  {
    hide DecodeMessage;
    var body: seq<byte> := [];
    var i := 0;
    while i < |polls|
      invariant 0 <= i <= |polls| && |body| <= MAX_BODY
      invariant Await(polls, kind, corr, []) == Await(polls[i..], kind, corr, body)
    {
      var polled := polls[i];
      assert polls[i..][1..] == polls[i + 1..];
      i := i + 1;
      match polled {
        case Broken(e) =>
          return Error(Bus(e));
        case Idle(done, expired) =>
          if done {
            return Error(Cancelled);
          }
          if expired {
            return Error(Deadline);
          }
        case Arrived(p) =>
          if p.corr == corr {
            if p.kind == KIND_CAPABILITY_ABSENT {
              return Error(CapabilityAbsent);
            }
            if p.kind == KIND_ERROR {
              return Error(Rejected);
            }
          }
          if p.kind != kind || p.corr != corr {
            continue;
          }
          var message := DecodeMessage(p.payload);
          if message.None? || message.value.operation != OP_RESULT {
            continue;
          }
          if message.value.status != ST_OK {
            return Error(Failed(message.value.status));
          }
          DecodedBounds(p.payload);
          var part := p.payload[MSG_HDR..MSG_HDR + message.value.bodyLen];
          LengthTestIsExact(|body|, |part|);
          if TooLong(|body|, |part|) {
            return Error(Runtime);
          }
          body := body + part;
          if p.more {
            continue;
          }
          return Body(body);
      }
    }
    r := Waiting;
  }

  lemma DecodedBounds(payload: seq<byte>)
    requires DecodeMessage(payload).Some?
    ensures MSG_HDR + DecodeMessage(payload).value.bodyLen <= |payload|
    ensures DecodeMessage(payload).value.bodyLen <= MAX_BODY
  {
  }

  /** A poll the caller waits through: nothing came and it has not given up, a packet that is
      none of its business, or a fragment of its OK reply that is not the last. */
  predicate Passes(polled: Polled, kind: u32, corr: u64)
  {
    match polled
    case Broken(_) => false
    case Idle(done, expired) => !done && !expired
    case Arrived(p) =>
      p.corr != corr ||
      (p.kind != 3 && p.kind != 4 && (p.kind == kind && IsResult(p.payload) ==> CarriesOk(p.payload) && p.more))
  }

  predicate IsResult(payload: seq<byte>)
  {
    DecodeMessage(payload).Some? && DecodeMessage(payload).value.operation == 2
  }

  predicate CarriesOk(payload: seq<byte>)
  {
    IsResult(payload) && DecodeMessage(payload).value.status == 0
  }

  /** The body bytes an envelope declares. */
  function PartOf(payload: seq<byte>): (part: seq<byte>)
    ensures |part| <= 0x100_0000
  {
    if DecodeMessage(payload).None? then []
    else
      DecodedBounds(payload);
      payload[40..40 + DecodeMessage(payload).value.bodyLen]
  }

  /** The body bytes of the OK fragments that came for the call. */
  function Collected(polls: seq<Polled>, kind: u32, corr: u64): seq<byte>
  {
    if polls == [] then []
    else
      (match polls[0]
       case Arrived(p) => if p.corr == corr && p.kind == kind && CarriesOk(p.payload) then PartOf(p.payload) else []
       case _ => []) + Collected(polls[1..], kind, corr)
  }

  lemma PassOne(polls: seq<Polled>, kind: u32, corr: u64, have: seq<byte>)
    requires polls != [] && Passes(polls[0], kind, corr) && |have| <= 0x100_0000
    ensures var all := have + Collected(polls[..1], kind, corr);
            Await(polls, kind, corr, have) == if |all| > 0x100_0000 then Error(Runtime) else Await(polls[1..], kind, corr, all)
  {
    hide DecodeMessage;
    assert polls[..1][1..] == [] && Collected([], kind, corr) == [];
    if polls[0].Arrived? && polls[0].p.corr == corr && polls[0].p.kind == kind && CarriesOk(polls[0].p.payload) {
      DecodedBounds(polls[0].p.payload);
      LengthTestIsExact(|have|, |PartOf(polls[0].p.payload)|);
      assert Collected(polls[..1], kind, corr) == PartOf(polls[0].p.payload);
    } else {
      assert Collected(polls[..1], kind, corr) == [];
      assert have + [] == have;
    }
  }

  lemma {:induction false} CollectedAppend(a: seq<Polled>, b: seq<Polled>, kind: u32, corr: u64)
    ensures Collected(a + b, kind, corr) == Collected(a, kind, corr) + Collected(b, kind, corr)
  {
    hide CarriesOk, PartOf;
    if a == [] {
      assert a + b == b;
    } else {
      assert (a + b)[1..] == a[1..] + b;
      CollectedAppend(a[1..], b, kind, corr);
    }
  }

  /** Waiting through the first `i` polls collects what they bring, while it fits. */
  lemma {:induction false} AwaitPasses(polls: seq<Polled>, i: nat, kind: u32, corr: u64, have: seq<byte>)
    requires i <= |polls| && forall j :: 0 <= j < i ==> Passes(polls[j], kind, corr)
    requires |have| + |Collected(polls[..i], kind, corr)| <= 0x100_0000
    ensures Await(polls, kind, corr, have) == Await(polls[i..], kind, corr, have + Collected(polls[..i], kind, corr))
    decreases i
  {
    hide Await, Collected, Passes;
    if i == 0 {
      assert polls[0..] == polls && polls[..0] == [];
      assert Collected([], kind, corr) == [] by { NothingCollected(kind, corr); }
      assert have + [] == have;
    } else {
      var rest, one := polls[1..], Collected(polls[..1], kind, corr);
      assert polls[..i] == polls[..1] + rest[..i - 1] && rest[i - 1..] == polls[i..];
      CollectedAppend(polls[..1], rest[..i - 1], kind, corr);
      PassOne(polls, kind, corr, have);
      forall j | 0 <= j < i - 1 ensures Passes(rest[j], kind, corr) { assert rest[j] == polls[j + 1]; }
      AwaitPasses(rest, i - 1, kind, corr, have + one);
      assert have + one + Collected(rest[..i - 1], kind, corr) == have + (one + Collected(rest[..i - 1], kind, corr));
    }
  }

  lemma NothingCollected(kind: u32, corr: u64)
    ensures Collected([], kind, corr) == []
  {
  }

  /** What the poll that ends a wait makes of the bytes collected so far. */
  ghost predicate EndsWith(x: Polled, have: seq<byte>, r: Outcome)
  {
    match x
    case Broken(e) => r == Error(Bus(e))
    case Idle(done, _) => r == Error(if done then Cancelled else Deadline)
    case Arrived(p) =>
      if p.kind == 4 then r == Error(CapabilityAbsent)
      else if p.kind == 3 then r == Error(Rejected)
      else
        IsResult(p.payload) &&
        var status, all := DecodeMessage(p.payload).value.status, have + PartOf(p.payload);
        r == if status != 0 then Error(Failed(status)) else if |all| > 0x100_0000 then Error(Runtime) else Body(all)
  }

  /** How a wait ends: at the first poll it does not wait through, and by what that poll is. The
      host's answers end a call on any kind. */
  lemma AwaitEnds(polls: seq<Polled>, i: nat, kind: u32, corr: u64)
    requires i < |polls| && !Passes(polls[i], kind, corr) && forall j :: 0 <= j < i ==> Passes(polls[j], kind, corr)
    requires |Collected(polls[..i], kind, corr)| <= 0x100_0000
    ensures EndsWith(polls[i], Collected(polls[..i], kind, corr), Await(polls, kind, corr, []))
  {
    var have, x := Collected(polls[..i], kind, corr), polls[i];
    AwaitPasses(polls, i, kind, corr, []);
    assert [] + have == have && polls[i..][0] == x;
    EndsAt(polls[i..], kind, corr, have);
  }

  lemma EndsAt(polls: seq<Polled>, kind: u32, corr: u64, have: seq<byte>)
    requires polls != [] && !Passes(polls[0], kind, corr) && |have| <= 0x100_0000
    ensures EndsWith(polls[0], have, Await(polls, kind, corr, have))
  {
    hide DecodeMessage;
    var x := polls[0];
    if x.Arrived? && IsResult(x.p.payload) {
      DecodedBounds(x.p.payload);
      LengthTestIsExact(|have|, |PartOf(x.p.payload)|);
    }
  }

  /** A reply that grows past 16 MiB ends the wait at the fragment that takes it there. */
  lemma AwaitOverflows(polls: seq<Polled>, i: nat, kind: u32, corr: u64)
    requires i < |polls| && forall j :: 0 <= j <= i ==> Passes(polls[j], kind, corr)
    requires |Collected(polls[..i], kind, corr)| <= 0x100_0000 < |Collected(polls[..i + 1], kind, corr)|
    ensures Await(polls, kind, corr, []) == Error(Runtime)
  {
    hide Await, Collected, Passes;
    AwaitPasses(polls, i, kind, corr, []);
    var have, rest := Collected(polls[..i], kind, corr), polls[i..];
    assert [] + have == have && rest[0] == polls[i];
    assert polls[..i + 1] == polls[..i] + rest[..1];
    CollectedAppend(polls[..i], rest[..1], kind, corr);
    PassOne(rest, kind, corr, have);
  }

  /** While nothing ends it, the caller waits. */
  lemma AwaitWaits(polls: seq<Polled>, kind: u32, corr: u64)
    requires forall j :: 0 <= j < |polls| ==> Passes(polls[j], kind, corr)
    requires |Collected(polls, kind, corr)| <= 0x100_0000
    ensures Await(polls, kind, corr, []) == Waiting
  {
    hide Collected, Passes;
    assert polls[..|polls|] == polls && polls[|polls|..] == [];
    AwaitPasses(polls, |polls|, kind, corr, []);
  }

  /** The packets of one correlation, in order of arrival. */
  function ForCall(polls: seq<Polled>, corr: u64): seq<Packet>
  {
    if polls == [] then []
    else (if polls[0].Arrived? && polls[0].p.corr == corr then [polls[0].p] else []) + ForCall(polls[1..], corr)
  }

  /** No poll fails, and the caller neither gives up nor runs out of time. */
  predicate Patient(polls: seq<Polled>)
  {
    forall i :: 0 <= i < |polls| ==>
      !polls[i].Broken? && (polls[i].Idle? ==> !polls[i].contextDone && !polls[i].expired)
  }

  predicate Reserved(kind: u32) { kind == KIND_ERROR || kind == KIND_CAPABILITY_ABSENT }

  function ReplyHeader(kind: u32, stage: u32, trace: u64, corr: u64, status: u16): Header
  {
    Header(Reply, OP_RESULT, status, kind, corr, stage, 0, trace)
  }

  lemma JudgeFragment(h: Header, part: seq<byte>, more: bool)
    requires h.operation == OP_RESULT && ValidHeader(h) && |part| <= MAX_BODY && !Reserved(h.kind)
    ensures Judge(Fragment(h, part, more), h.kind, h.corr) ==
            if h.status == ST_OK then Take(part, more) else Stop(Failed(h.status))
  {
    hide DecodeMessage, EnvelopeBytes;
    FragmentReads(h, part, more);
    assert BodyOf(Fragment(h, part, more)) == Fragment(h, part, more).payload[MSG_HDR..];
  }

  /** However the fragments of an OK reply are interleaved with traffic of other correlations,
      the caller returns exactly the body that was split. */
  lemma {:induction false} ReplyReassembles(polls: seq<Polled>, h: Header, body: seq<byte>, chunk: nat, have: seq<byte>)
    requires 0 < chunk < TWO32 && Patient(polls) && !Reserved(h.kind)
    requires h.operation == OP_RESULT && h.status == ST_OK && ValidHeader(h)
    requires |have| + |body| <= MAX_BODY
    requires Split(h, body, chunk) <= ForCall(polls, h.corr)
    ensures Await(polls, h.kind, h.corr, have) == Body(have + body)
    decreases |polls|
  {
    hide Judge, TooLong, EnvelopeBytes;
    var ps := Split(h, body, chunk);
    if polls[0].Arrived? && polls[0].p.corr == h.corr {
      assert ps[0] == polls[0].p && ps[1..] <= ForCall(polls[1..], h.corr);
      var part := if |body| <= chunk then body else body[..chunk];
      JudgeFragment(h, part, |body| > chunk);
      LengthTestIsExact(|have|, |part|);
      if |body| > chunk {
        assert have + part + body[chunk..] == have + body;
        ReplyReassembles(polls[1..], h, body[chunk..], chunk, have + part);
      }
    } else {
      JudgeOther(polls[0], h.kind, h.corr);
      ReplyReassembles(polls[1..], h, body, chunk, have);
    }
  }

  lemma JudgeOther(polled: Polled, kind: u32, corr: u64)
    ensures polled.Arrived? && polled.p.corr != corr ==> Judge(polled.p, kind, corr) == Skip
  {
    hide DecodeMessage;
  }

  /** A refusal reaches the caller as its status. */
  lemma {:induction false} RefusalArrives(polls: seq<Polled>, h: Header, chunk: nat, have: seq<byte>)
    requires 0 < chunk < TWO32 && Patient(polls) && !Reserved(h.kind)
    requires h.operation == OP_RESULT && h.status != ST_OK && ValidHeader(h)
    requires Split(h, [], chunk) <= ForCall(polls, h.corr)
    ensures Await(polls, h.kind, h.corr, have) == Error(Failed(h.status))
    decreases |polls|
  {
    hide Judge, EnvelopeBytes;
    if polls[0].Arrived? && polls[0].p.corr == h.corr {
      assert polls[0].p == Split(h, [], chunk)[0];
      JudgeFragment(h, [], false);
    } else {
      JudgeOther(polls[0], h.kind, h.corr);
      RefusalArrives(polls[1..], h, chunk, have);
    }
  }

  /** On a kind the host reserves for its own answers, every reply reads as a refusal. */
  lemma {:induction false} ReservedKindFails(polls: seq<Polled>, kind: u32, corr: u64, have: seq<byte>)
    requires Patient(polls) && Reserved(kind) && ForCall(polls, corr) != [] && ForCall(polls, corr)[0].kind == kind
    ensures Await(polls, kind, corr, have).Error?
    decreases |polls|
  {
    hide DecodeMessage;
    if polls[0].Arrived? && polls[0].p.corr == corr {
      assert ForCall(polls, corr)[0] == polls[0].p;
    } else {
      JudgeOther(polls[0], kind, corr);
      ReservedKindFails(polls[1..], kind, corr, have);
    }
  }

  /** A complete OK reply is returned as its body if and only if the call's kind is not reserved. */
  lemma ReplyReturnedIff(polls: seq<Polled>, h: Header, body: seq<byte>, chunk: nat)
    requires 0 < chunk < TWO32 && Patient(polls) && |body| <= MAX_BODY
    requires h.operation == OP_RESULT && h.status == ST_OK && ValidHeader(h)
    requires Split(h, body, chunk) <= ForCall(polls, h.corr)
    ensures Await(polls, h.kind, h.corr, []) == Body(body) <==> !Reserved(h.kind)
  {
    hide Await, EnvelopeBytes;
    if Reserved(h.kind) {
      assert Split(h, body, chunk)[0].kind == h.kind;
      assert ForCall(polls, h.corr)[0] == Split(h, body, chunk)[0];
      ReservedKindFails(polls, h.kind, h.corr, []);
    } else {
      ReplyReassembles(polls, h, body, chunk, []);
      assert [] + body == body;
    }
  }

  /** A caller serializes its calls and numbers them. */
  class ModuleCaller {
    const port: Port
    var correlation: u64

    constructor (port: Port)
      ensures this.port == port && correlation == 0
    {
      this.port := port;
      correlation := 0;
    }

    /** The request this call sends. */
    function RequestOf(kind: u32, stage: u32, trace: u64, now: u64, deadline: u64): Header
      reads this
    {
      RequestHeader(kind, stage, trace, correlation, if deadline > 0 then Add64(now, deadline) else 0)
    }

    /** One call: number it, send the request, wait for the reply, and cancel on a failed wait.
        `now` is the clock at the start, `deadline` the caller's own bound (0 for none). The
        cancel goes out unless the client refuses it then. */
    method Call(kind: u32, stage: u32, trace: u64, now: u64, deadline: u64, request: seq<byte>, polls: seq<Polled>)
      returns (r: Outcome, ghost k: nat)
      modifies this, port
      ensures ToU32(|request|) > MAX_BODY ==>
        r == Error(Config) && correlation == old(correlation) && port.sent == old(port.sent)
      ensures ToU32(|request|) <= MAX_BODY ==> correlation == Add64(old(correlation), 1)
      ensures ToU32(|request|) <= MAX_BODY && port.budget <= MSG_HDR ==>
        r == Error(Runtime) && port.sent == old(port.sent)
      ensures ToU32(|request|) <= MAX_BODY && port.budget > MSG_HDR ==>
        var h := RequestOf(kind, stage, trace, now, deadline);
        var ps := Split(h, request, port.budget - MSG_HDR);
        var cancel := Packet(Pattern.Cancel, false, kind, correlation, []);
        Accepted(port, old(port.moments), ps, k) &&
        if k < |ps| then
          r.Error? && FailsAt(port, old(port.moments), h, ps, k, r.e) && port.sent == old(port.sent) + ps[..k]
        else
          r == Await(polls, kind, correlation, []) &&
          port.sent == old(port.sent) + ps +
            (if r.Error? && port.VerdictAt(cancel, MomentAt(old(port.moments), |ps|)).None? then [cancel] else [])
    {
      hide Split, Await, Accepted, FailsAt, Port.VerdictAt;
      k := 0;
      if ToU32(|request|) > MAX_BODY {
        return Error(Config), 0;
      }
      correlation := Add64(correlation, 1);
      var due := 0;
      if deadline > 0 {
        due := Add64(now, deadline);
      }
      ghost var h, moments := RequestOf(kind, stage, trace, now, deadline), port.moments;
      var failed;
      failed, k := SendRequest(port, kind, stage, trace, correlation, due, request);
      AcceptedBound(port, moments, h, request, k);
      if failed.Some? {
        return Error(failed.value), k;
      }
      r := AwaitReply(polls, kind, correlation);
      assert port.budget > MSG_HDR ==>
          Split(h, request, port.budget - MSG_HDR)[..k] == Split(h, request, port.budget - MSG_HDR);
      if r.Error? {
        if port.budget > MSG_HDR { AfterMore(moments, k); }
        var _ := port.Send(Packet(Pattern.Cancel, false, kind, correlation, []));
      }
    }
  }

  /** What a call puts on the wire: every packet of its request decodes to an invocation of the
      stage asked for, under the call's own correlation and trace, due at `now + deadline`. */
  lemma RequestReads(caller: ModuleCaller, kind: u32, stage: u32, trace: u64, now: u64, deadline: u64,
                     request: seq<byte>, chunk: nat, i: nat)
    requires 0 < chunk < TWO32 && stage != 0 && (chunk <= MAX_BODY || |request| <= MAX_BODY)
    requires i < |Split(caller.RequestOf(kind, stage, trace, now, deadline), request, chunk)|
    ensures var p := Split(caller.RequestOf(kind, stage, trace, now, deadline), request, chunk)[i];
            p.pattern.Request? && p.kind == kind && p.corr == caller.correlation && DecodeMessage(p.payload).Some? &&
            var m := DecodeMessage(p.payload).value;
            m.operation == 1 && m.status == 0 && m.stageId == stage && m.traceId == trace &&
            m.deadlineNs == if deadline == 0 then 0 else (now + deadline) % 0x1_0000_0000_0000_0000
  {
    hide Split, DecodeMessage;
    PacketsRead(caller.RequestOf(kind, stage, trace, now, deadline), request, chunk, i);
  }

  lemma AcceptedBound(port: Port, moments: seq<Moment>, h: Header, request: seq<byte>, k: nat)
    ensures port.budget > MSG_HDR && Accepted(port, moments, Split(h, request, port.budget - MSG_HDR), k) ==>
              k <= |Split(h, request, port.budget - MSG_HDR)|
  {
    hide Split;
  }

  /** The request-size guard narrows before it compares: it lets an oversized request pass
      exactly when the excess over a multiple of 2^32 is small. */
  lemma SizeGuardIff(n: nat)
    ensures (ToU32(n) > MAX_BODY <==> n > MAX_BODY) <==> (n < TWO32 || n % TWO32 > MAX_BODY)
  {
  }

  /** A request of 2^32 bytes passes the guard. */
  lemma GuardCanFail()
    ensures TWO32 > MAX_BODY && ToU32(TWO32) <= MAX_BODY
  {
  }

  /** Nothing stops the fragments of a request that passed the guard, however long: on legal
      geometry, with a correlation and a stage, sending fails only for the ring or the epoch.
      So `Call` sends such a request out whole; `RequestTails` says what the module makes of it. */
  lemma OversizedGoesOut(port: Port, moments: seq<Moment>, h: Header, request: seq<byte>, k: nat, e: CallError)
    requires LegalBudget(port.budget, port.slotSize) && port.budget > MSG_HDR
    requires h.pattern.Request? && h.corr != 0 && ValidHeader(h)
    requires FailsAt(port, moments, h, Split(h, request, port.budget - MSG_HDR), k, e)
    ensures (e == Bus(ErrEpoch) && !MomentAt(moments, k).sameEpoch) || (e == Bus(ErrWouldBlock) && MomentAt(moments, k).full)
  {
    hide Split, Port.VerdictAt, ValidHeader;
    SplitConserves(h, request, port.budget - MSG_HDR);
    FragmentRefusals(port, h, request, k, MomentAt(moments, k));
  }
}
