/** Sending a reply: fragment by fragment, each tried again and again while the ring is full.
    The moments an attempt meets are the port's, one per attempt. */
module ReplyLoop {
  import opened Words
  import opened Wrappers
  import opened Wire
  import opened Envelope
  import opened Channel
  import opened Fragments
  import opened Ports
  import opened Caller
  import opened Runtime

  /** What the attempts to send one acceptable packet come to, and how many moments they use:
      tried until the ring has room; given up when the epoch changes, before an attempt or
      after the pause, or when the context is done after a refusal. */
  function Attempt(moments: seq<Moment>): (r: (Option<CallError>, nat))
    ensures r.1 <= |moments|
  {
    if moments == [] then (None, 0)
    else if !moments[0].sameEpoch then (Some(Bus(ErrEpoch)), 1)
    else if !moments[0].full then (None, 1)
    else if moments[0].contextDone then (Some(ContextDone), 1)
    else if !MomentAt(moments, 1).sameEpoch then (Some(Bus(ErrEpoch)), 1)
    else
      var (err, n) := Attempt(moments[1..]);
      (err, n + 1)
  }

  /** The same for a stream of packets: the error, the packets sent, the moments used. */
  datatype Course = Course(err: Option<CallError>, sent: nat, used: nat)

  function Attempts(moments: seq<Moment>, n: nat): (c: Course)
    ensures c.used <= |moments| && c.sent <= n && (c.err.None? <==> c.sent == n)
    decreases n
  {
    if n == 0 then Course(None, 0, 0)
    else
      var (err, used) := Attempt(moments);
      if err.Some? then Course(err, 0, used)
      else
        var c := Attempts(moments[used..], n - 1);
        Course(c.err, c.sent + 1, used + c.used)
  }

  /** `b` is what is left of `a` after some attempts. */
  ghost predicate Later(a: seq<Moment>, b: seq<Moment>)
  {
    |b| <= |a| && b == a[|a| - |b|..]
  }

  /** Why attempts stop: the context was done at the last moment they met, or the epoch had
      changed at it or at the look after the pause. */
  ghost predicate StopsAt(err: Option<CallError>, a: seq<Moment>, b: seq<Moment>)
    requires Later(a, b)
  {
    var n := |a| - |b|;
    err == None ||
    (err == Some(ContextDone) && n > 0 && a[n - 1].contextDone) ||
    (err == Some(Bus(ErrEpoch)) && ((n > 0 && !a[n - 1].sameEpoch) || (b != [] && !b[0].sameEpoch)))
  }

  lemma {:induction false} AttemptStops(a: seq<Moment>)
    ensures var (err, n) := Attempt(a); Later(a, a[n..]) && StopsAt(err, a, a[n..])
    decreases |a|
  {
    if a != [] && a[0].sameEpoch && a[0].full && !a[0].contextDone && MomentAt(a, 1).sameEpoch {
      AttemptStops(a[1..]);
      var n := Attempt(a[1..]).1;
      assert a[1..][n..] == a[n + 1..];
    }
  }

  /** A refusal for a full ring that is waited out: the context is not done, and the epoch
      stands before and after. */
  predicate Pauses(a: seq<Moment>, i: nat)
    requires i < |a|
  {
    a[i].sameEpoch && a[i].full && !a[i].contextDone && MomentAt(a, i + 1).sameEpoch
  }

  /** What attempts come to, moment by moment: all but the last were waited out, and the last
      one met decides. */
  lemma {:induction false} AttemptMeans(a: seq<Moment>)
    ensures var (err, n) := Attempt(a);
            (forall i :: 0 <= i < n - 1 ==> Pauses(a, i)) &&
            (n == 0 ==> a == [] && err == None) &&
            (n > 0 ==>
               var m := a[n - 1];
               if Pauses(a, n - 1) then n == |a| && err == None
               else if !m.sameEpoch then err == Some(Bus(ErrEpoch))
               else if !m.full then err == None
               else if m.contextDone then err == Some(ContextDone)
               else err == Some(Bus(ErrEpoch)))
    decreases |a|
  {
    if a != [] && Pauses(a, 0) {
      AttemptMeans(a[1..]);
      var n := Attempt(a[1..]).1;
      forall i | 0 < i < |a| ensures Pauses(a, i) <==> Pauses(a[1..], i - 1) {
        assert a[i] == a[1..][i - 1] && MomentAt(a, i + 1) == MomentAt(a[1..], i);
      }
    }
  }

  lemma {:induction false} AttemptsStop(a: seq<Moment>, n: nat)
    ensures var c := Attempts(a, n); Later(a, a[c.used..]) && StopsAt(c.err, a, a[c.used..])
    decreases n
  {
    if n > 0 {
      AttemptStops(a);
      var (err, used) := Attempt(a);
      if err.None? {
        AttemptsStop(a[used..], n - 1);
        var c := Attempts(a[used..], n - 1);
        assert a[used..][c.used..] == a[used + c.used..];
      }
    }
  }

  /** At none of the moments met was the context done or the epoch another, and the epoch
      still stands. */
  ghost predicate ClearMet(a: seq<Moment>, b: seq<Moment>)
  {
    Later(a, b) && (b != [] ==> b[0].sameEpoch) &&
    forall i :: 0 <= i < |a| - |b| ==> !a[i].contextDone && a[i].sameEpoch
  }

  lemma ClearMetSends(err: Option<CallError>, a: seq<Moment>, b: seq<Moment>)
    requires ClearMet(a, b) && StopsAt(err, a, b)
    ensures err.None?
  {
  }

  lemma LaterStill(a: seq<Moment>, b: seq<Moment>, c: seq<Moment>)
    requires Later(a, b) && Later(b, c)
    ensures Later(a, c)
  {
    var n, m := |a| - |b|, |b| - |c|;
    assert a[n..][m..] == a[n + m..];
  }

  /** A stretch of clear moments is clear. */
  lemma ClearMetPart(a: seq<Moment>, b: seq<Moment>, c: seq<Moment>, d: seq<Moment>)
    requires Later(a, b) && Later(b, c) && Later(c, d) && ClearMet(a, d)
    ensures ClearMet(b, c)
  {
    var n := |a| - |b|;
    LaterStill(a, b, c);
    forall i | 0 <= i < |b| - |c| ensures !b[i].contextDone && b[i].sameEpoch {
      assert b[i] == a[n + i];
    }
    if c != [] && |c| > |d| { assert c[0] == a[|a| - |c|]; }
  }

  /** Encodes a fragment into a buffer of its own. */
  method EncodeFragment(h: Header, part: seq<byte>) returns (payload: Option<seq<byte>>)
    requires |part| < TWO32 - MSG_HDR
    ensures payload == if MessageFor(h, |part|).Valid()
                       then Some(EnvelopeBytes(MessageFor(h, |part|)) + part) else None
  {
    hide EnvelopeBytes;
    var buffer := new byte[MSG_HDR + |part|];
    var written := Encode(MessageFor(h, |part|), buffer);
    if written.None? {
      return None;
    }
    ghost var header := buffer[..MSG_HDR];
    for i := 0 to |part|
      invariant buffer[..MSG_HDR] == header
      invariant buffer[MSG_HDR..MSG_HDR + i] == part[..i]
    {
      buffer[MSG_HDR + i] := part[i];
    }
    assert part[..|part|] == part;
    assert buffer[..] == header + part;
    payload := Some(buffer[..]);
  }

  /** A port that will send this packet as soon as the ring has room. */
  predicate Accepts(port: Port, p: Packet)
  {
    LegalBudget(port.budget, port.slotSize) && |p.payload| <= port.budget && p.corr != 0 &&
    p.pattern.Reply? && (p.more ==> |p.payload| > 0)
  }

  lemma AcceptedVerdict(port: Port, p: Packet, now: Moment)
    requires Accepts(port, p)
    ensures port.VerdictAt(p, now) ==
            if !now.sameEpoch then Some(ErrEpoch) else if now.full then Some(ErrWouldBlock) else None
  {
    hide EmitVerdict, EmitFrame;
    FragmentsAreAccepted(now.sameEpoch, port.budget, port.slotSize, now.full,
                         port.handle, p.pattern, p.more, p.kind, p.corr, |p.payload|);
  }

  /** Sends one packet, again and again while the ring is full, until it is out, the
      context is done, or the host restarts. */
  method SendUntilDone(port: Port, p: Packet) returns (err: Option<CallError>)
    modifies port
    ensures port.sent == if err.None? then old(port.sent) + [p] else old(port.sent)
    ensures Later(old(port.moments), port.moments)
    ensures Accepts(port, p) ==>
      var (e, n) := Attempt(old(port.moments)); err == e && port.moments == old(port.moments)[n..]
  {
    hide EmitVerdict, EmitFrame, Accepts;
    ghost var n := 0;
    while true
      invariant port.sent == old(port.sent)
      invariant n <= |old(port.moments)| && port.moments == old(port.moments)[n..]
      invariant Accepts(port, p) ==>
        Attempt(old(port.moments)) == (Attempt(port.moments).0, n + Attempt(port.moments).1)
      decreases |port.moments|
    {
      if port.moments == [] {
        FullNeedsMoment(port.handle, p, port.budget, port.slotSize);
      }
      if Accepts(port, p) {
        AcceptedVerdict(port, p, port.Now());
      }
      hide Port.VerdictAt;
      var found := port.Now();
      var refused := port.Send(p);
      n := if n < |old(port.moments)| then n + 1 else n;
      if refused.None? {
        return None;
      }
      if refused != Some(ErrWouldBlock) {
        return Some(Bus(refused.value));
      }
      if found.contextDone {
        return Some(ContextDone);
      }
      if !port.Now().sameEpoch {
        return Some(Bus(ErrEpoch));
      }
    }
  }

  /** The geometry on which every reply can be built and sent. */
  predicate Legal(port: Port) { LegalBudget(port.budget, port.slotSize) && port.budget > MSG_HDR }

  /** Builds one fragment and sends it. */
  method SendPart(port: Port, h: Header, part: seq<byte>, more: bool) returns (err: Option<CallError>)
    requires MSG_HDR + |part| <= port.budget && h.pattern.Reply? && |part| <= MAX_BODY
    modifies port
    ensures port.sent == if err.None? then old(port.sent) + [Fragment(h, part, more)] else old(port.sent)
    ensures Later(old(port.moments), port.moments)
    ensures Legal(port) && h.corr != 0 && ValidHeader(h) ==>
      var (e, n) := Attempt(old(port.moments)); err == e && port.moments == old(port.moments)[n..]
  {
    hide EnvelopeBytes, LegalBudget, Message.Valid, Attempt;
    var payload := EncodeFragment(h, part);
    if ValidHeader(h) {
      FragmentEnvelopeValid(h, |part|);
    }
    if payload.None? {
      return Some(BadMessage);
    }
    err := SendUntilDone(port, Packet(Pattern.Reply, more, h.kind, h.corr, payload.value));
  }

  /** Part of a course is done: `k` packets are out and `used` moments met. */
  ghost predicate Underway(all: seq<Moment>, total: nat, k: nat, left: seq<Moment>)
  {
    k <= total && Later(all, left) &&
    var c := Attempts(left, total - k);
    Attempts(all, total) == Course(c.err, k + c.sent, |all| - |left| + c.used)
  }

  lemma UnderwayStart(all: seq<Moment>, total: nat)
    ensures Underway(all, total, 0, all)
  {
    assert all[0..] == all;
  }

  /** One more attempt: another packet is out, or the course ends here. */
  lemma UnderwayNext(all: seq<Moment>, total: nat, k: nat, left: seq<Moment>)
    requires Underway(all, total, k, left) && k < total
    ensures var (err, n) := Attempt(left);
            if err.None? then Underway(all, total, k + 1, left[n..])
            else Attempts(all, total) == Course(err, k, |all| - |left[n..]|)
  {
    hide Attempt;
    var (err, n) := Attempt(left);
    LaterStill(all, left, left[n..]);
  }

  /** The fragment loop of a reply. */
  method SendFragments(port: Port, h: Header, body: seq<byte>) returns (err: Option<CallError>, ghost k: nat)
    requires port.budget > MSG_HDR && h.pattern.Reply? && |body| <= MAX_BODY
    modifies port
    ensures SentPrefix(old(port.sent), port.sent, Split(h, body, port.budget - MSG_HDR), k)
    ensures err.None? <==> k == |Split(h, body, port.budget - MSG_HDR)|
    ensures Later(old(port.moments), port.moments)
    ensures Legal(port) && h.corr != 0 && ValidHeader(h) ==>
      Attempts(old(port.moments), |Split(h, body, port.budget - MSG_HDR)|) ==
      Course(err, k, |old(port.moments)| - |port.moments|)
  {
    hide EnvelopeBytes, Split, Message.Valid, AtOffset, SentPrefix, Fragment, ValidHeader,
         Later, Legal, Attempt, Attempts, Underway;
    k := 0;
    var chunk: nat := port.budget - MSG_HDR;
    ghost var ps := Split(h, body, chunk);
    ghost var before, moments := port.sent, port.moments;
    LaterNow(moments);
    UnderwayStart(moments, |ps|);
    StartOffset(h, body, chunk);
    NoneSent(before, ps);
    ghost var good := Legal(port) && h.corr != 0 && ValidHeader(h);
    var first, offset := true, 0;
    while first || offset < |body|
      invariant 0 <= offset <= |body|
      invariant SentPrefix(before, port.sent, ps, k) && Later(moments, port.moments)
      invariant good ==> Underway(moments, |ps|, k, port.moments)
      invariant if first || offset < |body| then AtOffset(h, body, chunk, k, offset) else k == |ps|
      invariant first ==> offset == 0
      decreases first, |body| - offset
    {
      first := false;
      var part := |body| - offset;
      if part > chunk {
        part := chunk;
      }
      var more := offset + part < |body|;
      NextOffset(h, body, chunk, k, offset);
      assert offset + part == |body| ==> body[offset..offset + part] == body[offset..];
      ghost var sent, at := port.sent, port.moments;
      if good {
        UnderwayNext(moments, |ps|, k, at);
      }
      err := SendPart(port, h, body[offset..offset + part], more);
      LaterStill(moments, at, port.moments);
      if err.Some? {
        return;
      }
      NextPrefix(before, sent, ps, k);
      offset := offset + part;
      k := k + 1;
    }
    if good {
      UnderwayEnd(moments, |ps|, port.moments);
    }
    err := None;
  }

  lemma LaterNow(a: seq<Moment>)
    ensures Later(a, a)
  {
  }

  lemma UnderwayEnd(all: seq<Moment>, total: nat, left: seq<Moment>)
    requires Underway(all, total, total, left)
    ensures Attempts(all, total) == Course(None, total, |all| - |left|)
  {
    hide Attempt;
  }

  /** Replies in fragments. The reply is complete exactly when no error is returned; an
      error leaves a prefix of its packets sent. With a correlation, a stage and legal
      geometry, what comes of it is what its attempts meet: nothing but a done context or a
      host restart, met at one of them, stops it. */
  method ReplyResult(port: Port, kind: u32, corr: u64, stage: u32, trace: u64, status: u16, body: seq<byte>)
    returns (err: Option<CallError>, ghost k: nat)
    modifies port
    ensures Later(old(port.moments), port.moments)
    ensures var (st, b) := Normal(status, body);
            var ps := Pieces(port.budget, ReplyHeader(kind, stage, trace, corr, st), b);
            k <= |ps| && port.sent == old(port.sent) + ps[..k] &&
            (err.None? <==> port.budget > MSG_HDR && k == |ps|) &&
            (Legal(port) && corr != 0 && stage != 0 ==>
               Attempts(old(port.moments), |ps|) == Course(err, k, |old(port.moments)| - |port.moments|))
    ensures Legal(port) && corr != 0 && stage != 0 ==> StopsAt(err, old(port.moments), port.moments)
  {
    hide EnvelopeBytes, Split, LegalBudget, Attempts, StopsAt;
    k := 0;
    var st, b := status, body;
    if st > ST_INTERNAL || |b| > MAX_BODY {
      st, b := ST_INTERNAL, [];
    } else if st != ST_OK {
      b := [];
    }
    if port.budget <= MSG_HDR {
      return Some(Runtime), 0;
    }
    ghost var moments := port.moments;
    err, k := SendFragments(port, ReplyHeader(kind, stage, trace, corr, st), b);
    AttemptsStop(moments, |Split(ReplyHeader(kind, stage, trace, corr, st), b, port.budget - MSG_HDR)|);
  }

  /** The packets of a reply on a given budget. */
  function Pieces(budget: u32, h: Header, body: seq<byte>): seq<Packet>
  {
    Stream(Runtime.Config.Config(map[], false, budget), h, body)
  }

  lemma PiecesAre(cfg: Config, h: Header, body: seq<byte>)
    ensures Stream(cfg, h, body) == Pieces(cfg.budget, h, body)
  {
  }
}
