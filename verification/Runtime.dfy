/** The serving loop of a module process as a state machine: each action is one step of
    the loop or of a handler goroutine, and runs interleave them freely. Work items are
    named by their position in `works`, which stands for their identity. `out` and `log`
    are history: the packets sent and what became of every request. */
module Runtime {
  import opened Words
  import opened Wrappers
  import opened Envelope
  import opened Fragments
  import opened Caller

  const MAX_IN_FLIGHT := 16

  datatype Config = Config(stages: map<u32, u32>, hasHandler: bool, budget: u32)

  datatype Assembly = Assembly(kind: u32, message: Message, body: seq<byte>)

  datatype Work = Work(kind: u32, corr: u64, stage: u32, deadline: u64, trace: u64)

  datatype HandlerPc = Executing(body: seq<byte>) | Sending(status: u16, body: seq<byte>)

  datatype Done = Done(id: nat, status: u16, body: seq<byte>)

  datatype Phase = Serving | Draining | Returned

  /** History entries. `k` is the number of packets of a reply stream that were sent. */
  datatype Entry =
    | Refused(h: Header, k: nat)
    | Kept(corr: u64)
    | Started(id: nat, corr: u64, body: seq<byte>)
    | Answered(id: nat, response: seq<byte>, status: u16, flagged: bool, late: bool)
    | Finished(id: nat, h: Header, body: seq<byte>, k: nat)
    | Drained(id: nat, corr: u64)

  datatype State = State(
    assemblies: map<u64, Assembly>,
    jobs: map<u64, nat>,
    works: seq<Work>,
    cancelled: set<nat>,
    handlers: map<nat, HandlerPc>,
    done: seq<Done>,
    phase: Phase,
    out: seq<Packet>,
    log: seq<Entry>)

  function StageOf(cfg: Config, kind: u32): u32
  {
    if kind in cfg.stages then cfg.stages[kind] else 0
  }

  /** What becomes of a request packet. */
  datatype Verdict =
    | Invalid
    | TableFull
    | TooLarge
    | Buffer(a: Assembly)
    | Expired
    | NoHandler
    | Busy
    | Start(a: Assembly)

  /** A later fragment must repeat the kind, stage, deadline and trace of the first. */
  predicate Continues(a: Assembly, kind: u32, m: Message)
  {
    a.kind == kind && a.message.stageId == m.stageId &&
    a.message.deadlineNs == m.deadlineNs && a.message.traceId == m.traceId
  }

  predicate Acceptable(cfg: Config, assemblies: map<u64, Assembly>, jobs: map<u64, nat>, p: Packet)
  {
    var m := DecodeMessage(p.payload);
    StageOf(cfg, p.kind) != 0 && m.Some? && m.value.operation == OP_INVOKE &&
    m.value.stageId == StageOf(cfg, p.kind) && p.corr !in jobs &&
    (p.corr in assemblies ==> Continues(assemblies[p.corr], p.kind, m.value))
  }

  function Decide(cfg: Config, assemblies: map<u64, Assembly>, jobs: map<u64, nat>, p: Packet, now: u64): Verdict
  {
    if !Acceptable(cfg, assemblies, jobs, p) then Invalid
    else if p.corr !in assemblies && |assemblies| >= MAX_IN_FLIGHT then TableFull
    else
      var m := DecodeMessage(p.payload).value;
      var part := p.payload[MSG_HDR..MSG_HDR + m.bodyLen];
      var a := if p.corr in assemblies then assemblies[p.corr] else Assembly(p.kind, m, []);
      if |a.body| + |part| > MAX_BODY then TooLarge
      else if p.more then Buffer(a.(body := a.body + part))
      else if m.DeadlineExpired(now) then Expired
      else if !cfg.hasHandler then NoHandler
      else if |jobs| >= MAX_IN_FLIGHT then Busy
      else Start(a.(body := a.body + part))
  }

  /** The reply a refusal sends; its trace is lost only for an invalid request. */
  function RefusalHeader(cfg: Config, p: Packet, v: Verdict): Option<Header>
  {
    var stage := StageOf(cfg, p.kind);
    var trace := match DecodeMessage(p.payload) case Some(m) => m.traceId case None => 0;
    match v
    case Invalid => Some(ReplyHeader(p.kind, if stage == 0 then 1 else stage, 0, p.corr, ST_INVALID_REQUEST))
    case TableFull => Some(ReplyHeader(p.kind, stage, trace, p.corr, ST_INTERNAL))
    case TooLarge => Some(ReplyHeader(p.kind, stage, trace, p.corr, ST_INTERNAL))
    case Expired => Some(ReplyHeader(p.kind, stage, trace, p.corr, ST_DEADLINE_EXCEEDED))
    case NoHandler => Some(ReplyHeader(p.kind, stage, trace, p.corr, ST_CAPABILITY_ABSENT))
    case Busy => Some(ReplyHeader(p.kind, stage, trace, p.corr, ST_INTERNAL))
    case Buffer(_) => None
    case Start(_) => None
  }

  /** A status out of range or a body too long becomes Internal; only OK carries a body. */
  function Normal(status: u16, body: seq<byte>): (u16, seq<byte>)
  {
    if status > ST_INTERNAL || |body| > MAX_BODY then (ST_INTERNAL, [])
    else if status != ST_OK then (status, [])
    else (status, body)
  }

  /** What a handler's answer becomes after the last look at the cancel flag and the clock. */
  function Answer(response: seq<byte>, status: u16, flagged: bool, late: bool): (u16, seq<byte>)
  {
    if flagged then (ST_CANCELLED, [])
    else if late then (ST_DEADLINE_EXCEEDED, [])
    else Normal(status, response)
  }

  predicate Late(w: Work, now: u64) { w.deadline != 0 && now != 0 && now >= w.deadline }

  /** The packets of a reply; none can be built on a budget without room for a body byte. */
  function Stream(cfg: Config, h: Header, body: seq<byte>): seq<Packet>
  {
    if cfg.budget <= MSG_HDR then [] else Split(h, body, cfg.budget - MSG_HDR)
  }

  predicate Whole(cfg: Config, h: Header, body: seq<byte>, k: nat)
  {
    cfg.budget > MSG_HDR && k == |Stream(cfg, h, body)|
  }

  datatype Action =
    | Handle(p: Packet, now: u64, k: nat)   // the loop takes a packet; k reply packets get out
    | Finish(k: nat)                        // the loop takes a result and replies
    | HandlerReturns(id: nat, response: seq<byte>, status: u16, now: u64)
    | HandlerSends(id: nat)
    | Shutdown                              // the loop sees its context done
    | DrainReceive
    | Stop                                  // epoch change, poll error, or drained

  predicate IsRequest(p: Packet) { p.pattern.Request? }

  predicate Enabled(cfg: Config, s: State, a: Action)
  {
    match a
    case Handle(p, now, k) =>
      s.phase.Serving? &&
      (var v := Decide(cfg, s.assemblies, s.jobs, p, now);
       k <= if IsRequest(p) && RefusalHeader(cfg, p, v).Some?
            then |Stream(cfg, RefusalHeader(cfg, p, v).value, [])| else 0)
    case Finish(k) =>
      s.phase.Serving? && s.done != [] && s.done[0].id < |s.works| &&
      k <= |Stream(cfg, ResultHeader(s, s.done[0]), Normal(s.done[0].status, s.done[0].body).1)|
    case HandlerReturns(id, _, _, _) => id in s.handlers && s.handlers[id].Executing? && id < |s.works|
    case HandlerSends(id) => id in s.handlers && s.handlers[id].Sending? && |s.done| < MAX_IN_FLIGHT
    case Shutdown => s.phase.Serving?
    case DrainReceive => s.phase.Draining? && |s.jobs| > 0 && s.done != [] && s.done[0].id < |s.works|
    case Stop => s.phase.Serving? || (s.phase.Draining? && |s.jobs| == 0)
  }

  function ResultHeader(s: State, d: Done): Header
    requires d.id < |s.works|
  {
    var w := s.works[d.id];
    ReplyHeader(w.kind, w.stage, w.trace, w.corr, Normal(d.status, d.body).0)
  }

  /** Sending the first `k` packets of a reply; a stream cut short ends the loop. */
  function SendReply(cfg: Config, s: State, h: Header, body: seq<byte>, k: nat, e: Entry): State
    requires k <= |Stream(cfg, h, body)|
  {
    s.(out := s.out + Stream(cfg, h, body)[..k],
       phase := if Whole(cfg, h, body, k) then s.phase else Returned,
       log := s.log + [e])
  }

  function HandleRequest(cfg: Config, s: State, p: Packet, now: u64, k: nat): State
    requires IsRequest(p) && Enabled(cfg, s, Handle(p, now, k))
  {
    var v := Decide(cfg, s.assemblies, s.jobs, p, now);
    match v
    case Buffer(a) => s.(assemblies := s.assemblies[p.corr := a], log := s.log + [Kept(p.corr)])
    case Start(a) =>
      var id := |s.works|;
      var m := DecodeMessage(p.payload).value;
      s.(assemblies := s.assemblies - {p.corr},
         jobs := s.jobs[p.corr := id],
         works := s.works + [Work(p.kind, p.corr, StageOf(cfg, p.kind), m.deadlineNs, m.traceId)],
         handlers := s.handlers[id := Executing(a.body)],
         log := s.log + [Started(id, p.corr, a.body)])
    case _ =>
      var h := RefusalHeader(cfg, p, v).value;
      SendReply(cfg, s.(assemblies := s.assemblies - {p.corr}), h, [], k, Refused(h, k))
  }

  function HandleCancel(s: State, corr: u64): State
  {
    s.(cancelled := if corr in s.jobs then s.cancelled + {s.jobs[corr]} else s.cancelled,
       assemblies := s.assemblies - {corr})
  }

  function Step(cfg: Config, s: State, a: Action): State
    requires Enabled(cfg, s, a)
  {
    match a
    case Handle(p, now, k) =>
      if p.pattern.Cancel? then HandleCancel(s, p.corr)
      else if IsRequest(p) then HandleRequest(cfg, s, p, now, k)
      else s
    case Finish(k) =>
      var d := s.done[0];
      var h, body := ResultHeader(s, d), Normal(d.status, d.body).1;
      SendReply(cfg, s.(jobs := s.jobs - {s.works[d.id].corr}, done := s.done[1..]), h, body, k,
            Finished(d.id, h, body, k))
    case HandlerReturns(id, response, status, now) =>
      var flagged, late := id in s.cancelled, Late(s.works[id], now);
      var (st, body) := Answer(response, status, flagged, late);
      s.(handlers := s.handlers[id := Sending(st, body)],
         log := s.log + [Answered(id, response, status, flagged, late)])
    case HandlerSends(id) =>
      s.(handlers := s.handlers - {id},
         done := s.done + [Done(id, s.handlers[id].status, s.handlers[id].body)])
    case Shutdown =>
      s.(cancelled := s.cancelled + s.jobs.Values, phase := Draining)
    case DrainReceive =>
      var d := s.done[0];
      s.(jobs := s.jobs - {s.works[d.id].corr}, done := s.done[1..],
         log := s.log + [Drained(d.id, s.works[d.id].corr)])
    case Stop => s.(phase := Returned)
  }

  ghost predicate Runs(cfg: Config, s: State, acts: seq<Action>, s': State)
    decreases |acts|
  {
    if acts == [] then s' == s
    else Enabled(cfg, s, acts[0]) && Runs(cfg, Step(cfg, s, acts[0]), acts[1..], s')
  }

  const EMPTY := State(map[], map[], [], {}, map[], [], Serving, [], [])

  /** The work item is the one stored under its own correlation. */
  predicate Live(s: State, id: nat)
  {
    id < |s.works| && s.works[id].corr in s.jobs && s.jobs[s.works[id].corr] == id
  }

  /** The accounting invariant. */
  ghost predicate Inv(s: State)
  {
    |s.assemblies| <= MAX_IN_FLIGHT && |s.jobs| <= MAX_IN_FLIGHT &&
    |s.handlers| + |s.done| == |s.jobs| &&
    (forall c :: c in s.assemblies ==> c !in s.jobs && |s.assemblies[c].body| <= MAX_BODY) &&
    (forall c :: c in s.jobs ==> s.jobs[c] < |s.works| && s.works[s.jobs[c]].corr == c) &&
    (forall id :: id in s.handlers ==> Live(s, id)) &&
    (forall i :: 0 <= i < |s.done| ==> Live(s, s.done[i].id) && s.done[i].id !in s.handlers) &&
    (forall i, j :: 0 <= i < j < |s.done| ==> s.done[i].id != s.done[j].id)
  }

  lemma StartsEmpty()
    ensures Inv(EMPTY)
  {
  }
}
