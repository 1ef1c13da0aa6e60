/** End to end: a request split by the caller, however its fragments are interleaved with
    other traffic and whatever else the module does, starts exactly one job on exactly the
    request's bytes; and the reply of that job returns to the caller what the handler said. */
module CallFidelity {
  import opened Words
  import opened Wrappers
  import opened Envelope
  import opened Fragments
  import opened Ports
  import opened Caller
  import opened Runtime
  import opened RuntimeInv
  import opened RuntimeHistory
  import opened RuntimeJobs

  predicate IsStartOf(e: Entry, c: u64) { e.Started? && e.corr == c }

  predicate IsReplyOf(e: Entry, c: u64) { (e.Refused? || e.Finished?) && e.h.corr == c }

  /** The jobs started for a correlation, and the replies sent on it, oldest first. */
  function Starts(log: seq<Entry>, c: u64): seq<Entry>
  {
    if log == [] then []
    else Starts(log[..|log| - 1], c) + (if IsStartOf(log[|log| - 1], c) then [log[|log| - 1]] else [])
  }

  function Replies(log: seq<Entry>, c: u64): seq<Entry>
  {
    if log == [] then []
    else Replies(log[..|log| - 1], c) + (if IsReplyOf(log[|log| - 1], c) then [log[|log| - 1]] else [])
  }

  lemma HistoryAppend(log: seq<Entry>, e: Entry, c: u64)
    ensures Starts(log + [e], c) == Starts(log, c) + (if IsStartOf(e, c) then [e] else [])
    ensures Replies(log + [e], c) == Replies(log, c) + (if IsReplyOf(e, c) then [e] else [])
  {
    assert (log + [e])[..|log|] == log;
  }

  /** What the module knows and has done about one correlation. */
  datatype View = View(asm: Option<Assembly>, job: Option<nat>, starts: seq<Entry>, replies: seq<Entry>)

  function ViewOf(s: State, c: u64): View
  {
    View(if c in s.assemblies then Some(s.assemblies[c]) else None,
         if c in s.jobs then Some(s.jobs[c]) else None,
         Starts(s.log, c), Replies(s.log, c))
  }

  /** Actions that concern a correlation: its packets, and the end of its job. */
  predicate Concerns(s: State, a: Action, c: u64)
  {
    match a
    case Handle(p, _, _) => p.corr == c
    case Finish(_) => s.done != [] && s.done[0].id < |s.works| && s.works[s.done[0].id].corr == c
    case DrainReceive => s.done != [] && s.done[0].id < |s.works| && s.works[s.done[0].id].corr == c
    case _ => false
  }

  lemma RefusalCorr(cfg: Config, p: Packet, v: Verdict)
    requires RefusalHeader(cfg, p, v).Some?
    ensures RefusalHeader(cfg, p, v).value.corr == p.corr
  {
    hide DecodeMessage, StageOf;
  }

  lemma OtherRequest(cfg: Config, s: State, p: Packet, now: u64, k: nat, c: u64)
    requires IsRequest(p) && Enabled(cfg, s, Handle(p, now, k)) && p.corr != c
    ensures ViewOf(HandleRequest(cfg, s, p, now, k), c) == ViewOf(s, c)
  {
    hide DecodeMessage, Stream, StageOf, Decide, RefusalHeader, Enabled, Starts, Replies, Whole;
    DecidedBody(cfg, s.assemblies, s.jobs, p, now);
    var v := Decide(cfg, s.assemblies, s.jobs, p, now);
    var s' := HandleRequest(cfg, s, p, now, k);
    if Refuses(v) {
      RefusalShape(cfg, s, p, now, k);
      RefusalCorr(cfg, p, v);
      hide HandleRequest;
      HistoryAppend(s.log, s'.log[|s.log|], c);
    } else {
      HistoryAppend(s.log, s'.log[|s.log|], c);
    }
  }

  /** A history entry about something else, and no change at this correlation. */
  lemma SameView(s: State, s': State, e: Entry, c: u64)
    requires s'.log == s.log + [e] && !IsStartOf(e, c) && !IsReplyOf(e, c)
    requires c in s.assemblies <==> c in s'.assemblies
    requires c in s.assemblies ==> s'.assemblies[c] == s.assemblies[c]
    requires c in s.jobs <==> c in s'.jobs
    requires c in s.jobs ==> s'.jobs[c] == s.jobs[c]
    ensures ViewOf(s', c) == ViewOf(s, c)
  {
    hide Starts, Replies;
    HistoryAppend(s.log, e, c);
  }

  lemma OtherFinish(cfg: Config, s: State, k: nat, c: u64)
    requires Enabled(cfg, s, Finish(k)) && !Concerns(s, Finish(k), c)
    ensures ViewOf(Step(cfg, s, Finish(k)), c) == ViewOf(s, c)
  {
    hide Stream, Normal, ViewOf, Whole;
    var s' := Step(cfg, s, Finish(k));
    SameView(s, s', s'.log[|s.log|], c);
  }

  lemma OtherHandler(cfg: Config, s: State, a: Action, c: u64)
    requires Enabled(cfg, s, a) && (a.HandlerReturns? || a.HandlerSends?)
    ensures ViewOf(Step(cfg, s, a), c) == ViewOf(s, c)
  {
    hide Answer, Starts, Replies, Late;
    var s' := Step(cfg, s, a);
    if a.HandlerReturns? {
      HistoryAppend(s.log, s'.log[|s.log|], c);
    }
  }

  lemma OtherPacket(cfg: Config, s: State, p: Packet, now: u64, k: nat, c: u64)
    requires Enabled(cfg, s, Handle(p, now, k)) && p.corr != c
    ensures ViewOf(Step(cfg, s, Handle(p, now, k)), c) == ViewOf(s, c)
  {
    hide Stream, HandleRequest, Decide, RefusalHeader, Starts, Replies;
    if IsRequest(p) {
      OtherRequest(cfg, s, p, now, k, c);
    }
  }

  lemma OtherEnd(cfg: Config, s: State, a: Action, c: u64)
    requires Enabled(cfg, s, a) && !Concerns(s, a, c) && (a.DrainReceive? || a.Shutdown? || a.Stop?)
    ensures ViewOf(Step(cfg, s, a), c) == ViewOf(s, c)
  {
    hide Starts, Replies, Stream, Decide, RefusalHeader;
    if a.DrainReceive? {
      hide ViewOf;
      var s' := Step(cfg, s, a);
      SameView(s, s', s'.log[|s.log|], c);
    }
  }

  /** Whatever else the module does leaves a correlation's view alone. */
  lemma OthersLeaveView(cfg: Config, s: State, a: Action, c: u64)
    requires Enabled(cfg, s, a) && !Concerns(s, a, c)
    ensures ViewOf(Step(cfg, s, a), c) == ViewOf(s, c)
  {
    hide Step, Enabled, ViewOf;
    if a.Handle? {
      OtherPacket(cfg, s, a.p, a.now, a.k, c);
    } else if a.Finish? {
      OtherFinish(cfg, s, a.k, c);
    } else if a.HandlerReturns? || a.HandlerSends? {
      OtherHandler(cfg, s, a, c);
    } else {
      OtherEnd(cfg, s, a, c);
    }
  }

  /** The module serves the stage this request names. */
  predicate Serves(cfg: Config, h: Header)
  {
    h.pattern.Request? && h.operation == OP_INVOKE && h.status == ST_OK &&
    h.stage != 0 && StageOf(cfg, h.kind) == h.stage && cfg.hasHandler
  }

  /** What has been gathered of a request so far: nothing, or an assembly that every
      further fragment continues. */
  ghost predicate Gathered(assemblies: map<u64, Assembly>, h: Header, first: bool, have: seq<byte>)
  {
    if first then h.corr !in assemblies && have == []
    else h.corr in assemblies && assemblies[h.corr].body == have &&
         Continues(assemblies[h.corr], h.kind, MessageFor(h, 0))
  }

  /** One more fragment of a good request is kept, or completes it and starts the job. */
  lemma FragmentDecided(cfg: Config, assemblies: map<u64, Assembly>, jobs: map<u64, nat>, h: Header,
                        first: bool, have: seq<byte>, part: seq<byte>, more: bool, now: u64)
    requires Serves(cfg, h) && Gathered(assemblies, h, first, have) && h.corr !in jobs
    requires |have| + |part| <= MAX_BODY && (first ==> |assemblies| < MAX_IN_FLIGHT)
    requires more || (|jobs| < MAX_IN_FLIGHT && (h.deadline == 0 || now < h.deadline))
    ensures var v := Decide(cfg, assemblies, jobs, Fragment(h, part, more), now);
            (if more then v.Buffer? else v.Start?) && v.a.body == have + part &&
            Continues(v.a, h.kind, MessageFor(h, 0))
  {
    hide DecodeMessage, EnvelopeBytes, StageOf;
    var p := Fragment(h, part, more);
    FragmentReads(h, part, more);
    assert p.payload[MSG_HDR..MSG_HDR + |part|] == part by {
      assert p.payload[MSG_HDR..] == BodyOf(p);
    }
    if first { assert [] + part == part; }
  }

  /** The run carries exactly these packets of the correlation, in order, anything else in
      between; a table slot is free at the first, a job slot at the last, and the deadline
      has not passed then. */
  ghost predicate Carried(cfg: Config, s: State, acts: seq<Action>, h: Header, todo: seq<Packet>)
    decreases |acts|
  {
    if acts == [] then todo == []
    else
      var a := acts[0];
      Enabled(cfg, s, a) &&
      if a.Handle? && a.p.corr == h.corr then
        todo != [] && a.p == todo[0] &&
        (h.corr in s.assemblies || |s.assemblies| < MAX_IN_FLIGHT) &&
        (a.p.more || (|s.jobs| < MAX_IN_FLIGHT && (h.deadline == 0 || a.now < h.deadline))) &&
        Carried(cfg, Step(cfg, s, a), acts[1..], h, todo[1..])
      else Carried(cfg, Step(cfg, s, a), acts[1..], h, todo)
  }

  /** The work item of a request. */
  function WorkFor(h: Header): Work { Work(h.kind, h.corr, h.stage, h.deadline, h.trace) }

  /** One job was started, on this body; it is still open, was drained, or sent its one reply.
      `starts` and `replies` are what the history held of the correlation before. */
  ghost predicate StartedOnce(s: State, starts: seq<Entry>, replies: seq<Entry>, h: Header, id: nat, body: seq<byte>)
  {
    var v := ViewOf(s, h.corr);
    id < |s.works| && s.works[id] == WorkFor(h) && v.asm.None? &&
    v.starts == starts + [Started(id, h.corr, body)] &&
    (v.job == Some(id) || v.job == None) &&
    (v.replies == replies ||
     (v.job.None? && |v.replies| == |replies| + 1 && v.replies[..|replies|] == replies &&
      RepliesFor(v.replies[|replies|], h, id)))
  }

  predicate RepliesFor(e: Entry, h: Header, id: nat)
  {
    e.Finished? && e.id == id && e.h == ReplyHeader(h.kind, h.stage, h.trace, h.corr, e.h.status)
  }

  /** The end of the job moves the view from open to replied or drained. */
  lemma EndOfJob(cfg: Config, s: State, a: Action, starts: seq<Entry>, replies: seq<Entry>,
                 h: Header, id: nat, body: seq<byte>)
    requires Inv(s) && Enabled(cfg, s, a) && StartedOnce(s, starts, replies, h, id, body)
    requires Concerns(s, a, h.corr) && !a.Handle?
    ensures StartedOnce(Step(cfg, s, a), starts, replies, h, id, body)
  {
    hide Stream, Normal, Starts, Replies, Whole;
    assert Live(s, s.done[0].id);
    assert s.done[0].id == id;
    var s' := Step(cfg, s, a);
    HistoryAppend(s.log, s'.log[|s.log|], h.corr);
  }

  /** Once started, nothing but the end of the job concerns the correlation. */
  lemma {:induction false} StaysStarted(cfg: Config, s: State, acts: seq<Action>, s': State,
                                        starts: seq<Entry>, replies: seq<Entry>, h: Header, id: nat, body: seq<byte>)
    requires Inv(s) && Runs(cfg, s, acts, s') && Carried(cfg, s, acts, h, [])
    requires StartedOnce(s, starts, replies, h, id, body)
    ensures StartedOnce(s', starts, replies, h, id, body)
    decreases |acts|
  {
    hide Inv, Step, Enabled, StartedOnce;
    if acts != [] {
      var n := Step(cfg, s, acts[0]);
      StepKeepsInv(cfg, s, acts[0]);
      if Concerns(s, acts[0], h.corr) {
        EndOfJob(cfg, s, acts[0], starts, replies, h, id, body);
      } else {
        OthersLeaveView(cfg, s, acts[0], h.corr);
        WorksGrow(cfg, s, acts[0]);
        SameViewStarted(s, n, starts, replies, h, id, body);
      }
      StaysStarted(cfg, n, acts[1..], s', starts, replies, h, id, body);
    }
  }

  lemma SameViewStarted(s: State, n: State, starts: seq<Entry>, replies: seq<Entry>, h: Header, id: nat, body: seq<byte>)
    requires StartedOnce(s, starts, replies, h, id, body)
    requires ViewOf(n, h.corr) == ViewOf(s, h.corr) && s.works <= n.works
    ensures StartedOnce(n, starts, replies, h, id, body)
  {
    hide ViewOf;
  }

  lemma WorksGrow(cfg: Config, s: State, a: Action)
    requires Enabled(cfg, s, a)
    ensures s.works <= Step(cfg, s, a).works
  {
    hide Stream, Answer, Normal, Decide, RefusalHeader, Whole, Late, DecodeMessage, StageOf;
  }

  /** Taking one fragment of the request. */
  lemma TakeFragment(cfg: Config, s: State, h: Header, first: bool, have: seq<byte>, part: seq<byte>,
                     more: bool, now: u64, k: nat)
    requires Serves(cfg, h) && Gathered(s.assemblies, h, first, have) && h.corr !in s.jobs
    requires |have| + |part| <= MAX_BODY && (first ==> |s.assemblies| < MAX_IN_FLIGHT)
    requires more || (|s.jobs| < MAX_IN_FLIGHT && (h.deadline == 0 || now < h.deadline))
    requires Enabled(cfg, s, Handle(Fragment(h, part, more), now, k))
    ensures var n := Step(cfg, s, Handle(Fragment(h, part, more), now, k));
            if more then
              Gathered(n.assemblies, h, false, have + part) && h.corr !in n.jobs &&
              Starts(n.log, h.corr) == Starts(s.log, h.corr) && Replies(n.log, h.corr) == Replies(s.log, h.corr)
            else StartedOnce(n, Starts(s.log, h.corr), Replies(s.log, h.corr), h, |s.works|, have + part)
  {
    hide DecodeMessage, Stream, StageOf, Decide, RefusalHeader, Enabled, Starts, Replies, Whole, EnvelopeBytes;
    var p := Fragment(h, part, more);
    FragmentDecided(cfg, s.assemblies, s.jobs, h, first, have, part, more, now);
    FragmentReads(h, part, more);
    var n := Step(cfg, s, Handle(p, now, k));
    assert n == HandleRequest(cfg, s, p, now, k);
    HistoryAppend(s.log, n.log[|s.log|], h.corr);
  }

  /** With no job open on the correlation, only its packets concern it. */
  lemma OnlyPacketsConcern(s: State, a: Action, c: u64)
    requires Inv(s) && c !in s.jobs && Concerns(s, a, c)
    ensures a.Handle?
  {
    if s.done != [] { assert Live(s, s.done[0].id); }
  }

  lemma SameGathered(s: State, n: State, h: Header, first: bool, have: seq<byte>)
    requires Gathered(s.assemblies, h, first, have) && h.corr !in s.jobs && ViewOf(n, h.corr) == ViewOf(s, h.corr)
    ensures Gathered(n.assemblies, h, first, have) && h.corr !in n.jobs
    ensures Starts(n.log, h.corr) == Starts(s.log, h.corr) && Replies(n.log, h.corr) == Replies(s.log, h.corr)
  {
    hide Starts, Replies;
  }

  lemma GatheredOrFree(s: State, h: Header, first: bool, have: seq<byte>)
    requires Gathered(s.assemblies, h, first, have) && (h.corr in s.assemblies || |s.assemblies| < MAX_IN_FLIGHT)
    ensures first ==> |s.assemblies| < MAX_IN_FLIGHT
  {
  }

  /** The whole request: exactly one job, on exactly its bytes. */
  lemma {:induction false} RequestStartsJob(cfg: Config, s: State, acts: seq<Action>, s': State, h: Header,
                                            chunk: nat, first: bool, have: seq<byte>, rest: seq<byte>) returns (id: nat)
    requires Inv(s) && Runs(cfg, s, acts, s') && Serves(cfg, h) && 0 < chunk < TWO32
    requires Gathered(s.assemblies, h, first, have) && h.corr !in s.jobs && |have| + |rest| <= MAX_BODY
    requires Carried(cfg, s, acts, h, Split(h, rest, chunk))
    ensures id >= |s.works|
    ensures StartedOnce(s', Starts(s.log, h.corr), Replies(s.log, h.corr), h, id, have + rest)
    decreases |acts|
  {
    hide Inv, Step, Enabled, StartedOnce, Gathered, Serves, EnvelopeBytes, Starts, Replies, Concerns;
    var a := acts[0];
    var n := Step(cfg, s, a);
    StepKeepsInv(cfg, s, a);
    WorksGrow(cfg, s, a);
    if a.Handle? && a.p.corr == h.corr {
      var more := |rest| > chunk;
      var part := if more then rest[..chunk] else rest;
      var todo := Split(h, rest, chunk);
      assert a.p == Fragment(h, part, more);
      GatheredOrFree(s, h, first, have);
      TakeFragment(cfg, s, h, first, have, part, more, a.now, a.k);
      if more {
        assert todo[1..] == Split(h, rest[chunk..], chunk);
        assert have + part + rest[chunk..] == have + rest;
        id := RequestStartsJob(cfg, n, acts[1..], s', h, chunk, false, have + part, rest[chunk..]);
      } else {
        id := |s.works|;
        assert todo[1..] == [];
        StaysStarted(cfg, n, acts[1..], s', Starts(s.log, h.corr), Replies(s.log, h.corr), h, id, have + rest);
      }
    } else {
      if Concerns(s, a, h.corr) {
        OnlyPacketsConcern(s, a, h.corr);
        PacketsConcern(s, a, h.corr);
      }
      OthersLeaveView(cfg, s, a, h.corr);
      SameGathered(s, n, h, first, have);
      id := RequestStartsJob(cfg, n, acts[1..], s', h, chunk, first, have, rest);
    }
  }

  lemma PacketsConcern(s: State, a: Action, c: u64)
    requires a.Handle?
    ensures Concerns(s, a, c) <==> a.p.corr == c
  {
  }

  /** The packets of one correlation among those sent. */
  function OutFor(out: seq<Packet>, c: u64): seq<Packet>
  {
    if out == [] then []
    else OutFor(out[..|out| - 1], c) + (if out[|out| - 1].corr == c then [out[|out| - 1]] else [])
  }

  lemma {:induction false} OutForAppend(out: seq<Packet>, more: seq<Packet>, c: u64)
    ensures OutFor(out + more, c) == OutFor(out, c) + OutFor(more, c)
  {
    if more == [] {
      assert out + more == out;
    } else {
      var last := |more| - 1;
      OutForAppend(out, more[..last], c);
      assert (out + more)[..|out + more| - 1] == out + more[..last];
    }
  }

  lemma {:induction false} OutForAll(ps: seq<Packet>, c: u64)
    requires forall i :: 0 <= i < |ps| ==> ps[i].corr == c
    ensures OutFor(ps, c) == ps
  {
    if ps != [] {
      OutForAll(ps[..|ps| - 1], c);
      assert ps == ps[..|ps| - 1] + [ps[|ps| - 1]];
    }
  }

  lemma {:induction false} OutForNone(ps: seq<Packet>, c: u64)
    requires forall i :: 0 <= i < |ps| ==> ps[i].corr != c
    ensures OutFor(ps, c) == []
  {
    if ps != [] {
      OutForNone(ps[..|ps| - 1], c);
    }
  }

  lemma SentCorr(cfg: Config, e: Entry)
    ensures if e.Refused? || e.Finished? then forall i :: 0 <= i < |Sent(cfg, e)| ==> Sent(cfg, e)[i].corr == e.h.corr
            else Sent(cfg, e) == []
  {
    hide Split;
    if (e.Refused? || e.Finished?) && cfg.budget > MSG_HDR {
      SplitConserves(e.h, if e.Refused? then [] else e.body, cfg.budget - MSG_HDR);
    }
  }

  lemma SentFor(cfg: Config, e: Entry, c: u64)
    ensures OutFor(Sent(cfg, e), c) == if IsReplyOf(e, c) then Sent(cfg, e) else []
  {
    hide Sent, OutFor;
    SentCorr(cfg, e);
    if IsReplyOf(e, c) {
      OutForAll(Sent(cfg, e), c);
    } else {
      OutForNone(Sent(cfg, e), c);
    }
  }

  /** What went out on a correlation is the streams of its replies. */
  lemma {:induction false} OutIsReplies(cfg: Config, log: seq<Entry>, c: u64)
    ensures OutFor(AllSent(cfg, log), c) == AllSent(cfg, Replies(log, c))
  {
    hide Sent;
    if log != [] {
      var front, e := log[..|log| - 1], log[|log| - 1];
      OutIsReplies(cfg, front, c);
      OutForAppend(AllSent(cfg, front), Sent(cfg, e), c);
      SentFor(cfg, e, c);
      if IsReplyOf(e, c) {
        AllSentAppend(cfg, Replies(front, c), e);
      } else {
        assert Replies(log, c) == Replies(front, c);
        assert OutFor(AllSent(cfg, front), c) + [] == OutFor(AllSent(cfg, front), c);
      }
    }
  }

  /** What a waiting caller makes of a reply. */
  function CallerSees(status: u16, body: seq<byte>): Outcome
  {
    if status == ST_OK then Body(body) else Error(Failed(status))
  }

  /** What it makes of what the handler answered. */
  function AnswerSeen(e: Entry): Outcome
    requires e.Answered?
  {
    var (status, body) := Answer(e.response, e.status, e.flagged, e.late);
    CallerSees(status, body)
  }

  /** The one reply of a job, gone out whole, gives the caller the job's result, which is an
      answer of the job's handler. */
  lemma ReplyReturns(cfg: Config, past: seq<Action>, s: State, acts: seq<Action>, s': State,
                     h: Header, id: nat, e: Entry, polls: seq<Polled>)
    requires Runs(cfg, EMPTY, past, s) && Runs(cfg, s, acts, s')
    requires Replies(s'.log, h.corr) == [e] && e in s'.log && RepliesFor(e, h, id) && Complete(cfg, e) && h.stage != 0
    requires Patient(polls) && !Reserved(h.kind) && ForCall(polls, h.corr) == OutFor(s'.out, h.corr)
    ensures Await(polls, h.kind, h.corr, []) == CallerSees(e.h.status, e.body)
    ensures exists a :: a in s'.log && Yields(a, id, e.h.status, e.body)
  {
    hide Runs, Replies, Await, OutFor, Split, ForCall, Patient, Yields;
    RunEarned(cfg, EMPTY, past, s);
    RunEarned(cfg, s, acts, s');
    OutIsReplies(cfg, s'.log, h.corr);
    OneStream(cfg, e);
    EarnedIsNormal(s'.log, id, e.h.status, e.body);
    NormalFits(e.h.status, e.body);
    var chunk := cfg.budget - MSG_HDR;
    if e.h.status == ST_OK {
      ReplyReassembles(polls, e.h, e.body, chunk, []);
      assert [] + e.body == e.body;
    } else {
      RefusalArrives(polls, e.h, chunk, []);
    }
  }

  lemma NormalFits(status: u16, body: seq<byte>)
    requires Normal(status, body) == (status, body)
    ensures status <= ST_INTERNAL && |body| <= MAX_BODY
  {
  }

  /** A job has one answer, so the caller sees that one. */
  lemma OneAnswer(cfg: Config, past: seq<Action>, s: State, acts: seq<Action>, s': State, id: nat, a: Entry, b: Entry)
    requires Runs(cfg, EMPTY, past, s) && Runs(cfg, s, acts, s')
    requires a in s'.log && b in s'.log && a.Answered? && b.Answered? && a.id == b.id == id
    ensures a == b
  {
    hide Runs, Inv, LifeOf;
    StartsEmpty();
    StartsUnborn(id);
    RunKeepsInv(cfg, EMPTY, past, s);
    RunLife(cfg, EMPTY, past, s, id);
    RunLife(cfg, s, acts, s', id);
    AnswersAgree(s'.log, a, b);
  }

  lemma StartsUnborn(id: nat)
    ensures LifeOk(EMPTY, id)
  {
  }

  lemma OneStream(cfg: Config, e: Entry)
    requires e.Finished? && Complete(cfg, e)
    ensures cfg.budget > MSG_HDR && AllSent(cfg, [e]) == Split(e.h, e.body, cfg.budget - MSG_HDR)
  {
    hide Split;
    assert AllSent(cfg, []) == [];
    assert [e][..0] == [];
    var ps := Stream(cfg, e.h, e.body);
    assert ps[..|ps|] == ps;
  }

  lemma {:induction false} RepliesInLog(log: seq<Entry>, c: u64)
    ensures forall e :: e in Replies(log, c) ==> e in log
  {
    if log != [] { RepliesInLog(log[..|log| - 1], c); }
  }

  /** The premises of the call. From a reachable state in which the correlation is new, the run
      carries the request's fragments; the caller is patient and gets the packets of its
      correlation in order, among whatever else. */
  ghost predicate CallMade(cfg: Config, past: seq<Action>, s: State, acts: seq<Action>, s': State,
                           h: Header, request: seq<byte>, budget: u32, polls: seq<Polled>)
  {
    Runs(cfg, EMPTY, past, s) && Runs(cfg, s, acts, s') && Serves(cfg, h) && |request| <= MAX_BODY &&
    h.corr !in s.assemblies && h.corr !in s.jobs && Starts(s.log, h.corr) == [] && Replies(s.log, h.corr) == [] &&
    budget > MSG_HDR && Carried(cfg, s, acts, h, Split(h, request, budget - MSG_HDR)) &&
    Patient(polls) && !Reserved(h.kind) && ForCall(polls, h.corr) == OutFor(s'.out, h.corr)
  }

  /** The job sent its reply, and all of it went out. */
  ghost predicate Replied(cfg: Config, s: State, corr: u64)
  {
    |Replies(s.log, corr)| == 1 && Complete(cfg, Replies(s.log, corr)[0])
  }

  /** The call. It starts exactly one job, on exactly the request, with at most one reply, which
      is out whole when the job has ended and the loop still serves. Once it is, the job's handler
      has answered, and the caller's result is what that answer became: the body it returned if it
      was OK, in time and not cancelled, and otherwise exactly the status it was turned into. */
  lemma CallReturnsAnswer(cfg: Config, past: seq<Action>, s: State, acts: seq<Action>, s': State,
                          h: Header, request: seq<byte>, budget: u32, polls: seq<Polled>) returns (id: nat)
    requires CallMade(cfg, past, s, acts, s', h, request, budget, polls)
    ensures Starts(s'.log, h.corr) == [Started(id, h.corr, request)] && |Replies(s'.log, h.corr)| <= 1
    ensures id >= |s.works| && id < |s'.works| && s'.works[id] == WorkFor(h)
    ensures s'.phase.Serving? && h.corr !in s'.jobs ==> Replied(cfg, s', h.corr)
    ensures Replied(cfg, s', h.corr) ==>
      (exists a :: a in s'.log && a.Answered? && a.id == id) &&
      (forall a :: a in s'.log && a.Answered? && a.id == id ==> Await(polls, h.kind, h.corr, []) == AnswerSeen(a))
  {
    hide Runs, Inv, Carried, Starts, Replies, Await, AllSent, OutFor, Split, AnswerSeen, Serves;
    StartsEmpty();
    RunKeepsInv(cfg, EMPTY, past, s);
    id := RequestStartsJob(cfg, s, acts, s', h, budget - MSG_HDR, true, [], request);
    assert [] + request == request;
    if s'.phase.Serving? && h.corr !in s'.jobs {
      EndedWhileServing(cfg, past, s, acts, s', h, id);
    }
    if Replied(cfg, s', h.corr) {
      var e := Replies(s'.log, h.corr)[0];
      assert Replies(s'.log, h.corr) == [e];
      RepliesInLog(s'.log, h.corr);
      ServesStage(cfg, h);
      ReplyReturns(cfg, past, s, acts, s', h, id, e, polls);
      var a :| a in s'.log && Yields(a, id, e.h.status, e.body);
      YieldsSeen(a, id, e.h.status, e.body);
      forall b | b in s'.log && b.Answered? && b.id == id ensures Await(polls, h.kind, h.corr, []) == AnswerSeen(b) {
        OneAnswer(cfg, past, s, acts, s', id, a, b);
      }
    }
  }

  /** A job that has ended while the loop serves has sent its whole reply. */
  lemma EndedWhileServing(cfg: Config, past: seq<Action>, s: State, acts: seq<Action>, s': State, h: Header, id: nat)
    requires Runs(cfg, EMPTY, past, s) && Runs(cfg, s, acts, s') && s'.phase.Serving? && h.corr !in s'.jobs
    requires id < |s'.works| && s'.works[id] == WorkFor(h) && |Replies(s'.log, h.corr)| <= 1
    ensures Replied(cfg, s', h.corr)
  {
    hide Runs, Inv, LifeOf, OwnEntries, NotDrained, StreamsWhole, EarnedInv, Complete;
    StartsEmpty();
    StartsUnborn(id);
    StartsRecorded(cfg);
    RunKeepsInv(cfg, EMPTY, past, s);
    RunLife(cfg, EMPTY, past, s, id);
    RunLife(cfg, s, acts, s', id);
    RunHistories(cfg, EMPTY, past, s);
    RunHistories(cfg, s, acts, s');
    EndedHasReply(cfg, s', h, id);
  }

  lemma StartsRecorded(cfg: Config)
    ensures OwnEntries(EMPTY) && NotDrained(EMPTY) && EarnedInv(EMPTY) && StreamsWhole(cfg, EMPTY)
  {
  }

  /** The invariants of the history hold on. */
  lemma RunHistories(cfg: Config, s: State, acts: seq<Action>, s': State)
    requires Runs(cfg, s, acts, s') && OwnEntries(s) && NotDrained(s) && EarnedInv(s) && StreamsWhole(cfg, s)
    ensures OwnEntries(s') && NotDrained(s') && EarnedInv(s') && StreamsWhole(cfg, s')
  {
    hide Runs, OwnEntries, NotDrained, EarnedInv, StreamsWhole;
    RunOwn(cfg, s, acts, s');
    RunNotDrained(cfg, s, acts, s');
    RunEarned(cfg, s, acts, s');
  }

  lemma EndedHasReply(cfg: Config, s: State, h: Header, id: nat)
    requires LifeOk(s, id) && id < |s.works| && s.works[id] == WorkFor(h) && h.corr !in s.jobs && s.phase.Serving?
    requires OwnEntries(s) && NotDrained(s) && StreamsWhole(cfg, s) && |Replies(s.log, h.corr)| <= 1
    ensures Replied(cfg, s, h.corr)
  {
    hide LifeOf, Complete, Replies, AllSent;
    assert !Live(s, id);
    EndedIsLogged(s.log, id);
    var e :| e in s.log && (e.Finished? || e.Drained?) && e.id == id;
    assert IsReplyOf(e, h.corr);
    ReplyIsListed(s.log, e, h.corr);
    RepliesInLog(s.log, h.corr);
    assert Replies(s.log, h.corr)[0] in s.log;
  }

  lemma {:induction false} ReplyIsListed(log: seq<Entry>, e: Entry, c: u64)
    requires e in log && IsReplyOf(e, c)
    ensures e in Replies(log, c)
  {
    if e in log[..|log| - 1] { ReplyIsListed(log[..|log| - 1], e, c); }
  }

  lemma ServesStage(cfg: Config, h: Header)
    requires Serves(cfg, h)
    ensures h.stage != 0
  {
    hide StageOf;
  }

  lemma YieldsSeen(a: Entry, id: nat, status: u16, body: seq<byte>)
    requires Yields(a, id, status, body)
    ensures a.Answered? && a.id == id && AnswerSeen(a) == CallerSees(status, body)
  {
    hide Answer, CallerSees;
  }

  /** What a caller sees of what a handler returned: its body for OK; a refusal as it is, whatever
      bytes come with it; and Internal for a status out of range or a body above 16 MiB. */
  function ReturnSeen(status: u16, response: seq<byte>): Outcome
  {
    if status > 5 || |response| > 0x100_0000 then Error(Failed(5))
    else if status != 0 then Error(Failed(status))
    else Body(response)
  }

  /** A prompt call. Nothing cancels it or shuts the module down, and its handler returns in
      time: then what the handler returns is what the caller sees. */
  lemma PromptCallReturns(cfg: Config, past: seq<Action>, s: State, acts: seq<Action>, s': State,
                          h: Header, request: seq<byte>, budget: u32, polls: seq<Polled>, k: nat) returns (id: nat)
    requires CallMade(cfg, past, s, acts, s', h, request, budget, polls) && Replied(cfg, s', h.corr)
    requires forall i :: 0 <= i < |acts| ==> Calm(acts[i], h.corr)
    requires k < |acts| && acts[k].HandlerReturns?
    ensures Starts(s'.log, h.corr) == [Started(id, h.corr, request)]
    ensures acts[k].id == id && (forall i :: 0 <= i < |acts| ==> Timely(acts[i], id, WorkFor(h))) ==>
      Await(polls, h.kind, h.corr, []) == ReturnSeen(acts[k].status, acts[k].response)
  {
    hide Runs, Starts, Replied, Await, Calm, Timely, AnswerSeen, Fair, LifeOf, Carried, OutFor, Split, Serves, Replies;
    id := CallReturnsAnswer(cfg, past, s, acts, s', h, request, budget, polls);
    var r := acts[k];
    if r.id == id && forall i :: 0 <= i < |acts| ==> Timely(acts[i], id, WorkFor(h)) {
      ReturnIsLogged(cfg, s, acts, s', k);
      var fl, late :| Answered(r.id, r.response, r.status, fl, late) in s'.log;
      NewAnswerIsFair(cfg, past, s, acts, s', id, WorkFor(h), Answered(id, r.response, r.status, fl, late));
      assert Await(polls, h.kind, h.corr, []) == AnswerSeen(Answered(id, r.response, r.status, fl, late));
      FairSeen(id, r.response, r.status);
    }
  }

  lemma FairSeen(id: nat, response: seq<byte>, status: u16)
    ensures AnswerSeen(Answered(id, response, status, false, false)) == ReturnSeen(status, response)
  {
  }

  /** The answer of a job started in a calm run, by a handler in time, is neither flagged nor late. */
  lemma NewAnswerIsFair(cfg: Config, past: seq<Action>, s: State, acts: seq<Action>, s': State,
                        id: nat, w: Work, a: Entry)
    requires Runs(cfg, EMPTY, past, s) && Runs(cfg, s, acts, s') && |s.works| <= id < |s'.works| && s'.works[id] == w
    requires forall i :: 0 <= i < |acts| ==> Calm(acts[i], w.corr) && Timely(acts[i], id, w)
    requires a in s'.log && a.Answered? && a.id == id
    ensures !a.flagged && !a.late
  {
    hide Runs, Inv, LifeOf, Calm, Timely;
    StartsEmpty();
    StartsUnborn(id);
    RunKeepsInv(cfg, EMPTY, past, s);
    RunLife(cfg, EMPTY, past, s, id);
    CancelledAreKnown(cfg, EMPTY, past, s);
    FlagsHaveCause(cfg, s, acts, s', |s.log|, id, w);
    RunGrows(cfg, s, acts, s');
    var i :| 0 <= i < |s'.log| && s'.log[i] == a;
    if i < |s.log| {
      assert s.log[i] == a;
      CountedOnce(s.log, a, id);
    }
  }
}
