/** The serving loop as it runs: it updates its maps in place and sends replies fragment by
    fragment, retrying while the ring is full. Every method is one or more actions of the
    state machine. Work items live in `works`; an index into it stands for a pointer. */
module RuntimeLoop {
  import opened Words
  import opened Wrappers
  import opened Envelope
  import opened Fragments
  import opened Ports
  import opened ReplyLoop
  import opened Caller
  import opened Runtime
  import opened RuntimeInv
  import opened RuntimeHistory
  import opened RuntimeDrain
  import opened RuntimeReplies

  lemma {:induction false} RunsAppend(cfg: Config, s: State, a: seq<Action>, n: State, b: seq<Action>, s': State)
    requires Runs(cfg, s, a, n) && Runs(cfg, n, b, s')
    ensures Runs(cfg, s, a + b, s')
    decreases |a|
  {
    hide Step, Enabled;
    if a == [] {
      assert a + b == b;
    } else {
      RunsAppend(cfg, Step(cfg, s, a[0]), a[1..], n, b, s');
      assert (a + b)[1..] == a[1..] + b;
    }
  }

  lemma OneStep(cfg: Config, s: State, a: Action)
    requires Enabled(cfg, s, a)
    ensures Runs(cfg, s, [a], Step(cfg, s, a))
  {
    hide Step, Enabled;
    assert Runs(cfg, Step(cfg, s, a), [], Step(cfg, s, a));
  }

  /** A refusal, as the machine makes it. */
  lemma RefusedBy(cfg: Config, s: State, p: Packet, now: u64, k: nat, v: Verdict, h: Header)
    requires s.phase.Serving? && IsRequest(p) && v == Decide(cfg, s.assemblies, s.jobs, p, now) && Refuses(v)
    requires RefusalHeader(cfg, p, v) == Some(h) && k <= |Stream(cfg, h, [])|
    ensures Enabled(cfg, s, Handle(p, now, k))
    ensures HandleRequest(cfg, s, p, now, k) ==
            SendReply(cfg, s.(assemblies := s.assemblies - {p.corr}), h, [], k, Refused(h, k))
  {
    hide Decide, RefusalHeader, Stream, SendReply, HandleRequest;
    RefusalShape(cfg, s, p, now, k);
  }

  lemma DecodedCovers(b: seq<byte>)
    requires DecodeMessage(b).Some?
    ensures MSG_HDR + DecodeMessage(b).value.bodyLen <= |b|
  {
    hide RawMessage;
  }

  /** The branches of the loop body against the verdict of the machine. */
  lemma NotAcceptable(cfg: Config, assemblies: map<u64, Assembly>, jobs: map<u64, nat>, p: Packet, now: u64)
    requires !Acceptable(cfg, assemblies, jobs, p)
    ensures Decide(cfg, assemblies, jobs, p, now) == Invalid
  {
    hide Acceptable;
  }

  lemma AcceptableStage(cfg: Config, assemblies: map<u64, Assembly>, jobs: map<u64, nat>, p: Packet)
    requires Acceptable(cfg, assemblies, jobs, p)
    ensures StageOf(cfg, p.kind) != 0
  {
    hide StageOf, DecodeMessage;
  }

  /** The verdict once a packet is acceptable, in the loop's own terms. */
  lemma AcceptableVerdict(cfg: Config, assemblies: map<u64, Assembly>, jobs: map<u64, nat>, p: Packet, now: u64,
                          m: Message, first: Assembly, part: seq<byte>)
    requires Acceptable(cfg, assemblies, jobs, p) && DecodeMessage(p.payload) == Some(m)
    requires first == if p.corr in assemblies then assemblies[p.corr] else Assembly(p.kind, m, [])
    requires MSG_HDR + m.bodyLen <= |p.payload| && part == p.payload[MSG_HDR..MSG_HDR + m.bodyLen]
    ensures Decide(cfg, assemblies, jobs, p, now) ==
            if p.corr !in assemblies && |assemblies| >= MAX_IN_FLIGHT then TableFull
            else if |first.body| + |part| > MAX_BODY then TooLarge
            else if p.more then Buffer(first.(body := first.body + part))
            else if m.DeadlineExpired(now) then Expired
            else if !cfg.hasHandler then NoHandler
            else if |jobs| >= MAX_IN_FLIGHT then Busy
            else Start(first.(body := first.body + part))
  {
    hide Acceptable, DecodeMessage;
  }

  /** The reply header of each refusal of an acceptable packet. */
  lemma RefusalOf(cfg: Config, p: Packet, v: Verdict, m: Message)
    requires DecodeMessage(p.payload) == Some(m)
    ensures v.TableFull? || v.TooLarge? || v.Busy? ==>
              RefusalHeader(cfg, p, v) == Some(ReplyHeader(p.kind, StageOf(cfg, p.kind), m.traceId, p.corr, ST_INTERNAL))
    ensures v.Expired? ==>
              RefusalHeader(cfg, p, v) ==
              Some(ReplyHeader(p.kind, StageOf(cfg, p.kind), m.traceId, p.corr, ST_DEADLINE_EXCEEDED))
    ensures v.NoHandler? ==>
              RefusalHeader(cfg, p, v) ==
              Some(ReplyHeader(p.kind, StageOf(cfg, p.kind), m.traceId, p.corr, ST_CAPABILITY_ABSENT))
  {
    hide DecodeMessage, StageOf;
  }

  lemma InvalidRefusal(cfg: Config, p: Packet)
    ensures var stage := StageOf(cfg, p.kind);
            RefusalHeader(cfg, p, Invalid) ==
            Some(ReplyHeader(p.kind, if stage == 0 then 1 else stage, 0, p.corr, ST_INVALID_REQUEST))
  {
    hide DecodeMessage, StageOf;
  }

  /** Keeping a fragment, and starting a job, as the machine makes them. */
  lemma KeptBy(cfg: Config, s: State, p: Packet, now: u64)
    requires s.phase.Serving? && IsRequest(p) && Decide(cfg, s.assemblies, s.jobs, p, now).Buffer?
    ensures Enabled(cfg, s, Handle(p, now, 0))
    ensures HandleRequest(cfg, s, p, now, 0) ==
            s.(assemblies := s.assemblies[p.corr := Decide(cfg, s.assemblies, s.jobs, p, now).a],
               log := s.log + [Kept(p.corr)])
  {
    hide Decide, Stream;
  }

  lemma StartedBy(cfg: Config, s: State, p: Packet, now: u64, m: Message)
    requires s.phase.Serving? && IsRequest(p) && Decide(cfg, s.assemblies, s.jobs, p, now).Start?
    requires DecodeMessage(p.payload) == Some(m)
    ensures Enabled(cfg, s, Handle(p, now, 0))
    ensures var body := Decide(cfg, s.assemblies, s.jobs, p, now).a.body;
            HandleRequest(cfg, s, p, now, 0) ==
            s.(assemblies := s.assemblies - {p.corr},
               jobs := s.jobs[p.corr := |s.works|],
               works := s.works + [Work(p.kind, p.corr, StageOf(cfg, p.kind), m.deadlineNs, m.traceId)],
               handlers := s.handlers[|s.works| := Executing(body)],
               log := s.log + [Started(|s.works|, p.corr, body)])
  {
    hide Decide, Stream, DecodeMessage, StageOf;
  }

  class ModuleLoop {
    const cfg: Config
    const port: Port
    var assemblies: map<u64, Assembly>
    var jobs: map<u64, nat>
    var works: seq<Work>
    var cancelled: set<nat>
    var handlers: map<nat, HandlerPc>
    var done: seq<Done>
    var phase: Phase
    ghost var log: seq<Entry>

    /** The machine state this loop is in. */
    ghost function S(): State
      reads this, port
    {
      State(assemblies, jobs, works, cancelled, handlers, done, phase, port.sent, log)
    }

    ghost predicate Valid()
      reads this
    {
      cfg.budget == port.budget
    }

    constructor (cfg: Config, port: Port)
      requires cfg.budget == port.budget && port.sent == []
      ensures Valid() && this.port == port && this.cfg == cfg && S() == EMPTY
    {
      this.cfg, this.port := cfg, port;
      assemblies, jobs, works, cancelled := map[], map[], [], {};
      handlers, done, phase, log := map[], [], Serving, [];
    }

    /** Sends a reply; an error ends the loop, and on legal geometry only a done context or
        another epoch, met at one of its attempts, makes one. */
    method Reply(h: Header, body: seq<byte>) returns (ghost k: nat)
      requires Valid() && phase.Serving? && Normal(h.status, body) == (h.status, body)
      requires h == ReplyHeader(h.kind, h.stage, h.trace, h.corr, h.status)
      modifies `phase, port
      ensures k <= |Stream(cfg, h, body)| && port.sent == old(port.sent) + Stream(cfg, h, body)[..k]
      ensures phase == if Whole(cfg, h, body, k) then Serving else Returned
      ensures Later(old(port.moments), port.moments)
      ensures Legal(port) && h.corr != 0 && h.stage != 0 && ClearMet(old(port.moments), port.moments) ==>
                Whole(cfg, h, body, k)
    {
      hide Stream, Legal, StopsAt, Later, ClearMet, Attempts;
      PiecesAre(cfg, h, body);
      var err;
      ghost var moments := port.moments;
      err, k := ReplyResult(port, h.kind, h.corr, h.stage, h.trace, h.status, body);
      if Legal(port) && h.corr != 0 && h.stage != 0 && ClearMet(moments, port.moments) {
        ClearMetSends(err, moments, port.moments);
      }
      if err.Some? {
        phase := Returned;
      }
    }

    /** Refuses a request packet. */
    method Refuse(p: Packet, ghost now: u64, ghost v: Verdict, h: Header) returns (ghost k: nat)
      requires Valid() && phase.Serving? && IsRequest(p) && v == Decide(cfg, assemblies, jobs, p, now) && Refuses(v)
      requires RefusalHeader(cfg, p, v) == Some(h) && 0 < h.status <= ST_INTERNAL
      requires h == ReplyHeader(h.kind, h.stage, h.trace, h.corr, h.status)
      modifies this, port
      ensures Enabled(cfg, old(S()), Handle(p, now, k)) && S() == HandleRequest(cfg, old(S()), p, now, k)
      ensures Later(old(port.moments), port.moments)
      ensures Legal(port) && h.corr != 0 && h.stage != 0 && ClearMet(old(port.moments), port.moments) ==> phase.Serving?
    {
      hide Decide, RefusalHeader, Stream, HandleRequest, Enabled, Whole, Legal, Later, ClearMet;
      assemblies := assemblies - {p.corr};
      k := Reply(h, []);
      log := log + [Refused(h, k)];
      RefusedBy(cfg, old(S()), p, now, k, v, h);
    }

    /** A request packet, from the stage lookup to the next iteration. */
    method HandleRequestPacket(p: Packet, now: u64) returns (ghost k: nat)
      requires Valid() && phase.Serving? && IsRequest(p)
      modifies this, port
      ensures Enabled(cfg, old(S()), Handle(p, now, k)) && S() == HandleRequest(cfg, old(S()), p, now, k)
      ensures Later(old(port.moments), port.moments)
      ensures Legal(port) && p.corr != 0 && ClearMet(old(port.moments), port.moments) ==> phase.Serving?
    {
      hide DecodeMessage, Decide, RefusalHeader, HandleRequest, Enabled, StageOf, Legal, Later, ClearMet;
      LaterNow(port.moments);
      var expected := StageOf(cfg, p.kind);
      var decoded := DecodeMessage(p.payload);
      var invalid := expected == 0 || decoded.None? || decoded.value.operation != OP_INVOKE ||
                     decoded.value.stageId != expected || p.corr in jobs;
      if !invalid && p.corr in assemblies {
        var a := assemblies[p.corr];
        invalid := a.kind != p.kind || a.message.stageId != decoded.value.stageId ||
                   a.message.deadlineNs != decoded.value.deadlineNs || a.message.traceId != decoded.value.traceId;
      }
      if invalid {
        NotAcceptable(cfg, assemblies, jobs, p, now);
        InvalidRefusal(cfg, p);
        var stage := if expected == 0 then 1 else expected;
        k := Refuse(p, now, Invalid, ReplyHeader(p.kind, stage, 0, p.corr, ST_INVALID_REQUEST));
      } else {
        k := HandleAcceptable(p, now, decoded.value, expected);
      }
    }

    /** The request is one this module serves: assemble it, and start it when it is whole. */
    method HandleAcceptable(p: Packet, now: u64, m: Message, stage: u32) returns (ghost k: nat)
      requires Valid() && phase.Serving? && IsRequest(p) && Acceptable(cfg, assemblies, jobs, p)
      requires DecodeMessage(p.payload) == Some(m) && stage == StageOf(cfg, p.kind)
      modifies this, port
      ensures Enabled(cfg, old(S()), Handle(p, now, k)) && S() == HandleRequest(cfg, old(S()), p, now, k)
      ensures Later(old(port.moments), port.moments)
      ensures Legal(port) && p.corr != 0 && ClearMet(old(port.moments), port.moments) ==> phase.Serving?
    {
      hide DecodeMessage, Acceptable, Decide, RefusalHeader, HandleRequest, Enabled, StageOf, Legal, Later, ClearMet;
      AcceptableStage(cfg, assemblies, jobs, p);
      LaterNow(port.moments);
      DecodedCovers(p.payload);
      var part := p.payload[MSG_HDR..MSG_HDR + m.bodyLen];
      ghost var start := if p.corr in assemblies then assemblies[p.corr] else Assembly(p.kind, m, []);
      ghost var v := Decide(cfg, assemblies, jobs, p, now);
      AcceptableVerdict(cfg, assemblies, jobs, p, now, m, start, part);
      RefusalOf(cfg, p, v, m);
      if p.corr !in assemblies {
        if |assemblies| >= MAX_IN_FLIGHT {
          k := Refuse(p, now, v, ReplyHeader(p.kind, stage, m.traceId, p.corr, ST_INTERNAL));
          return;
        }
      }
      k := Assemble(p, now, m, stage, part, v);
    }

    /** A fragment with a place in the table. */
    method Assemble(p: Packet, now: u64, m: Message, stage: u32, part: seq<byte>, ghost v: Verdict)
      returns (ghost k: nat)
      requires Valid() && phase.Serving? && IsRequest(p) && v == Decide(cfg, assemblies, jobs, p, now)
      requires DecodeMessage(p.payload) == Some(m) && stage == StageOf(cfg, p.kind) && stage != 0
      requires var first := if p.corr in assemblies then assemblies[p.corr] else Assembly(p.kind, m, []);
               v == if |first.body| + |part| > MAX_BODY then TooLarge
                    else if p.more then Buffer(first.(body := first.body + part))
                    else if m.DeadlineExpired(now) then Expired
                    else if !cfg.hasHandler then NoHandler
                    else if |jobs| >= MAX_IN_FLIGHT then Busy
                    else Start(first.(body := first.body + part))
      modifies this, port
      ensures Enabled(cfg, old(S()), Handle(p, now, k)) && S() == HandleRequest(cfg, old(S()), p, now, k)
      ensures Later(old(port.moments), port.moments)
      ensures Legal(port) && p.corr != 0 && ClearMet(old(port.moments), port.moments) ==> phase.Serving?
    {
      hide DecodeMessage, Decide, RefusalHeader, HandleRequest, Enabled, StageOf, Legal, Later, ClearMet;
      LaterNow(port.moments);
      RefusalOf(cfg, p, v, m);
      var a := if p.corr in assemblies then assemblies[p.corr] else Assembly(p.kind, m, []);
      if |a.body| + |part| > MAX_BODY {
        k := Refuse(p, now, v, ReplyHeader(p.kind, stage, m.traceId, p.corr, ST_INTERNAL));
        return;
      }
      a := a.(body := a.body + part);
      if p.more {
        KeptBy(cfg, S(), p, now);
        assemblies := assemblies[p.corr := a];
        log := log + [Kept(p.corr)];
        return 0;
      }
      k := Launch(p, now, m, stage, a, v);
    }

    /** A whole request: the last refusals, or a new job. */
    method Launch(p: Packet, now: u64, m: Message, stage: u32, a: Assembly, ghost v: Verdict) returns (ghost k: nat)
      requires Valid() && phase.Serving? && IsRequest(p) && v == Decide(cfg, assemblies, jobs, p, now)
      requires DecodeMessage(p.payload) == Some(m) && stage == StageOf(cfg, p.kind) && stage != 0
      requires v == if m.DeadlineExpired(now) then Expired
                    else if !cfg.hasHandler then NoHandler
                    else if |jobs| >= MAX_IN_FLIGHT then Busy else Start(a)
      modifies this, port
      ensures Enabled(cfg, old(S()), Handle(p, now, k)) && S() == HandleRequest(cfg, old(S()), p, now, k)
      ensures Later(old(port.moments), port.moments)
      ensures Legal(port) && p.corr != 0 && ClearMet(old(port.moments), port.moments) ==> phase.Serving?
    {
      hide DecodeMessage, Decide, RefusalHeader, HandleRequest, Enabled, StageOf, Legal, Later, ClearMet;
      LaterNow(port.moments);
      RefusalOf(cfg, p, v, m);
      if m.DeadlineExpired(now) {
        k := Refuse(p, now, v, ReplyHeader(p.kind, stage, m.traceId, p.corr, ST_DEADLINE_EXCEEDED));
      } else if !cfg.hasHandler {
        k := Refuse(p, now, v, ReplyHeader(p.kind, stage, m.traceId, p.corr, ST_CAPABILITY_ABSENT));
      } else if |jobs| >= MAX_IN_FLIGHT {
        k := Refuse(p, now, v, ReplyHeader(p.kind, stage, m.traceId, p.corr, ST_INTERNAL));
      } else {
        k := 0;
        StartedBy(cfg, S(), p, now, m);
        assemblies := assemblies - {p.corr};
        jobs := jobs[p.corr := |works|];
        handlers := handlers[|works| := Executing(a.body)];
        log := log + [Started(|works|, p.corr, a.body)];
        works := works + [Work(p.kind, p.corr, stage, m.deadlineNs, m.traceId)];
      }
    }

    /** One packet from `Poll`. */
    method HandleEvent(p: Packet, now: u64) returns (ghost k: nat)
      requires Valid() && phase.Serving?
      modifies this, port
      ensures Enabled(cfg, old(S()), Handle(p, now, k)) && S() == Step(cfg, old(S()), Handle(p, now, k))
      ensures Later(old(port.moments), port.moments)
      ensures Legal(port) && (IsRequest(p) ==> p.corr != 0) && ClearMet(old(port.moments), port.moments) ==> phase.Serving?
    {
      hide Decide, RefusalHeader, HandleRequest, Stream, Legal, Later, ClearMet;
      LaterNow(port.moments);
      k := 0;
      if p.pattern.Cancel? {
        if p.corr in jobs {
          cancelled := cancelled + {jobs[p.corr]};
        }
        assemblies := assemblies - {p.corr};
      } else if p.pattern.Request? {
        k := HandleRequestPacket(p, now);
      }
    }

    /** Takes the oldest result, forgets its job, and replies. */
    method FinishWork() returns (ghost k: nat)
      requires Valid() && phase.Serving? && done != [] && done[0].id < |works|
      modifies this, port
      ensures Enabled(cfg, old(S()), Finish(k)) && S() == Step(cfg, old(S()), Finish(k)) && works == old(works)
      ensures Later(old(port.moments), port.moments)
      ensures var w := works[old(done[0]).id];
              Legal(port) && w.corr != 0 && w.stage != 0 && ClearMet(old(port.moments), port.moments) ==> phase.Serving?
    {
      hide Stream, Whole, Legal, Later, ClearMet;
      var result := done[0];
      var work := works[result.id];
      done := done[1..];
      jobs := jobs - {work.corr};
      var (st, body) := Normal(result.status, result.body);
      var h := ReplyHeader(work.kind, work.stage, work.trace, work.corr, st);
      k := Reply(h, body);
      log := log + [Finished(result.id, h, body, k)];
    }

    /** A handler goroutine after its handler has returned: the last checks. */
    method HandlerEnds(id: nat, response: seq<byte>, returned: u16, now: u64)
      requires Valid() && id in handlers && handlers[id].Executing? && id < |works|
      modifies `handlers, `log
      ensures Enabled(cfg, old(S()), HandlerReturns(id, response, returned, now))
      ensures S() == Step(cfg, old(S()), HandlerReturns(id, response, returned, now))
    {
      hide Stream;
      var body, status := response, returned;
      if status > ST_INTERNAL || |body| > MAX_BODY {
        status, body := ST_INTERNAL, [];
      } else if status != ST_OK {
        body := [];
      }
      if id in cancelled {
        status, body := ST_CANCELLED, [];
      } else if works[id].deadline != 0 {
        if now != 0 && now >= works[id].deadline {
          status, body := ST_DEADLINE_EXCEEDED, [];
        }
      }
      handlers := handlers[id := Sending(status, body)];
      log := log + [Answered(id, response, returned, id in cancelled, Late(works[id], now))];
    }

    /** The send on the results channel; the machine has room for it in every reachable state. */
    method HandlerSend(id: nat)
      requires Valid() && Inv(S()) && id in handlers && handlers[id].Sending?
      modifies `handlers, `done
      ensures Enabled(cfg, old(S()), HandlerSends(id)) && S() == Step(cfg, old(S()), HandlerSends(id))
    {
      hide Stream;
      assert |handlers| > 0;
      done := done + [Done(id, handlers[id].status, handlers[id].body)];
      handlers := handlers - {id};
    }

    /** The context is done: flag the jobs one after the other, in any order. */
    method BeginDrain()
      requires Valid() && phase.Serving?
      modifies `cancelled, `phase
      ensures Enabled(cfg, old(S()), Shutdown) && S() == Step(cfg, old(S()), Shutdown)
      ensures phase.Draining? && forall c :: c in jobs ==> jobs[c] in cancelled
    {
      hide Stream;
      var keys := jobs.Keys;
      while keys != {}
        invariant keys <= jobs.Keys && old(cancelled) <= cancelled <= old(cancelled) + jobs.Values
        invariant forall c :: c in jobs && c !in keys ==> jobs[c] in cancelled
        decreases |keys|
      {
        var c :| c in keys;
        cancelled := cancelled + {jobs[c]};
        keys := keys - {c};
      }
      assert cancelled == old(cancelled) + jobs.Values;
      phase := Draining;
    }

    /** One receive: it forgets the job of the result. */
    method DrainOne()
      requires Valid() && phase.Draining? && |jobs| > 0 && done != [] && done[0].id < |works|
      modifies `jobs, `done, `log
      ensures Enabled(cfg, old(S()), DrainReceive) && S() == Step(cfg, old(S()), DrainReceive)
    {
      hide Stream;
      var result := done[0];
      jobs := jobs - {works[result.id].corr};
      done := done[1..];
      log := log + [Drained(result.id, works[result.id].corr)];
    }

    /** Some handler moves: it returns whatever it likes, or puts its result into the channel. */
    method HandlerMoves() returns (ghost a: Action)
      requires Valid() && Inv(S()) && handlers != map[]
      modifies `handlers, `done, `log
      ensures Drains(a) && !a.DrainReceive? && Enabled(cfg, old(S()), a) && S() == Step(cfg, old(S()), a)
    {
      hide Step, Enabled;
      var id :| id in handlers;
      HandlerIsLive(S(), id);
      if handlers[id].Executing? {
        var response: seq<byte> := *;
        var status: u16, now: u64 := *, *;
        a := HandlerReturns(id, response, status, now);
        HandlerEnds(id, response, status, now);
      } else {
        a := HandlerSends(id);
        HandlerSend(id);
      }
    }

    /** The receive loop, under any schedule of the handlers: it ends with no job open, after one
        step for every step owed, and the loop returns. No reply is sent. */
    method Drain() returns (ghost acts: seq<Action>)
      requires Valid() && phase.Draining? && Inv(S())
      modifies `handlers, `done, `jobs, `log, `phase
      ensures Runs(cfg, old(S()), acts + [Action.Stop], S()) && Inv(S())
      ensures jobs == map[] && handlers == map[] && phase.Returned?
      ensures |acts| == old(Owed(S())) && forall i :: 0 <= i < |acts| ==> Drains(acts[i])
    {
      hide Step, Enabled, Inv, Runs, Owed;
      acts := [];
      ghost var s0 := S();
      EmptyRun(cfg, s0);
      while |jobs| > 0
        invariant phase.Draining? && Inv(S()) && Runs(cfg, s0, acts, S())
        invariant |acts| + Owed(S()) == Owed(s0) && forall i :: 0 <= i < |acts| ==> Drains(acts[i])
        decreases Owed(S())
      {
        ghost var s, a := S(), DrainReceive;
        SomeoneMoves(s);
        var receive: bool := *;
        if done != [] && (receive || handlers == map[]) {
          FrontIsLive(s);
          DrainOne();
        } else {
          a := HandlerMoves();
        }
        DrainStep(cfg, s, a);
        acts := Extend(cfg, s0, acts, s, a);
      }
      NothingOwed(cfg, S());
      ghost var s := S();
      phase := Returned;
      StopDrains(cfg, s);
      ghost var all := Extend(cfg, s0, acts, s, Action.Stop);
    }

    /** Any number of handlers move, in any order. */
    method HandlersMove(ghost s0: State, ghost before: seq<Action>) returns (ghost acts: seq<Action>)
      requires Valid() && Inv(S()) && Runs(cfg, s0, before, S())
      modifies `handlers, `done, `log
      ensures Inv(S()) && Runs(cfg, s0, acts, S()) && Owed(S()) <= old(Owed(S()))
      ensures before <= acts && forall i :: |before| <= i < |acts| ==> HandlerStep(acts[i])
      ensures Finishes(acts) == Finishes(before) && |done| >= |old(done)|
      ensures old(Ready()) ==> Ready()
    {
      hide Step, Enabled, Inv, Runs, Owed, RepliesInv, StreamsWhole, Finishes, Legal;
      acts := before;
      var more: bool := *;
      while more && handlers != map[]
        invariant Inv(S()) && Runs(cfg, s0, acts, S()) && Owed(S()) <= old(Owed(S()))
        invariant before <= acts && forall i :: |before| <= i < |acts| ==> HandlerStep(acts[i])
        invariant Finishes(acts) == Finishes(before) && |done| >= |old(done)|
        invariant old(Ready()) ==> Ready()
        decreases Owed(S())
      {
        ghost var s := S();
        ghost var a := HandlerMoves();
        HandlerPays(cfg, s, a);
        if RepliesInv(s) && StreamsWhole(cfg, s) {
          StepKeeps(cfg, s, a);
        }
        FinishesMore(acts, a);
        acts := Extend(cfg, s0, acts, s, a);
        more := *;
      }
    }

    /** The geometry is legal, and no reply so far has gone wrong. */
    ghost predicate Ready()
      reads this, port
    {
      Legal(port) && RepliesInv(S()) && StreamsWhole(cfg, S())
    }

    /** The results waiting at the top of a turn: at least those there when it begins, under any
        schedule of the handlers, until one reply fails. */
    method FinishAll() returns (ghost acts: seq<Action>)
      requires Valid() && phase.Serving? && Inv(S())
      modifies this, port
      ensures Runs(cfg, old(S()), acts, S()) && Inv(S()) && !phase.Draining?
      ensures forall i :: 0 <= i < |acts| ==> acts[i].Finish? || HandlerStep(acts[i])
      ensures phase.Serving? ==> Finishes(acts) >= |old(done)|
      ensures Later(old(port.moments), port.moments)
      ensures old(Ready()) ==> Ready()
      ensures old(Ready()) && ClearMet(old(port.moments), port.moments) ==> phase.Serving?
    {
      hide Step, Enabled, Inv, Runs, Owed, RepliesInv, StreamsWhole, Finishes, Legal, Later, ClearMet;
      ghost var s0, m0 := S(), port.moments;
      EmptyRun(cfg, s0);
      NoFinishes();
      LaterNow(m0);
      acts := HandlersMove(s0, []);
      while phase.Serving? && done != []
        invariant Runs(cfg, s0, acts, S()) && Inv(S()) && !phase.Draining?
        invariant forall i :: 0 <= i < |acts| ==> acts[i].Finish? || HandlerStep(acts[i])
        invariant Finishes(acts) + |done| >= |s0.done|
        invariant Later(m0, port.moments) && (old(Ready()) ==> Ready())
        invariant old(Ready()) && ClearMet(m0, port.moments) ==> phase.Serving?
        decreases Owed(S())
      {
        ghost var s, m := S(), port.moments;
        FrontIsLive(s);
        ghost var k := FinishWork();
        FinishPays(cfg, s, k);
        FinishesMore(acts, Finish(k));
        if old(Ready()) {
          WorkIsNamed(s);
          StepKeeps(cfg, s, Finish(k));
          if ClearMet(m0, port.moments) {
            LaterNow(port.moments);
            ClearMetPart(m0, m, port.moments, port.moments);
          }
        }
        LaterStill(m0, m, port.moments);
        acts := Extend(cfg, s0, acts, s, Finish(k));
        acts := HandlersMove(s0, acts);
      }
    }

    /** The packet of a turn. */
    method TakeEvent(ghost s0: State, ghost acts: seq<Action>, p: Packet, now: u64)
      returns (ghost longer: seq<Action>)
      requires Valid() && phase.Serving? && Inv(S()) && Runs(cfg, s0, acts, S())
      modifies this, port
      ensures Runs(cfg, s0, longer, S()) && Inv(S()) && !phase.Draining?
      ensures |longer| == |acts| + 1 && longer[..|acts|] == acts
      ensures longer[|acts|].Handle? && longer[|acts|].p == p && longer[|acts|].now == now
      ensures Later(old(port.moments), port.moments)
      ensures old(Ready()) && (IsRequest(p) ==> p.corr != 0) ==>
        Ready() && (ClearMet(old(port.moments), port.moments) ==> phase.Serving?)
    {
      hide Step, Enabled, Inv, Runs, RepliesInv, StreamsWhole, Later, ClearMet, Legal;
      ghost var s := S();
      ghost var k := HandleEvent(p, now);
      HandlePhase(cfg, s, p, now, k);
      if old(Ready()) && (IsRequest(p) ==> p.corr != 0) {
        StepKeeps(cfg, s, Handle(p, now, k));
      }
      longer := Extend(cfg, s0, acts, s, Handle(p, now, k));
    }

    /** One turn of the serving loop, under any schedule of the handlers: waiting results first,
        until one reply fails; then the context, the epoch, and at most one packet. On legal
        geometry a turn fails no reply unless one of its attempts meets a done context or
        another epoch: it ends the loop only for its own context, epoch or a broken poll, and
        every reply it sent is whole. */
    method Turn(i: Input) returns (ghost acts: seq<Action>, ghost n: nat)
      requires Valid() && phase.Serving? && Inv(S())
      modifies this, port
      ensures Runs(cfg, old(S()), acts, S()) && Inv(S()) && !phase.Draining?
      ensures n <= |acts| && forall j :: 0 <= j < n ==> acts[j].Finish? || HandlerStep(acts[j])
      ensures |acts| == n ==> phase.Returned? || (!Ends(i) && i.polled.Idle?)
      ensures |acts| > n ==> Finishes(acts[..n]) >= |old(done)| && Chosen(acts[n], i)
      ensures |acts| > n && i.contextDone ==>
        jobs == map[] && phase.Returned? && forall j :: n < j < |acts| ==> Drains(acts[j]) || acts[j].Stop?
      ensures |acts| > n + 1 ==> i.contextDone
      ensures Later(old(port.moments), port.moments)
      ensures old(Ready()) && Fit(i) && phase.Serving? ==> Ready() && Finishes(acts[..n]) >= |old(done)|
      ensures old(Ready()) && Fit(i) && ClearMet(old(port.moments), port.moments) ==>
        (phase.Returned? ==> Ends(i)) && Finishes(acts[..n]) >= |old(done)| && AllComplete(cfg, log)
    {
      hide Step, Enabled, Inv, Runs, Owed, RepliesInv, StreamsWhole, Finishes, Legal, Later, ClearMet, AllComplete;
      ghost var s0, m0 := S(), port.moments;
      acts := FinishAll();
      n := |acts|;
      assert acts[..n] == acts;
      if !phase.Serving? {
        return;
      }
      ghost var first, s, m := acts, S(), port.moments;
      if Ready() {
        WholeWhileServing(cfg, s);
      }
      LaterNow(m);
      if i.contextDone {
        BeginDrain();
        acts := Extend(cfg, s0, acts, s, Shutdown);
        acts := DrainFrom(s0, acts, s);
      } else if !i.sameEpoch || i.polled.Broken? {
        StopEnds(cfg, s);
        phase := Returned;
        acts := Extend(cfg, s0, acts, s, Action.Stop);
      } else if i.polled.Arrived? {
        acts := TakeEvent(s0, acts, i.polled.p, i.now);
        LaterStill(m0, m, port.moments);
        if ClearMet(m0, port.moments) {
          LaterNow(port.moments);
          ClearMetPart(m0, m, port.moments, port.moments);
        }
        if phase.Serving? && Ready() {
          WholeWhileServing(cfg, S());
        }
      }
      assert acts[..n] == first;
    }

    /** The drain of a turn, appended to its run. */
    method DrainFrom(ghost s0: State, ghost acts: seq<Action>, ghost s: State) returns (ghost all: seq<Action>)
      requires Valid() && Inv(S()) && Runs(cfg, s0, acts, S()) && s.log == log && phase.Draining?
      modifies `handlers, `done, `jobs, `log, `phase
      ensures Runs(cfg, s0, all, S()) && Inv(S()) && jobs == map[] && phase.Returned?
      ensures |all| >= |acts| && all[..|acts|] == acts
      ensures forall j :: |acts| <= j < |all| ==> Drains(all[j]) || all[j].Stop?
      ensures AllComplete(cfg, s.log) ==> AllComplete(cfg, log)
    {
      hide Step, Enabled, Inv, Runs, Owed, AllComplete;
      ghost var mid := S();
      ghost var drained := Drain();
      ghost var rest := drained + [Action.Stop];
      DrainedComplete(cfg, mid, rest, S());
      RunsAppend(cfg, s0, acts, mid, rest, S());
      all := acts + rest;
      assert forall j :: |acts| <= j < |all| ==> all[j] == rest[j - |acts|];
    }

    /** The loop over as many turns as there are inputs. While its attempts meet no done context
        and no other epoch, it goes on to the last input or to one that ends it, and every
        reply it undertook is whole. */
    method Serve(inputs: seq<Input>) returns (ghost acts: seq<Action>)
      requires Valid() && phase.Serving? && Inv(S())
      modifies this, port
      ensures Runs(cfg, old(S()), acts, S()) && Inv(S()) && !phase.Draining?
      ensures Later(old(port.moments), port.moments)
      ensures old(Ready()) && (forall j :: 0 <= j < |inputs| ==> Fit(inputs[j])) &&
              ClearMet(old(port.moments), port.moments) ==>
        AllComplete(cfg, log) && (phase.Returned? ==> exists j :: 0 <= j < |inputs| && Ends(inputs[j]))
    {
      hide Inv, Runs, RepliesInv, StreamsWhole, Legal, Later, ClearMet, AllComplete, Fit, Ends, Finishes, Owed;
      ghost var s0, m0 := S(), port.moments;
      ghost var fit := old(Ready()) && forall j :: 0 <= j < |inputs| ==> Fit(inputs[j]);
      acts := [];
      EmptyRun(cfg, s0);
      LaterNow(m0);
      if old(Ready()) {
        WholeWhileServing(cfg, s0);
      }
      var i := 0;
      while i < |inputs| && phase.Serving?
        invariant i <= |inputs| && Runs(cfg, s0, acts, S()) && Inv(S()) && !phase.Draining?
        invariant Later(m0, port.moments)
        invariant fit && phase.Serving? ==> Ready()
        invariant fit && ClearMet(m0, port.moments) ==>
          AllComplete(cfg, log) && (phase.Returned? ==> exists j :: 0 <= j < |inputs| && Ends(inputs[j]))
      {
        ghost var s, m := S(), port.moments;
        ghost var turn, n := Turn(inputs[i]);
        LaterStill(m0, m, port.moments);
        if ClearMet(m0, port.moments) {
          LaterNow(port.moments);
          ClearMetPart(m0, m, port.moments, port.moments);
        }
        RunsAppend(cfg, s0, acts, s, turn, S());
        acts := acts + turn;
        i := i + 1;
      }
    }
  }

  /** What one turn finds: its context, the epoch, the clock, and one poll. */
  datatype Input = Input(contextDone: bool, sameEpoch: bool, now: u64, polled: Polled)

  /** An input that ends the loop. */
  predicate Ends(i: Input) { i.contextDone || !i.sameEpoch || i.polled.Broken? }

  /** A request came through the frame codec, so it has a correlation. */
  predicate Fit(i: Input)
  {
    i.polled.Arrived? && IsRequest(i.polled.p) ==> i.polled.p.corr != 0
  }

  predicate HandlerStep(a: Action) { a.HandlerReturns? || a.HandlerSends? }

  ghost predicate AllComplete(cfg: Config, log: seq<Entry>)
  {
    forall i :: 0 <= i < |log| ==> Complete(cfg, log[i])
  }

  /** How many results were finished. */
  function Finishes(acts: seq<Action>): nat
  {
    if acts == [] then 0 else Finishes(acts[..|acts| - 1]) + (if acts[|acts| - 1].Finish? then 1 else 0)
  }

  lemma FinishesMore(acts: seq<Action>, a: Action)
    ensures Finishes(acts + [a]) == Finishes(acts) + (if a.Finish? then 1 else 0)
  {
    assert (acts + [a])[..|acts|] == acts;
  }

  lemma NoFinishes()
    ensures Finishes([]) == 0
  {
  }

  /** A handler's move pays one of the steps owed, and may add a result. */
  lemma HandlerPays(cfg: Config, s: State, a: Action)
    requires Enabled(cfg, s, a) && HandlerStep(a)
    ensures var n := Step(cfg, s, a); Owed(n) == Owed(s) - 1 && |n.done| >= |s.done| && n.phase == s.phase
  {
    hide Answer, Late, Owed;
    var n := Step(cfg, s, a);
    if a.HandlerReturns? {
      ReturnPays(s, n, a.id);
    } else {
      SendPays(s, n, a.id);
    }
  }

  lemma FinishPays(cfg: Config, s: State, k: nat)
    requires Enabled(cfg, s, Finish(k))
    ensures var n := Step(cfg, s, Finish(k));
            Owed(n) == Owed(s) - 1 && |n.done| == |s.done| - 1 && !n.phase.Draining?
  {
    hide Stream, Whole, Normal, Owed;
    ReceivePays(s, Step(cfg, s, Finish(k)));
  }

  lemma HandlePhase(cfg: Config, s: State, p: Packet, now: u64, k: nat)
    requires Enabled(cfg, s, Handle(p, now, k))
    ensures !Step(cfg, s, Handle(p, now, k)).phase.Draining?
  {
    hide Stream, Decide, RefusalHeader, Whole, DecodeMessage, StageOf;
  }

  /** Every step on addressed packets keeps what has been promised of replies. */
  lemma StepKeeps(cfg: Config, s: State, a: Action)
    requires RepliesInv(s) && StreamsWhole(cfg, s) && Enabled(cfg, s, a)
    requires a.Handle? && IsRequest(a.p) ==> a.p.corr != 0
    ensures RepliesInv(Step(cfg, s, a)) && StreamsWhole(cfg, Step(cfg, s, a))
  {
    hide RepliesInv, StreamsWhole, Step, Enabled;
    StepReplies(cfg, s, a);
    StepStreams(cfg, s, a);
  }

  lemma HandlerIsLive(s: State, id: nat)
    requires Inv(s) && id in s.handlers
    ensures id < |s.works|
  {
    assert Live(s, id);
  }

  /** While jobs are open, a result waits or a handler lives. */
  lemma SomeoneMoves(s: State)
    requires Inv(s) && |s.jobs| > 0
    ensures s.done != [] || s.handlers != map[]
  {
  }

  lemma NothingOwed(cfg: Config, s: State)
    requires Inv(s) && |s.jobs| == 0 && s.phase.Draining?
    ensures Owed(s) == 0 && s.jobs == map[] && s.handlers == map[]
  {
    DrainProgress(cfg, s);
    assert s.jobs.Keys == {};
    assert |s.handlers| == 0;
    assert s.handlers.Keys == {};
  }

  lemma StopDrains(cfg: Config, s: State)
    requires s.phase.Draining? && |s.jobs| == 0
    ensures Enabled(cfg, s, Action.Stop) && Step(cfg, s, Action.Stop) == s.(phase := Returned)
  {
  }

  lemma WholeWhileServing(cfg: Config, s: State)
    requires StreamsWhole(cfg, s) && s.phase.Serving?
    ensures AllComplete(cfg, s.log)
  {
    hide Complete, AllSent;
  }

  /** The drain adds no reply to the history. */
  lemma {:induction false} DrainedComplete(cfg: Config, s: State, acts: seq<Action>, s': State)
    requires Runs(cfg, s, acts, s') && forall i :: 0 <= i < |acts| ==> Drains(acts[i]) || acts[i].Stop?
    ensures AllComplete(cfg, s.log) ==> AllComplete(cfg, s'.log)
    decreases |acts|
  {
    hide Step, Enabled;
    if acts != [] {
      DrainAdds(cfg, s, acts[0]);
      DrainedComplete(cfg, Step(cfg, s, acts[0]), acts[1..], s');
    }
  }

  lemma DrainAdds(cfg: Config, s: State, a: Action)
    requires Enabled(cfg, s, a) && (Drains(a) || a.Stop?)
    ensures var log := Step(cfg, s, a).log;
            log == s.log || (log == s.log + [log[|s.log|]] && Complete(cfg, log[|s.log|]))
  {
    hide Answer, Late, Stream, Whole;
  }

  /** The oldest result belongs to a job with a correlation and a stage. */
  lemma WorkIsNamed(s: State)
    requires RepliesInv(s) && s.done != [] && s.done[0].id < |s.works|
    ensures s.works[s.done[0].id].corr != 0 && s.works[s.done[0].id].stage != 0
  {
    hide Replyable;
  }

  /** What the loop turns to once no result waits. */
  predicate Chosen(a: Action, i: Input)
  {
    if i.contextDone then a.Shutdown?
    else if !i.sameEpoch || i.polled.Broken? then a.Stop?
    else i.polled.Arrived? && a.Handle? && a.p == i.polled.p && a.now == i.now
  }

  lemma EmptyRun(cfg: Config, s: State)
    ensures Runs(cfg, s, [], s)
  {
  }

  lemma Extend(cfg: Config, s0: State, acts: seq<Action>, s: State, a: Action) returns (longer: seq<Action>)
    requires Runs(cfg, s0, acts, s) && Inv(s) && Enabled(cfg, s, a)
    ensures longer == acts + [a]
    ensures Runs(cfg, s0, longer, Step(cfg, s, a)) && Inv(Step(cfg, s, a))
  {
    hide Runs, Inv, Enabled, Step;
    OneStep(cfg, s, a);
    RunsAppend(cfg, s0, acts, s, [a], Step(cfg, s, a));
    StepKeepsInv(cfg, s, a);
    longer := acts + [a];
  }

  lemma FrontIsLive(s: State)
    requires Inv(s) && s.done != []
    ensures s.done[0].id < |s.works|
  {
    assert Live(s, s.done[0].id);
  }

  lemma StopEnds(cfg: Config, s: State)
    requires s.phase.Serving?
    ensures Enabled(cfg, s, Action.Stop) && Step(cfg, s, Action.Stop) == s.(phase := Returned)
  {
  }
}
