/** A call that nothing disturbs succeeds: for every request, response and pair of budgets
    there is a run that carries the call to its end, and the caller gets the response. */
module CallAlone {
  import opened Words
  import opened Envelope
  import opened Fragments
  import opened Caller
  import opened Runtime
  import opened RuntimeLoop
  import opened CallFidelity
  import opened CallOverChannels
  import opened Channel
  import opened PacketRuns

  /** One fragment, taken at time zero, with what it does to the whole state. */
  lemma FeedOne(cfg: Runtime.Config, s: State, h: Header, first: bool, have: seq<byte>, part: seq<byte>, more: bool)
    requires Serves(cfg, h) && Gathered(s.assemblies, h, first, have) && h.corr !in s.jobs && s.phase.Serving?
    requires |have| + |part| <= MAX_BODY && (first ==> |s.assemblies| < MAX_IN_FLIGHT) && |s.jobs| < MAX_IN_FLIGHT
    ensures var a := Handle(Fragment(h, part, more), 0, 0);
            Enabled(cfg, s, a) &&
            var n := Step(cfg, s, a);
            n.phase.Serving? && n.done == s.done && n.cancelled == s.cancelled && n.out == s.out &&
            if more then
              Gathered(n.assemblies, h, false, have + part) && n.jobs == s.jobs && n.works == s.works &&
              n.handlers == s.handlers
            else
              n.jobs == s.jobs[h.corr := |s.works|] && n.works == s.works + [WorkFor(h)] &&
              n.handlers == s.handlers[|s.works| := Executing(have + part)]
  {
    hide DecodeMessage, StageOf, Decide, EnvelopeBytes, HandleRequest, Enabled;
    var p := Fragment(h, part, more);
    FragmentDecided(cfg, s.assemblies, s.jobs, h, first, have, part, more, 0);
    FragmentReads(h, part, more);
    if more {
      KeptBy(cfg, s, p, 0);
    } else {
      StartedBy(cfg, s, p, 0, MessageFor(h, |part|));
    }
  }

  /** Nothing but packets of one correlation. */
  predicate Fed(acts: seq<Action>, corr: u64)
  {
    forall i :: 0 <= i < |acts| ==> acts[i].Handle? && acts[i].p.corr == corr
  }

  /** All fragments of a request, one after the other. */
  lemma {:induction false} Feed(cfg: Runtime.Config, s: State, h: Header, chunk: nat,
                                first: bool, have: seq<byte>, rest: seq<byte>)
    returns (acts: seq<Action>, s': State)
    requires Serves(cfg, h) && 0 < chunk < TWO32 && Gathered(s.assemblies, h, first, have)
    requires h.corr !in s.jobs && s.phase.Serving? && |have| + |rest| <= MAX_BODY
    requires (first ==> |s.assemblies| < MAX_IN_FLIGHT) && |s.jobs| < MAX_IN_FLIGHT
    ensures Runs(cfg, s, acts, s') && Carried(cfg, s, acts, h, Split(h, rest, chunk))
    ensures s'.phase.Serving? && s'.done == s.done && s'.cancelled == s.cancelled && s'.out == s.out
    ensures s'.jobs == s.jobs[h.corr := |s.works|] && s'.works == s.works + [WorkFor(h)]
    ensures s'.handlers == s.handlers[|s.works| := Executing(have + rest)]
    ensures Fed(acts, h.corr)
    decreases |rest|
  {
    hide Step, Enabled, EnvelopeBytes, Serves, DecodeMessage, Runs, Carried, Split;
    var more := |rest| > chunk;
    var part := if more then rest[..chunk] else rest;
    var a := Handle(Fragment(h, part, more), 0, 0);
    FeedOne(cfg, s, h, first, have, part, more);
    s' := Step(cfg, s, a);
    SplitHead(h, rest, chunk);
    if more {
      var tail;
      tail, s' := Feed(cfg, s', h, chunk, false, have + part, rest[chunk..]);
      assert have + part + rest[chunk..] == have + rest;
      acts := [a] + tail;
      RunsCons(cfg, s, a, tail, s');
      CarriedCons(cfg, s, a, tail, h, Split(h, rest, chunk));
    } else {
      acts := [a];
      RunsCons(cfg, s, a, [], s');
      CarriedNone(cfg, s', h);
      CarriedCons(cfg, s, a, [], h, Split(h, rest, chunk));
      assert [a] + [] == [a];
    }
  }

  lemma SplitHead(h: Header, rest: seq<byte>, chunk: nat)
    requires 0 < chunk < TWO32
    ensures var more := |rest| > chunk;
            var ps := Split(h, rest, chunk);
            ps[0] == Fragment(h, if more then rest[..chunk] else rest, more) &&
            ps[1..] == if more then Split(h, rest[chunk..], chunk) else []
  {
    hide EnvelopeBytes;
  }

  lemma RunsCons(cfg: Runtime.Config, s: State, a: Action, tail: seq<Action>, s': State)
    requires Enabled(cfg, s, a)
    ensures Runs(cfg, s, [a] + tail, s') <==> Runs(cfg, Step(cfg, s, a), tail, s')
    ensures tail == [] ==> Runs(cfg, Step(cfg, s, a), tail, Step(cfg, s, a))
  {
    hide Step, Enabled;
    assert ([a] + tail)[1..] == tail;
  }

  /** The packet in front is carried when the tables have room for it. */
  lemma {:induction false} CarriedCons(cfg: Runtime.Config, s: State, a: Action, tail: seq<Action>,
                                       h: Header, todo: seq<Packet>)
    requires Enabled(cfg, s, a) && a.Handle? && a.p.corr == h.corr && a.now == 0
    requires todo != [] && a.p == todo[0] && |s.jobs| < MAX_IN_FLIGHT
    requires h.corr in s.assemblies || |s.assemblies| < MAX_IN_FLIGHT
    requires Carried(cfg, Step(cfg, s, a), tail, h, todo[1..])
    ensures Carried(cfg, s, [a] + tail, h, todo)
  {
    hide Step, Enabled;
    assert ([a] + tail)[1..] == tail;
  }

  lemma CarriedNone(cfg: Runtime.Config, s: State, h: Header)
    ensures Carried(cfg, s, [], h, [])
  {
  }

  /** Steps that handle no packet carry nothing. */
  lemma {:induction false} CarriedThen(cfg: Runtime.Config, s: State, acts: seq<Action>, n: State,
                                       more: seq<Action>, s': State, h: Header, todo: seq<Packet>)
    requires Carried(cfg, s, acts, h, todo) && Runs(cfg, s, acts, n) && Runs(cfg, n, more, s')
    requires forall a :: a in more ==> !a.Handle?
    ensures Carried(cfg, s, acts + more, h, todo)
    decreases |acts| + |more|
  {
    hide Step, Enabled;
    if acts == [] {
      assert acts + more == more;
      if more != [] {
        CarriedThen(cfg, Step(cfg, n, more[0]), [], Step(cfg, n, more[0]), more[1..], s', h, todo);
        assert [] + more[1..] == more[1..];
      }
    } else {
      assert (acts + more)[1..] == acts[1..] + more;
      var rest := if acts[0].Handle? && acts[0].p.corr == h.corr then todo[1..] else todo;
      CarriedThen(cfg, Step(cfg, s, acts[0]), acts[1..], n, more, s', h, rest);
    }
  }

  lemma HandlerAnswers(cfg: Runtime.Config, s: State, id: nat, response: seq<byte>) returns (n: State)
    requires id < |s.works| && id !in s.cancelled && id in s.handlers && s.handlers[id].Executing?
    requires |response| <= MAX_BODY && s.done == []
    ensures Runs(cfg, s, [HandlerReturns(id, response, ST_OK, 0), HandlerSends(id)], n)
    ensures n.phase == s.phase && n.works == s.works && n.out == s.out && n.done == [Done(id, ST_OK, response)]
  {
    var a, b := HandlerReturns(id, response, ST_OK, 0), HandlerSends(id);
    var mid := Step(cfg, s, a);
    n := Step(cfg, mid, b);
    hide Step, Enabled;
    RunsCons(cfg, mid, b, [], n);
    RunsCons(cfg, s, a, [b], n);
    assert [b] + [] == [b] && [a] + [b] == [a, b];
  }

  lemma ReplyGoesOut(cfg: Runtime.Config, s: State, w: Work, id: nat, response: seq<byte>) returns (a: Action, n: State)
    requires s.phase.Serving? && id < |s.works| && s.works[id] == w && s.out == []
    requires s.done == [Done(id, ST_OK, response)] && |response| <= MAX_BODY && cfg.budget > MSG_HDR
    ensures a.Finish? && Enabled(cfg, s, a) && n == Step(cfg, s, a)
    ensures n.out == Split(ReplyHeader(w.kind, w.stage, w.trace, w.corr, ST_OK), response, cfg.budget - MSG_HDR)
  {
    hide Split, Whole;
    var ps := Stream(cfg, ReplyHeader(w.kind, w.stage, w.trace, w.corr, ST_OK), response);
    a := Finish(|ps|);
    n := Step(cfg, s, a);
    assert ps[..|ps|] == ps && [] + ps == ps;
  }

  /** The handler returns, its result is taken, and its reply goes out whole. */
  lemma Serve(cfg: Runtime.Config, s: State, h: Header, id: nat, response: seq<byte>)
    returns (acts: seq<Action>, s': State)
    requires s.phase.Serving? && id < |s.works| && s.works[id] == WorkFor(h) && id !in s.cancelled
    requires id in s.handlers && s.handlers[id].Executing? && s.done == [] && s.out == []
    requires |response| <= MAX_BODY && cfg.budget > MSG_HDR
    ensures Runs(cfg, s, acts, s') && forall a :: a in acts ==> !a.Handle?
    ensures s'.out == Split(ReplyHeader(h.kind, h.stage, h.trace, h.corr, ST_OK), response, cfg.budget - MSG_HDR)
  {
    hide Split, Step, Enabled, Runs;
    var n := HandlerAnswers(cfg, s, id, response);
    var first := [HandlerReturns(id, response, ST_OK, 0), HandlerSends(id)];
    var c;
    c, s' := ReplyGoesOut(cfg, n, WorkFor(h), id, response);
    OneStep(cfg, n, c);
    RunsAppend(cfg, s, first, n, [c], s');
    acts := first + [c];
  }

  /** A caller that polls exactly these packets. */
  function Arrivals(ps: seq<Packet>): (polls: seq<Polled>)
    ensures |polls| == |ps| && forall i :: 0 <= i < |ps| ==> polls[i] == Arrived(ps[i])
  {
    seq(|ps|, i requires 0 <= i < |ps| => Arrived(ps[i]))
  }

  lemma {:induction false} ArrivalsFor(ps: seq<Packet>, corr: u64)
    requires forall i :: 0 <= i < |ps| ==> ps[i].corr == corr
    ensures ForCall(Arrivals(ps), corr) == ps
  {
    if ps != [] {
      assert Arrivals(ps)[1..] == Arrivals(ps[1..]);
      ArrivalsFor(ps[1..], corr);
      assert ps == [ps[0]] + ps[1..];
    }
  }

  /** The undisturbed call. The run and the polls meet every premise of `CallReturnsAnswer`. */
  lemma UndisturbedCall(cfg: Runtime.Config, kind: u32, stage: u32, trace: u64, corr: u64, deadline: u64,
                        request: seq<byte>, response: seq<byte>, budget: u32)
    returns (acts: seq<Action>, s': State, polls: seq<Polled>)
    requires Serves(cfg, RequestHeader(kind, stage, trace, corr, deadline)) && !Reserved(kind)
    requires |request| <= MAX_BODY && |response| <= MAX_BODY && budget > MSG_HDR && cfg.budget > MSG_HDR
    ensures CallMade(cfg, [], EMPTY, acts, s', RequestHeader(kind, stage, trace, corr, deadline),
                     request, budget, polls)
    ensures Await(polls, kind, corr, []) == Body(response)
    ensures forall i :: 0 <= i < |acts| ==> (acts[i].Handle? ==> acts[i].p.corr == corr)
    ensures s'.out == Split(ReplyHeader(kind, stage, trace, corr, ST_OK), response, cfg.budget - MSG_HDR)
    ensures polls == Arrivals(s'.out)
  {
    hide Runs, Carried, Split, Await, ForCall, OutFor, Serves;
    var h := RequestHeader(kind, stage, trace, corr, deadline);
    var fed, served, n;
    fed, n := Feed(cfg, EMPTY, h, budget - MSG_HDR, true, [], request);
    served, s' := Serve(cfg, n, h, 0, response);
    acts := fed + served;
    EmptyRun(cfg, EMPTY);
    RunsAppend(cfg, EMPTY, fed, n, served, s');
    CarriedThen(cfg, EMPTY, fed, n, served, s', h, Split(h, request, budget - MSG_HDR));
    polls := Arrivals(s'.out);
    Delivered(cfg, kind, stage, trace, corr, response, s'.out, deadline);
  }

  lemma Delivered(cfg: Runtime.Config, kind: u32, stage: u32, trace: u64, corr: u64, response: seq<byte>,
                  out: seq<Packet>, deadline: u64)
    requires Serves(cfg, RequestHeader(kind, stage, trace, corr, deadline)) && !Reserved(kind)
    requires |response| <= MAX_BODY && cfg.budget > MSG_HDR
    requires out == Split(ReplyHeader(kind, stage, trace, corr, ST_OK), response, cfg.budget - MSG_HDR)
    ensures var polls := Arrivals(out);
            Patient(polls) && ForCall(polls, corr) == OutFor(out, corr) && Await(polls, kind, corr, []) == Body(response)
  {
    hide Split, Await, ForCall, OutFor;
    var h := ReplyHeader(kind, stage, trace, corr, ST_OK);
    SplitConserves(h, response, cfg.budget - MSG_HDR);
    ArrivalsFor(out, corr);
    OutForAll(out, corr);
    ReplyReassembles(Arrivals(out), h, response, cfg.budget - MSG_HDR, []);
    assert [] + response == response;
  }

  lemma {:induction false} HandledOnCall(acts: seq<Action>, corr: u64)
    requires forall i :: 0 <= i < |acts| ==> (acts[i].Handle? ==> acts[i].p.corr == corr)
    ensures OnCall(Handled(acts), corr) == Handled(acts)
  {
    if acts != [] {
      HandledOnCall(acts[1..], corr);
      OnCallHead(acts, corr);
      if acts[0].Handle? {
        assert Handled(acts) == [acts[0].p] + Handled(acts[1..]);
        assert OnCall(Handled(acts), corr) == [acts[0].p] + OnCall(Handled(acts[1..]), corr);
      }
    }
  }

  lemma {:induction false} ArrivalsBring(ps: seq<Packet>)
    ensures Brought(Arrivals(ps)) == ps
  {
    if ps != [] {
      assert Arrivals(ps)[1..] == Arrivals(ps[1..]);
      ArrivalsBring(ps[1..]);
      assert ps == [ps[0]] + ps[1..];
    }
  }

  /** The fragments of a correlated body have a channel on legal geometry. */
  lemma FragmentsHaveLink(h: Header, body: seq<byte>, budget: u32, slotSize: u32) returns (way: Way)
    requires LegalBudget(budget, slotSize) && budget > MSG_HDR && h.corr != 0 && (h.pattern.Request? || h.pattern.Reply?)
    ensures Link(Split(h, body, budget - MSG_HDR), way, Split(h, body, budget - MSG_HDR))
  {
    hide Split, LegalBudget, Link, Conveys;
    SplitConserves(h, body, budget - MSG_HDR);
    var ps := Split(h, body, budget - MSG_HDR);
    var slots := SlotsExist(ps, budget, slotSize);
    LinkExists(slots, ps, slotSize);
    way := Way(slotSize, InTurn(slots));
  }

  /** The undisturbed call over two channels: whatever the request and the response, and on any
      legal geometry, it is made as `EndToEnd` supposes, and it succeeds. */
  lemma UndisturbedOverChannels(cfg: Runtime.Config, kind: u32, stage: u32, trace: u64, corr: u64, deadline: u64,
                                request: seq<byte>, response: seq<byte>, budget: u32, slotThere: u32, slotBack: u32)
    returns (acts: seq<Action>, s': State, polls: seq<Polled>, asked: seq<Packet>, there: Way, back: Way)
    requires Serves(cfg, RequestHeader(kind, stage, trace, corr, deadline)) && !Reserved(kind) && corr != 0
    requires |request| <= MAX_BODY && |response| <= MAX_BODY
    requires LegalBudget(budget, slotThere) && budget > MSG_HDR && LegalBudget(cfg.budget, slotBack) && cfg.budget > MSG_HDR
    ensures CallSent(cfg, acts, s', RequestHeader(kind, stage, trace, corr, deadline), request, budget,
                     asked, there, back, polls)
    ensures Await(polls, kind, corr, []) == Body(response)
  {
    hide Runs, Carried, Split, Await, ForCall, OutFor, Serves, Link, Handled, Brought, OnCall, Roomy, LegalBudget;
    var h := RequestHeader(kind, stage, trace, corr, deadline);
    acts, s', polls := UndisturbedCall(cfg, kind, stage, trace, corr, deadline, request, response, budget);
    asked := Split(h, request, budget - MSG_HDR);
    CarriedIsRoomy(cfg, EMPTY, acts, h, asked);
    HandledOnCall(acts, corr);
    ArrivalsBring(s'.out);
    there := FragmentsHaveLink(h, request, budget, slotThere);
    back := FragmentsHaveLink(ReplyHeader(kind, stage, trace, corr, ST_OK), response, cfg.budget, slotBack);
  }
}
