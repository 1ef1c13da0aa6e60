/** The call over its transport: each direction is a channel, from its first send until it is
    drained, and what the module handles and the caller waits on is what their polls bring. */
module CallOverChannels {
  import opened Words
  import opened Envelope
  import opened Fragments
  import opened PacketRuns
  import opened Caller
  import opened Runtime
  import opened RuntimeJobs
  import opened CallFidelity

  /** The packets the module took from its channel, oldest first. */
  function Handled(acts: seq<Action>): seq<Packet>
  {
    if acts == [] then [] else (if acts[0].Handle? then [acts[0].p] else []) + Handled(acts[1..])
  }

  /** The packets the caller took from its channel. */
  function Brought(polls: seq<Polled>): seq<Packet>
  {
    if polls == [] then [] else (if polls[0].Arrived? then [polls[0].p] else []) + Brought(polls[1..])
  }

  /** When a packet of the correlation comes, a table slot is free or held, and at the last one a
      job slot is free and the deadline has not passed. */
  ghost predicate Roomy(cfg: Runtime.Config, s: State, acts: seq<Action>, h: Header)
    decreases |acts|
  {
    acts == [] ||
    (var a := acts[0];
     Enabled(cfg, s, a) &&
     (a.Handle? && a.p.corr == h.corr ==>
        (h.corr in s.assemblies || |s.assemblies| < MAX_IN_FLIGHT) &&
        (a.p.more || (|s.jobs| < MAX_IN_FLIGHT && (h.deadline == 0 || a.now < h.deadline)))) &&
     Roomy(cfg, Step(cfg, s, a), acts[1..], h))
  }

  /** A run with room carries exactly the packets of the correlation it handles. */
  lemma {:induction false} HandledIsCarried(cfg: Runtime.Config, s: State, acts: seq<Action>, h: Header)
    requires Roomy(cfg, s, acts, h)
    ensures Carried(cfg, s, acts, h, OnCall(Handled(acts), h.corr))
    decreases |acts|
  {
    hide Step, Enabled;
    if acts != [] {
      var a := acts[0];
      HandledIsCarried(cfg, Step(cfg, s, a), acts[1..], h);
      OnCallHead(acts, h.corr);
    }
  }

  lemma OnCallHead(acts: seq<Action>, corr: u64)
    requires acts != []
    ensures var todo, rest := OnCall(Handled(acts), corr), OnCall(Handled(acts[1..]), corr);
            if acts[0].Handle? && acts[0].p.corr == corr then todo != [] && todo[0] == acts[0].p && todo[1..] == rest
            else todo == rest
  {
    if acts[0].Handle? {
      assert Handled(acts)[1..] == Handled(acts[1..]);
    } else {
      assert Handled(acts) == Handled(acts[1..]);
    }
  }

  lemma {:induction false} BroughtFor(polls: seq<Polled>, corr: u64)
    ensures ForCall(polls, corr) == OnCall(Brought(polls), corr)
  {
    if polls != [] {
      BroughtFor(polls[1..], corr);
      if polls[0].Arrived? {
        assert Brought(polls)[1..] == Brought(polls[1..]);
      } else {
        assert Brought(polls) == Brought(polls[1..]);
      }
    }
  }

  lemma {:induction false} OnCallAppend(ps: seq<Packet>, p: Packet, corr: u64)
    ensures OnCall(ps + [p], corr) == OnCall(ps, corr) + (if p.corr == corr then [p] else [])
  {
    if ps == [] {
      assert [] + [p] == [p];
      assert OnCall([p][1..], corr) == [];
    } else {
      OnCallAppend(ps[1..], p, corr);
      assert (ps + [p])[1..] == ps[1..] + [p];
    }
  }

  lemma {:induction false} OutIsOnCall(ps: seq<Packet>, corr: u64)
    ensures OutFor(ps, corr) == OnCall(ps, corr)
  {
    if ps != [] {
      var front, last := ps[..|ps| - 1], ps[|ps| - 1];
      OutIsOnCall(front, corr);
      OnCallAppend(front, last, corr);
      assert ps == front + [last];
    }
  }

  /** A run that carries the packets of a call has room for them, and handles exactly them on
      its correlation. */
  lemma {:induction false} CarriedIsRoomy(cfg: Runtime.Config, s: State, acts: seq<Action>, h: Header, todo: seq<Packet>)
    requires Carried(cfg, s, acts, h, todo)
    ensures Roomy(cfg, s, acts, h) && OnCall(Handled(acts), h.corr) == todo
    decreases |acts|
  {
    hide Step, Enabled;
    if acts != [] {
      var a := acts[0];
      var rest := if a.Handle? && a.p.corr == h.corr then todo[1..] else todo;
      CarriedIsRoomy(cfg, Step(cfg, s, a), acts[1..], h, rest);
      OnCallHead(acts, h.corr);
      if a.Handle? && a.p.corr == h.corr {
        assert todo == [todo[0]] + rest;
      }
    }
  }

  /** Both directions of a call: what goes into the module's channel, among it the fragments of
      the request, is what the module handles; what the module sends is what the caller waits on.
      Whoever else sends through the first is free in what it sends, so long as it reads as packets. */
  ghost predicate Linked(acts: seq<Action>, s': State, h: Header, request: seq<byte>, budget: u32,
                         asked: seq<Packet>, there: Way, back: Way, polls: seq<Polled>)
  {
    budget > MSG_HDR && OnCall(asked, h.corr) == Split(h, request, budget - MSG_HDR) &&
    Link(asked, there, Handled(acts)) && Link(s'.out, back, Brought(polls))
  }

  /** A call over two channels, as it is made. */
  ghost predicate CallSent(cfg: Runtime.Config, acts: seq<Action>, s': State, h: Header, request: seq<byte>,
                           budget: u32, asked: seq<Packet>, there: Way, back: Way, polls: seq<Polled>)
  {
    Runs(cfg, EMPTY, acts, s') && Roomy(cfg, EMPTY, acts, h) && Serves(cfg, h) && |request| <= MAX_BODY &&
    Linked(acts, s', h, request, budget, asked, there, back, polls) && Patient(polls) && !Reserved(h.kind)
  }

  /** It meets every premise of the call between perfect ends. */
  lemma ChannelsCarryCall(cfg: Runtime.Config, acts: seq<Action>, s': State, h: Header, request: seq<byte>,
                          budget: u32, asked: seq<Packet>, there: Way, back: Way, polls: seq<Polled>)
    requires CallSent(cfg, acts, s', h, request, budget, asked, there, back, polls)
    ensures CallMade(cfg, [], EMPTY, acts, s', h, request, budget, polls)
  {
    hide Runs, Roomy, Serves, Link, Handled, Brought, OnCall, Split, Carried, Patient, ForCall, OutFor;
    LinkDelivers(asked, there, Handled(acts));
    LinkDelivers(s'.out, back, Brought(polls));
    HandledIsCarried(cfg, EMPTY, acts, h);
    BroughtFor(polls, h.corr);
    OutIsOnCall(s'.out, h.corr);
    NothingRun(cfg);
  }

  lemma NothingRun(cfg: Runtime.Config)
    ensures Runs(cfg, EMPTY, [], EMPTY)
  {
  }

  /** The call, end to end. Exactly one job starts, on exactly the request. Once its reply is out,
      and it is when the job has ended and the loop still serves, the caller gets what its
      handler answered. */
  lemma EndToEnd(cfg: Runtime.Config, acts: seq<Action>, s': State, h: Header, request: seq<byte>,
                 budget: u32, asked: seq<Packet>, there: Way, back: Way, polls: seq<Polled>)
    returns (id: nat)
    requires CallSent(cfg, acts, s', h, request, budget, asked, there, back, polls)
    ensures Starts(s'.log, h.corr) == [Started(id, h.corr, request)] && |Replies(s'.log, h.corr)| <= 1
    ensures s'.phase.Serving? && h.corr !in s'.jobs ==> Replied(cfg, s', h.corr)
    ensures Replied(cfg, s', h.corr) ==>
      (exists a :: a in s'.log && a.Answered? && a.id == id) &&
      (forall a :: a in s'.log && a.Answered? && a.id == id ==> Await(polls, h.kind, h.corr, []) == AnswerSeen(a))
  {
    hide CallSent, CallMade, Replied, Starts, Replies, Await, AnswerSeen;
    ChannelsCarryCall(cfg, acts, s', h, request, budget, asked, there, back, polls);
    id := CallReturnsAnswer(cfg, [], EMPTY, acts, s', h, request, budget, polls);
  }

  /** And when nothing cancels it or shuts the module down, and its handler is in time, that is
      what the handler returned. */
  lemma PromptEndToEnd(cfg: Runtime.Config, acts: seq<Action>, s': State, h: Header, request: seq<byte>,
                       budget: u32, asked: seq<Packet>, there: Way, back: Way, polls: seq<Polled>, k: nat)
    returns (id: nat)
    requires CallSent(cfg, acts, s', h, request, budget, asked, there, back, polls) && Replied(cfg, s', h.corr)
    requires forall i :: 0 <= i < |acts| ==> Calm(acts[i], h.corr)
    requires k < |acts| && acts[k].HandlerReturns?
    ensures Starts(s'.log, h.corr) == [Started(id, h.corr, request)]
    ensures acts[k].id == id && (forall i :: 0 <= i < |acts| ==> Timely(acts[i], id, WorkFor(h))) ==>
      Await(polls, h.kind, h.corr, []) == ReturnSeen(acts[k].status, acts[k].response)
  {
    hide CallSent, CallMade, Replied, Starts, Await, Calm, Timely;
    ChannelsCarryCall(cfg, acts, s', h, request, budget, asked, there, back, polls);
    id := PromptCallReturns(cfg, [], EMPTY, acts, s', h, request, budget, polls, k);
  }
}
