/** Conservation over whole runs of the serving loop: every request has one outcome, jobs
    started are jobs ended plus jobs open, and every reply of a job is its handler's answer. */
module RuntimeHistory {
  import opened Words
  import opened Envelope
  import opened Fragments
  import opened Runtime
  import opened RuntimeInv

  datatype Tally = Tally(refused: nat, kept: nat, started: nat, finished: nat, drained: nat)

  function Bump(t: Tally, e: Entry): Tally
  {
    match e
    case Refused(_, _) => t.(refused := t.refused + 1)
    case Kept(_) => t.(kept := t.kept + 1)
    case Started(_, _, _) => t.(started := t.started + 1)
    case Answered(_, _, _, _, _) => t
    case Finished(_, _, _, _) => t.(finished := t.finished + 1)
    case Drained(_, _) => t.(drained := t.drained + 1)
  }

  function Count(log: seq<Entry>): Tally
  {
    if log == [] then Tally(0, 0, 0, 0, 0) else Bump(Count(log[..|log| - 1]), log[|log| - 1])
  }

  lemma CountAppend(log: seq<Entry>, e: Entry)
    ensures Count(log + [e]) == Bump(Count(log), e)
  {
    assert (log + [e])[..|log|] == log;
  }

  function Outcomes(t: Tally): nat { t.refused + t.kept + t.started }

  function Requests(acts: seq<Action>): nat
  {
    if acts == [] then 0
    else (if acts[0].Handle? && IsRequest(acts[0].p) then 1 else 0) + Requests(acts[1..])
  }

  /** Jobs started are those finished, those drained and those still open. */
  ghost predicate Balanced(s: State)
  {
    var t := Count(s.log);
    t.started == t.finished + t.drained + |s.jobs|
  }

  /** A request adds exactly one outcome, which starts a job, keeps a fragment or refuses. */
  lemma RequestCounted(cfg: Config, s: State, p: Packet, now: u64, k: nat)
    requires Inv(s) && IsRequest(p) && Enabled(cfg, s, Handle(p, now, k)) && Balanced(s)
    ensures var s' := HandleRequest(cfg, s, p, now, k);
            Balanced(s') && Outcomes(Count(s'.log)) == Outcomes(Count(s.log)) + 1
  {
    hide DecodeMessage, Stream, StageOf, Decide, RefusalHeader, Enabled, Inv, Count;
    DecidedBody(cfg, s.assemblies, s.jobs, p, now);
    var v := Decide(cfg, s.assemblies, s.jobs, p, now);
    var s' := HandleRequest(cfg, s, p, now, k);
    if v.Buffer? {
      CountAppend(s.log, Kept(p.corr));
    } else if v.Start? {
      CountAppend(s.log, Started(|s.works|, p.corr, v.a.body));
    } else {
      RefusalShape(cfg, s, p, now, k);
      hide HandleRequest;
      CountAppend(s.log, s'.log[|s.log|]);
    }
  }

  lemma FinishCounted(cfg: Config, s: State, a: Action)
    requires Inv(s) && Enabled(cfg, s, a) && Balanced(s) && (a.Finish? || a.DrainReceive?)
    ensures var s' := Step(cfg, s, a); Balanced(s') && Outcomes(Count(s'.log)) == Outcomes(Count(s.log))
  {
    hide Stream, Normal, ResultHeader, Count, Inv, Whole;
    var s' := Step(cfg, s, a);
    CountAppend(s.log, s'.log[|s.log|]);
    JobEnds(s, s');
  }

  lemma OtherCounted(cfg: Config, s: State, a: Action)
    requires Enabled(cfg, s, a) && Balanced(s) && !a.Handle? && !a.Finish? && !a.DrainReceive?
    ensures var s' := Step(cfg, s, a); Balanced(s') && Outcomes(Count(s'.log)) == Outcomes(Count(s.log))
  {
    hide Answer, Count, Late;
    if a.HandlerReturns? {
      CountAppend(s.log, Step(cfg, s, a).log[|s.log|]);
    }
  }

  lemma PacketCounted(cfg: Config, s: State, p: Packet, now: u64, k: nat)
    requires Inv(s) && Enabled(cfg, s, Handle(p, now, k)) && Balanced(s)
    ensures var s' := Step(cfg, s, Handle(p, now, k));
            Balanced(s') && Outcomes(Count(s'.log)) == Outcomes(Count(s.log)) + (if IsRequest(p) then 1 else 0)
  {
    hide Stream, HandleRequest, Decide, RefusalHeader, Count, Inv;
    if IsRequest(p) { RequestCounted(cfg, s, p, now, k); }
  }

  lemma StepCounted(cfg: Config, s: State, a: Action)
    requires Inv(s) && Enabled(cfg, s, a) && Balanced(s)
    ensures var s' := Step(cfg, s, a);
            Balanced(s') && Outcomes(Count(s'.log)) == Outcomes(Count(s.log)) + Requests([a])
  {
    hide Step, Enabled, Balanced, Inv, Outcomes, Count;
    assert Requests([a]) == if a.Handle? && IsRequest(a.p) then 1 else 0;
    if a.Handle? {
      PacketCounted(cfg, s, a.p, a.now, a.k);
    } else if a.Finish? || a.DrainReceive? {
      FinishCounted(cfg, s, a);
    } else {
      OtherCounted(cfg, s, a);
    }
  }

  lemma JobEnds(s: State, s': State)
    requires Inv(s) && s.done != [] && s'.jobs == s.jobs - {s.works[s.done[0].id].corr}
    ensures |s'.jobs| == |s.jobs| - 1
  {
    assert Live(s, s.done[0].id);
    RemoveCount(s.jobs, s.works[s.done[0].id].corr);
  }

  lemma {:induction false} RunCounted(cfg: Config, s: State, acts: seq<Action>, s': State)
    requires Inv(s) && Balanced(s) && Runs(cfg, s, acts, s')
    ensures Balanced(s') && Outcomes(Count(s'.log)) == Outcomes(Count(s.log)) + Requests(acts)
    decreases |acts|
  {
    hide Inv, Step, Enabled, Balanced, Outcomes;
    if acts != [] {
      StepKeepsInv(cfg, s, acts[0]);
      StepCounted(cfg, s, acts[0]);
      RunCounted(cfg, Step(cfg, s, acts[0]), acts[1..], s');
      assert Requests([acts[0]]) + Requests(acts[1..]) == Requests(acts);
    }
  }

  /** Over every run: requests handled = refusals + fragments kept + jobs started, and
      jobs started = jobs finished + jobs drained + jobs open. */
  lemma Conservation(cfg: Config, acts: seq<Action>, s: State)
    requires Runs(cfg, EMPTY, acts, s)
    ensures var t := Count(s.log);
            Requests(acts) == t.refused + t.kept + t.started &&
            t.started == t.finished + t.drained + |s.jobs|
  {
    hide Runs, Inv, Count;
    StartsEmpty();
    EmptyBalanced();
    RunCounted(cfg, EMPTY, acts, s);
  }

  lemma EmptyBalanced()
    ensures Balanced(EMPTY) && Outcomes(Count(EMPTY.log)) == 0
  {
    assert Count(EMPTY.log) == Tally(0, 0, 0, 0, 0);
  }

  /** The packets of one history entry. */
  function Sent(cfg: Config, e: Entry): seq<Packet>
  {
    match e
    case Refused(h, k) => if k <= |Stream(cfg, h, [])| then Stream(cfg, h, [])[..k] else []
    case Finished(_, h, body, k) => if k <= |Stream(cfg, h, body)| then Stream(cfg, h, body)[..k] else []
    case _ => []
  }

  predicate Complete(cfg: Config, e: Entry)
  {
    match e
    case Refused(h, k) => Whole(cfg, h, [], k)
    case Finished(_, h, body, k) => Whole(cfg, h, body, k)
    case _ => true
  }

  function AllSent(cfg: Config, log: seq<Entry>): seq<Packet>
  {
    if log == [] then [] else AllSent(cfg, log[..|log| - 1]) + Sent(cfg, log[|log| - 1])
  }

  lemma AllSentAppend(cfg: Config, log: seq<Entry>, e: Entry)
    ensures AllSent(cfg, log + [e]) == AllSent(cfg, log) + Sent(cfg, e)
  {
    assert (log + [e])[..|log|] == log;
  }

  /** Reply streams leave one after the other and complete; only one cut short by the end
      of the loop is partial. */
  ghost predicate StreamsWhole(cfg: Config, s: State)
  {
    s.out == AllSent(cfg, s.log) &&
    (!s.phase.Returned? ==> forall i :: 0 <= i < |s.log| ==> Complete(cfg, s.log[i]))
  }

  lemma StepStreams(cfg: Config, s: State, a: Action)
    requires Enabled(cfg, s, a) && StreamsWhole(cfg, s)
    ensures StreamsWhole(cfg, Step(cfg, s, a))
  {
    hide Stream, HandleRequest, Answer, Normal, ResultHeader, Decide, RefusalHeader, AllSent, Whole;
    var s' := Step(cfg, s, a);
    match a
    case Handle(p, now, k) =>
      if IsRequest(p) { RequestStreams(cfg, s, p, now, k); }
    case Finish(k) => AllSentAppend(cfg, s.log, s'.log[|s.log|]);
    case HandlerReturns(_, _, _, _) => AllSentAppend(cfg, s.log, s'.log[|s.log|]);
    case DrainReceive => AllSentAppend(cfg, s.log, s'.log[|s.log|]);
    case _ =>
  }

  lemma RequestStreams(cfg: Config, s: State, p: Packet, now: u64, k: nat)
    requires IsRequest(p) && Enabled(cfg, s, Handle(p, now, k)) && StreamsWhole(cfg, s)
    ensures StreamsWhole(cfg, HandleRequest(cfg, s, p, now, k))
  {
    hide Stream, Decide, RefusalHeader, AllSent, Whole, DecodeMessage, StageOf, Enabled;
    var v := Decide(cfg, s.assemblies, s.jobs, p, now);
    DecidedBody(cfg, s.assemblies, s.jobs, p, now);
    var s' := HandleRequest(cfg, s, p, now, k);
    if Refuses(v) {
      RefusalShape(cfg, s, p, now, k);
      hide HandleRequest;
      AllSentAppend(cfg, s.log, s'.log[|s.log|]);
    } else {
      AllSentAppend(cfg, s.log, s'.log[|s.log|]);
    }
  }

  /** A result in flight, or a reply sent, is what some answer of that very job's handler
      became after the last look at its cancel flag and the clock. */
  ghost predicate Earned(log: seq<Entry>, id: nat, status: u16, body: seq<byte>)
  {
    exists e :: e in log && Yields(e, id, status, body)
  }

  predicate Yields(e: Entry, id: nat, status: u16, body: seq<byte>)
  {
    e.Answered? && e.id == id && Answer(e.response, e.status, e.flagged, e.late) == (status, body)
  }

  ghost predicate EarnedInv(s: State)
  {
    (forall id :: id in s.handlers && s.handlers[id].Sending? ==>
       Earned(s.log, id, s.handlers[id].status, s.handlers[id].body)) &&
    (forall d :: d in s.done ==> Earned(s.log, d.id, d.status, d.body)) &&
    (forall e :: e in s.log && e.Finished? ==> Earned(s.log, e.id, e.h.status, e.body))
  }

  lemma EarnedGrows(log: seq<Entry>, e: Entry, id: nat, status: u16, body: seq<byte>)
    requires Earned(log, id, status, body)
    ensures Earned(log + [e], id, status, body)
  {
    hide Yields;
    var a :| a in log && Yields(a, id, status, body);
    assert a in log + [e];
  }

  /** The guarantees survive a new history entry; a new result must come with its own. */
  lemma HistoryGrows(s: State, s': State, e: Entry)
    requires EarnedInv(s) && s'.log == s.log + [e]
    requires forall d :: d in s'.done ==> d in s.done
    requires forall id :: id in s'.handlers && s'.handlers[id].Sending? ==>
               (id in s.handlers && s.handlers[id] == s'.handlers[id]) ||
               Earned(s'.log, id, s'.handlers[id].status, s'.handlers[id].body)
    requires e.Finished? ==> Earned(s.log, e.id, e.h.status, e.body)
    ensures EarnedInv(s')
  {
    hide Earned;
    forall id | id in s'.handlers && s'.handlers[id].Sending?
      ensures Earned(s'.log, id, s'.handlers[id].status, s'.handlers[id].body)
    {
      if id in s.handlers && s.handlers[id] == s'.handlers[id] {
        EarnedGrows(s.log, e, id, s.handlers[id].status, s.handlers[id].body);
      }
    }
    forall d | d in s'.done ensures Earned(s'.log, d.id, d.status, d.body) {
      EarnedGrows(s.log, e, d.id, d.status, d.body);
    }
    forall f | f in s'.log && f.Finished? ensures Earned(s'.log, f.id, f.h.status, f.body) {
      EarnedGrows(s.log, e, f.id, f.h.status, f.body);
    }
  }

  lemma AnswerEarns(log: seq<Entry>, e: Entry)
    requires e in log && e.Answered?
    ensures var (st, body) := Answer(e.response, e.status, e.flagged, e.late); Earned(log, e.id, st, body)
  {
    hide Answer;
    var (st, body) := Answer(e.response, e.status, e.flagged, e.late);
    assert Yields(e, e.id, st, body);
  }

  /** An answer's status is in range, only OK carries a body, and normalizing it again
      changes nothing. */
  lemma AnswerIsNormal(response: seq<byte>, status: u16, flagged: bool, late: bool)
    ensures var (st, body) := Answer(response, status, flagged, late);
            Normal(st, body) == (st, body) && st <= ST_INTERNAL && |body| <= MAX_BODY && (st != ST_OK ==> body == [])
  {
  }

  lemma EarnedIsNormal(log: seq<Entry>, id: nat, status: u16, body: seq<byte>)
    requires Earned(log, id, status, body)
    ensures Normal(status, body) == (status, body) && (status != ST_OK ==> body == [])
  {
    hide Normal, Answer;
    var e :| e in log && Yields(e, id, status, body);
    AnswerIsNormal(e.response, e.status, e.flagged, e.late);
  }

  lemma RequestEarned(cfg: Config, s: State, p: Packet, now: u64, k: nat)
    requires IsRequest(p) && Enabled(cfg, s, Handle(p, now, k)) && EarnedInv(s)
    ensures EarnedInv(HandleRequest(cfg, s, p, now, k))
  {
    hide Stream, Decide, RefusalHeader, Earned, Whole, DecodeMessage, StageOf, Enabled, EarnedInv;
    DecidedBody(cfg, s.assemblies, s.jobs, p, now);
    var s' := HandleRequest(cfg, s, p, now, k);
    if Refuses(Decide(cfg, s.assemblies, s.jobs, p, now)) {
      RefusalShape(cfg, s, p, now, k);
      hide HandleRequest;
      HistoryGrows(s, s', s'.log[|s.log|]);
    } else {
      HistoryGrows(s, s', s'.log[|s.log|]);
    }
  }

  lemma FinishEarned(cfg: Config, s: State, k: nat)
    requires Enabled(cfg, s, Finish(k)) && EarnedInv(s)
    ensures EarnedInv(Step(cfg, s, Finish(k)))
  {
    hide Stream, Normal, Earned, Whole;
    var s' := Step(cfg, s, Finish(k));
    var d := s.done[0];
    assert d in s.done;
    EarnedIsNormal(s.log, d.id, d.status, d.body);
    HistoryGrows(s, s', s'.log[|s.log|]);
  }

  lemma ReturnEarned(cfg: Config, s: State, id: nat, response: seq<byte>, status: u16, now: u64)
    requires Enabled(cfg, s, HandlerReturns(id, response, status, now)) && EarnedInv(s)
    ensures EarnedInv(Step(cfg, s, HandlerReturns(id, response, status, now)))
  {
    hide Answer, Earned, Late;
    var s' := Step(cfg, s, HandlerReturns(id, response, status, now));
    var e := s'.log[|s.log|];
    AnswerEarns(s'.log, e);
    HistoryGrows(s, s', e);
  }

  lemma SendEarned(cfg: Config, s: State, id: nat)
    requires Enabled(cfg, s, HandlerSends(id)) && EarnedInv(s)
    ensures EarnedInv(Step(cfg, s, HandlerSends(id)))
  {
    hide Earned;
  }

  lemma StepEarned(cfg: Config, s: State, a: Action)
    requires Enabled(cfg, s, a) && EarnedInv(s)
    ensures EarnedInv(Step(cfg, s, a))
  {
    hide Stream, HandleRequest, Answer, Normal, Decide, RefusalHeader, Earned, Whole, EarnedInv;
    match a
    case Handle(p, now, k) =>
      if IsRequest(p) { RequestEarned(cfg, s, p, now, k); } else { SameHistory(s, Step(cfg, s, a)); }
    case Finish(k) => FinishEarned(cfg, s, k);
    case HandlerReturns(id, response, status, now) => ReturnEarned(cfg, s, id, response, status, now);
    case HandlerSends(id) => SendEarned(cfg, s, id);
    case DrainReceive =>
      var s' := Step(cfg, s, a);
      HistoryGrows(s, s', s'.log[|s.log|]);
    case _ => SameHistory(s, Step(cfg, s, a));
  }

  lemma SameHistory(s: State, s': State)
    requires EarnedInv(s) && s'.log == s.log && s'.done == s.done && s'.handlers == s.handlers
    ensures EarnedInv(s')
  {
    hide Earned;
  }

  lemma {:induction false} RunEarned(cfg: Config, s: State, acts: seq<Action>, s': State)
    requires EarnedInv(s) && StreamsWhole(cfg, s) && Runs(cfg, s, acts, s')
    ensures EarnedInv(s') && StreamsWhole(cfg, s')
    decreases |acts|
  {
    hide EarnedInv, Step, Enabled, StreamsWhole;
    if acts != [] {
      StepEarned(cfg, s, acts[0]);
      StepStreams(cfg, s, acts[0]);
      RunEarned(cfg, Step(cfg, s, acts[0]), acts[1..], s');
    }
  }

  /** Every reply of a job, whatever its status, is what the job's handler answered, after
      the last look at the cancel flag and the clock. */
  lemma RepliesAreAnswers(cfg: Config, acts: seq<Action>, s: State, e: Entry)
    requires Runs(cfg, EMPTY, acts, s) && e in s.log && e.Finished?
    ensures exists a :: a in s.log && Yields(a, e.id, e.h.status, e.body)
  {
    hide Runs;
    RunEarned(cfg, EMPTY, acts, s);
  }

  /** In particular an OK reply exists only for a job whose handler returned OK with that very
      body, its cancel flag clear and its deadline not passed. */
  lemma OkReplyIsEarned(cfg: Config, acts: seq<Action>, s: State, e: Entry)
    requires Runs(cfg, EMPTY, acts, s) && e in s.log && e.Finished? && e.h.status == ST_OK
    ensures Answered(e.id, e.body, ST_OK, false, false) in s.log
  {
    hide Runs;
    RepliesAreAnswers(cfg, acts, s, e);
    var a :| a in s.log && Yields(a, e.id, e.h.status, e.body);
    assert a == Answered(e.id, e.body, ST_OK, false, false);
  }

  /** What has been sent is the reply streams of the history, one after the other, every one
      complete while the loop runs. */
  lemma RepliesAreStreams(cfg: Config, acts: seq<Action>, s: State)
    requires Runs(cfg, EMPTY, acts, s)
    ensures s.out == AllSent(cfg, s.log)
    ensures !s.phase.Returned? ==> forall i :: 0 <= i < |s.log| ==> Complete(cfg, s.log[i])
  {
    hide Runs;
    RunEarned(cfg, EMPTY, acts, s);
  }
}
