/** The life of one job over whole runs: started once, answered at most once, ended at most
    once, and flagged or late only for a cause. */
module RuntimeJobs {
  import opened Words
  import opened Envelope
  import opened Fragments
  import opened Caller
  import opened Runtime
  import opened RuntimeInv

  /** How often the history says a job started, was answered, and was finished or drained. */
  datatype Life = Life(started: nat, answered: nat, ended: nat)

  function Lived(l: Life, e: Entry, id: nat): Life
  {
    match e
    case Started(i, _, _) => if i == id then l.(started := l.started + 1) else l
    case Answered(i, _, _, _, _) => if i == id then l.(answered := l.answered + 1) else l
    case Finished(i, _, _, _) => if i == id then l.(ended := l.ended + 1) else l
    case Drained(i, _) => if i == id then l.(ended := l.ended + 1) else l
    case _ => l
  }

  function LifeOf(log: seq<Entry>, id: nat): Life
  {
    if log == [] then Life(0, 0, 0) else Lived(LifeOf(log[..|log| - 1], id), log[|log| - 1], id)
  }

  lemma LifeAppend(log: seq<Entry>, e: Entry, id: nat)
    ensures LifeOf(log + [e], id) == Lived(LifeOf(log, id), e, id)
  {
    assert (log + [e])[..|log|] == log;
  }

  /** The life of a job agrees with where the job is now. */
  ghost predicate LifeOk(s: State, id: nat)
  {
    var l := LifeOf(s.log, id);
    if id >= |s.works| then l == Life(0, 0, 0)
    else
      l.started == 1 && l.answered <= 1 && l.ended <= 1 &&
      (l.ended == 0 <==> Live(s, id)) && (l.ended == 1 ==> l.answered == 1) &&
      (id in s.handlers ==> l.answered == if s.handlers[id].Executing? then 0 else 1) &&
      (forall i :: 0 <= i < |s.done| && s.done[i].id == id ==> l.answered == 1)
  }

  /** A history entry about no job's life, and no change of places. */
  lemma SameLife(s: State, s': State, e: Entry, id: nat)
    requires LifeOk(s, id) && s'.log == s.log + [e] && (e.Refused? || e.Kept?)
    requires s'.works == s.works && s'.jobs == s.jobs && s'.handlers == s.handlers && s'.done == s.done
    ensures LifeOk(s', id)
  {
    hide LifeOf;
    LifeAppend(s.log, e, id);
  }

  /** A new job begins its life; the others go on with theirs. */
  lemma NewLife(s: State, s': State, w: Work, body: seq<byte>, id: nat)
    requires WorkInv(s) && LifeOk(s, id) && w.corr !in s.jobs
    requires s'.log == s.log + [Started(|s.works|, w.corr, body)] && s'.works == s.works + [w]
    requires s'.jobs == s.jobs[w.corr := |s.works|] && s'.done == s.done
    requires s'.handlers == s.handlers[|s.works| := Executing(body)]
    ensures LifeOk(s', id)
  {
    hide LifeOf;
    LifeAppend(s.log, s'.log[|s.log|], id);
    NewPlaces(s, s', w, id);
    hide WorkInv, Live;
  }

  lemma NewPlaces(s: State, s': State, w: Work, id: nat)
    requires WorkInv(s) && w.corr !in s.jobs && s'.works == s.works + [w] && s'.jobs == s.jobs[w.corr := |s.works|]
    ensures Live(s', id) <==> Live(s, id) || id == |s.works|
    ensures id in s.handlers ==> id < |s.works|
    ensures forall i :: 0 <= i < |s.done| ==> s.done[i].id < |s.works|
  {
  }

  lemma RequestLife(cfg: Config, s: State, p: Packet, now: u64, k: nat, id: nat)
    requires Inv(s) && LifeOk(s, id) && IsRequest(p) && Enabled(cfg, s, Handle(p, now, k))
    ensures LifeOk(HandleRequest(cfg, s, p, now, k), id)
  {
    hide DecodeMessage, Stream, StageOf, Decide, RefusalHeader, Enabled, Whole, LifeOk, WorkInv, AssemblyInv, Inv;
    InvParts(s);
    DecidedBody(cfg, s.assemblies, s.jobs, p, now);
    var v := Decide(cfg, s.assemblies, s.jobs, p, now);
    var s' := HandleRequest(cfg, s, p, now, k);
    if Refuses(v) {
      RefusalShape(cfg, s, p, now, k);
      hide HandleRequest;
      SameLife(s, s', s'.log[|s.log|], id);
    } else if v.Start? {
      NewLife(s, s', s'.works[|s.works|], v.a.body, id);
    } else {
      SameLife(s, s', s'.log[|s.log|], id);
    }
  }

  lemma PacketLife(cfg: Config, s: State, p: Packet, now: u64, k: nat, id: nat)
    requires Inv(s) && LifeOk(s, id) && Enabled(cfg, s, Handle(p, now, k))
    ensures LifeOk(Step(cfg, s, Handle(p, now, k)), id)
  {
    hide Stream, HandleRequest, Decide, RefusalHeader, LifeOf, Inv;
    if IsRequest(p) { RequestLife(cfg, s, p, now, k, id); }
  }

  /** Where the jobs are once the oldest result is taken. */
  lemma ResultPlaces(s: State, s': State, id: nat)
    requires WorkInv(s) && s.done != [] && s'.works == s.works && s'.done == s.done[1..]
    requires s'.jobs == s.jobs - {s.works[s.done[0].id].corr}
    ensures Live(s, s.done[0].id)
    ensures Live(s', id) <==> Live(s, id) && id != s.done[0].id
    ensures forall i :: 0 <= i < |s'.done| ==> s'.done[i] == s.done[i + 1]
  {
    assert Live(s, s.done[0].id);
  }

  /** The oldest result is taken: its job, and no other, ends. */
  lemma EndLife(s: State, s': State, e: Entry, id: nat)
    requires WorkInv(s) && LifeOk(s, id) && s.done != [] && s'.log == s.log + [e]
    requires (e.Finished? || e.Drained?) && e.id == s.done[0].id
    requires s'.works == s.works && s'.handlers == s.handlers && s'.done == s.done[1..]
    requires s'.jobs == s.jobs - {s.works[s.done[0].id].corr}
    ensures LifeOk(s', id)
  {
    LifeAppend(s.log, e, id);
    ResultPlaces(s, s', id);
    hide LifeOf, WorkInv, Live;
  }

  lemma ResultLife(cfg: Config, s: State, a: Action, id: nat)
    requires Inv(s) && LifeOk(s, id) && Enabled(cfg, s, a) && (a.Finish? || a.DrainReceive?)
    ensures LifeOk(Step(cfg, s, a), id)
  {
    hide Stream, Normal, Whole, LifeOk, Inv, WorkInv, AssemblyInv;
    InvParts(s);
    var s' := Step(cfg, s, a);
    EndLife(s, s', s'.log[|s.log|], id);
  }

  /** A handler is answered for, once. */
  lemma AnswerLife(s: State, s': State, e: Entry, id: nat)
    requires WorkInv(s) && LifeOk(s, id) && e.Answered? && s'.log == s.log + [e]
    requires e.id in s.handlers && s.handlers[e.id].Executing? && e.id in s'.handlers && s'.handlers[e.id].Sending?
    requires s'.handlers == s.handlers[e.id := s'.handlers[e.id]]
    requires s'.works == s.works && s'.jobs == s.jobs && s'.done == s.done
    ensures LifeOk(s', id)
  {
    hide LifeOf;
    LifeAppend(s.log, e, id);
    assert Live(s, e.id);
  }

  lemma SendLife(s: State, s': State, h: nat, id: nat)
    requires WorkInv(s) && LifeOk(s, id) && h in s.handlers && s.handlers[h].Sending? && s'.log == s.log
    requires s'.handlers == s.handlers - {h} && |s'.done| == |s.done| + 1 && s'.done[..|s.done|] == s.done
    requires s'.done[|s.done|].id == h && s'.works == s.works && s'.jobs == s.jobs
    ensures LifeOk(s', id)
  {
    hide LifeOf;
    assert Live(s, h);
    forall i | 0 <= i < |s'.done| && s'.done[i].id == id ensures id < |s.works| ==> LifeOf(s.log, id).answered == 1 {
      if i < |s.done| { assert s'.done[i] == s.done[i]; }
    }
  }

  lemma HandlerLife(cfg: Config, s: State, a: Action, id: nat)
    requires Inv(s) && LifeOk(s, id) && Enabled(cfg, s, a) && (a.HandlerReturns? || a.HandlerSends?)
    ensures LifeOk(Step(cfg, s, a), id)
  {
    hide Answer, Late, LifeOk, Inv, WorkInv, AssemblyInv;
    InvParts(s);
    var s' := Step(cfg, s, a);
    if a.HandlerReturns? {
      AnswerLife(s, s', s'.log[|s.log|], id);
    } else {
      SendLife(s, s', a.id, id);
    }
  }

  lemma PhaseLife(cfg: Config, s: State, a: Action, id: nat)
    requires LifeOk(s, id) && Enabled(cfg, s, a) && (a.Shutdown? || a.Stop?)
    ensures LifeOk(Step(cfg, s, a), id)
  {
    hide LifeOf;
  }

  lemma {:induction false} RunLife(cfg: Config, s: State, acts: seq<Action>, s': State, id: nat)
    requires Inv(s) && LifeOk(s, id) && Runs(cfg, s, acts, s')
    ensures LifeOk(s', id)
    decreases |acts|
  {
    hide Inv, LifeOk, Step, Enabled;
    if acts != [] {
      var a := acts[0];
      StepKeepsInv(cfg, s, a);
      if a.Handle? {
        PacketLife(cfg, s, a.p, a.now, a.k, id);
      } else if a.Finish? || a.DrainReceive? {
        ResultLife(cfg, s, a, id);
      } else if a.HandlerReturns? || a.HandlerSends? {
        HandlerLife(cfg, s, a, id);
      } else {
        PhaseLife(cfg, s, a, id);
      }
      RunLife(cfg, Step(cfg, s, a), acts[1..], s', id);
    }
  }

  /** Every job: one start, at most one answer, at most one end, finished or drained, and never
      without an answer; it is open exactly while it has not ended. */
  lemma JobHistory(cfg: Config, acts: seq<Action>, s: State, id: nat)
    requires Runs(cfg, EMPTY, acts, s)
    ensures var l := LifeOf(s.log, id);
            if id < |s.works| then
              l.started == 1 && l.ended <= l.answered <= 1 && (l.ended == 0 <==> Live(s, id))
            else l == Life(0, 0, 0)
  {
    hide Runs;
    StartsEmpty();
    assert LifeOk(EMPTY, id);
    RunLife(cfg, EMPTY, acts, s, id);
  }

  lemma {:induction false} CountedOnce(log: seq<Entry>, e: Entry, id: nat)
    requires e in log
    ensures e.Answered? && e.id == id ==> LifeOf(log, id).answered >= 1
    ensures (e.Finished? || e.Drained?) && e.id == id ==> LifeOf(log, id).ended >= 1
  {
    if e in log[..|log| - 1] { CountedOnce(log[..|log| - 1], e, id); }
  }

  lemma {:induction false} EndedIsLogged(log: seq<Entry>, id: nat)
    requires LifeOf(log, id).ended >= 1
    ensures exists e :: e in log && (e.Finished? || e.Drained?) && e.id == id
  {
    var front, last := log[..|log| - 1], log[|log| - 1];
    if LifeOf(front, id).ended >= 1 {
      EndedIsLogged(front, id);
    } else {
      assert last in log;
    }
  }

  /** Two answers of one job are the same answer. */
  lemma {:induction false} AnswersAgree(log: seq<Entry>, a: Entry, b: Entry)
    requires a in log && b in log && a.Answered? && b.Answered? && a.id == b.id
    requires LifeOf(log, a.id).answered <= 1
    ensures a == b
  {
    var front, last := log[..|log| - 1], log[|log| - 1];
    if a in front && b in front {
      AnswersAgree(front, a, b);
    } else if a in front {
      CountedOnce(front, a, a.id);
    } else if b in front {
      CountedOnce(front, b, b.id);
    }
  }

  /** Entries name the job's own work item. */
  ghost predicate OwnEntries(s: State)
  {
    forall e :: e in s.log ==>
      (e.Finished? ==> e.id < |s.works| && OwnHeader(s.works[e.id], e.h)) &&
      (e.Drained? ==> e.id < |s.works| && e.corr == s.works[e.id].corr) &&
      (e.Started? ==> e.id < |s.works| && e.corr == s.works[e.id].corr)
  }

  predicate OwnHeader(w: Work, h: Header)
  {
    h == ReplyHeader(w.kind, w.stage, w.trace, w.corr, h.status)
  }

  lemma RequestOwn(cfg: Config, s: State, p: Packet, now: u64, k: nat)
    requires OwnEntries(s) && IsRequest(p) && Enabled(cfg, s, Handle(p, now, k))
    ensures OwnEntries(HandleRequest(cfg, s, p, now, k))
  {
    hide DecodeMessage, Stream, StageOf, Decide, RefusalHeader, Enabled, Whole, OwnHeader;
    DecidedBody(cfg, s.assemblies, s.jobs, p, now);
    if Refuses(Decide(cfg, s.assemblies, s.jobs, p, now)) {
      RefusalShape(cfg, s, p, now, k);
      hide HandleRequest;
    }
  }

  lemma StepOwn(cfg: Config, s: State, a: Action)
    requires OwnEntries(s) && Enabled(cfg, s, a)
    ensures OwnEntries(Step(cfg, s, a))
  {
    hide Stream, HandleRequest, Answer, Normal, Decide, RefusalHeader, Whole, Late;
    if a.Handle? && IsRequest(a.p) {
      RequestOwn(cfg, s, a.p, a.now, a.k);
    }
  }

  lemma {:induction false} RunOwn(cfg: Config, s: State, acts: seq<Action>, s': State)
    requires OwnEntries(s) && Runs(cfg, s, acts, s')
    ensures OwnEntries(s')
    decreases |acts|
  {
    hide OwnEntries, Step, Enabled;
    if acts != [] {
      StepOwn(cfg, s, acts[0]);
      RunOwn(cfg, Step(cfg, s, acts[0]), acts[1..], s');
    }
  }

  /** A reply goes to the kind, correlation, stage and trace of its own job. */
  lemma ReplyNamesItsJob(cfg: Config, acts: seq<Action>, s: State, e: Entry)
    requires Runs(cfg, EMPTY, acts, s) && e in s.log && e.Finished?
    ensures e.id < |s.works| && OwnHeader(s.works[e.id], e.h)
  {
    hide Runs;
    RunOwn(cfg, EMPTY, acts, s);
  }

  lemma RequestGrows(cfg: Config, s: State, p: Packet, now: u64, k: nat)
    requires IsRequest(p) && Enabled(cfg, s, Handle(p, now, k))
    ensures var n := HandleRequest(cfg, s, p, now, k);
            s.works <= n.works && s.log <= n.log && |n.log| == |s.log| + 1 && !n.log[|s.log|].Answered? &&
            n.cancelled == s.cancelled
  {
    hide DecodeMessage, Stream, StageOf, Decide, RefusalHeader, Enabled, Whole;
    DecidedBody(cfg, s.assemblies, s.jobs, p, now);
    if Refuses(Decide(cfg, s.assemblies, s.jobs, p, now)) {
      RefusalShape(cfg, s, p, now, k);
      hide HandleRequest;
    }
  }

  /** A step adds at most one entry, and an answer only when a handler returns. */
  lemma StepGrows(cfg: Config, s: State, a: Action)
    requires Enabled(cfg, s, a)
    ensures var n := Step(cfg, s, a);
            s.works <= n.works && s.log <= n.log && |n.log| <= |s.log| + 1 &&
            (|n.log| > |s.log| && n.log[|s.log|].Answered? ==> a.HandlerReturns?)
  {
    hide Stream, Answer, Normal, Whole, Late, HandleRequest, ResultHeader, Decide, RefusalHeader;
    if a.Handle? && IsRequest(a.p) {
      RequestGrows(cfg, s, a.p, a.now, a.k);
    }
  }

  lemma {:induction false} RunGrows(cfg: Config, s: State, acts: seq<Action>, s': State)
    requires Runs(cfg, s, acts, s')
    ensures s.works <= s'.works && s.log <= s'.log
    decreases |acts|
  {
    hide Step, Enabled;
    if acts != [] {
      StepGrows(cfg, s, acts[0]);
      RunGrows(cfg, Step(cfg, s, acts[0]), acts[1..], s');
    }
  }

  /** What a handler returned in a run is in the history, with the flag and the lateness found. */
  lemma {:induction false} ReturnIsLogged(cfg: Config, s: State, acts: seq<Action>, s': State, k: nat)
    requires Runs(cfg, s, acts, s') && k < |acts| && acts[k].HandlerReturns?
    ensures var a := acts[k];
            exists fl, late :: Answered(a.id, a.response, a.status, fl, late) in s'.log
    decreases k
  {
    hide Enabled;
    if k == 0 {
      LoggedNow(cfg, s, acts[0]);
      hide Step;
      var n := Step(cfg, s, acts[0]);
      RunGrows(cfg, n, acts[1..], s');
      assert s'.log[|s.log|] == n.log[|s.log|];
    } else {
      hide Step;
      ReturnIsLogged(cfg, Step(cfg, s, acts[0]), acts[1..], s', k - 1);
    }
  }

  lemma LoggedNow(cfg: Config, s: State, a: Action)
    requires Enabled(cfg, s, a) && a.HandlerReturns?
    ensures var n := Step(cfg, s, a);
            |n.log| == |s.log| + 1 &&
            n.log[|s.log|] == Answered(a.id, a.response, a.status, a.id in s.cancelled, Late(s.works[a.id], a.now))
  {
    hide Answer;
  }

  /** No shutdown, and no cancel for this correlation. */
  predicate Calm(a: Action, corr: u64)
  {
    !a.Shutdown? && (a.Handle? && a.p.pattern.Cancel? ==> a.p.corr != corr)
  }

  /** No handler of this job returns after its deadline. */
  predicate Timely(a: Action, id: nat, w: Work)
  {
    a.HandlerReturns? && a.id == id ==> w.deadline == 0 || a.now < w.deadline
  }

  /** The test for lateness, as the clock and the deadline have it. */
  lemma LateIff(w: Work, now: u64)
    ensures Late(w, now) <==> 0 < w.deadline <= now
  {
  }

  lemma CalmStep(cfg: Config, s: State, a: Action, id: nat, w: Work)
    requires Inv(s) && Enabled(cfg, s, a) && id !in s.cancelled && (id < |s.works| ==> s.works[id] == w)
    requires Calm(a, w.corr)
    ensures id !in Step(cfg, s, a).cancelled
  {
    hide Stream, Answer, Normal, Late, Decide, RefusalHeader, Whole, HandleRequest, ResultHeader;
    if a.Handle? && IsRequest(a.p) {
      RequestGrows(cfg, s, a.p, a.now, a.k);
    }
  }

  /** The answers of one job recorded from entry `from` on. */
  ghost predicate Fair(log: seq<Entry>, from: nat, id: nat)
  {
    forall i :: from <= i < |log| && log[i].Answered? && log[i].id == id ==> !log[i].flagged && !log[i].late
  }

  lemma FairAppend(log: seq<Entry>, e: Entry, from: nat, id: nat)
    requires from <= |log| && Fair(log, from, id)
    requires e.Answered? && e.id == id ==> !e.flagged && !e.late
    ensures Fair(log + [e], from, id)
  {
  }

  lemma FairStep(cfg: Config, s: State, a: Action, from: nat, id: nat, w: Work)
    requires Enabled(cfg, s, a) && from <= |s.log| && Fair(s.log, from, id)
    requires id !in s.cancelled && (id < |s.works| ==> s.works[id] == w) && Timely(a, id, w)
    ensures Fair(Step(cfg, s, a).log, from, id)
  {
    hide Step, Enabled, Late, Fair;
    StepGrows(cfg, s, a);
    if a.HandlerReturns? {
      LoggedNow(cfg, s, a);
      ReturnsInRange(cfg, s, a);
      LateIff(s.works[a.id], a.now);
    }
    var log := Step(cfg, s, a).log;
    if |log| == |s.log| {
      assert log == s.log;
    } else {
      assert log == s.log + [log[|s.log|]];
      FairAppend(s.log, log[|s.log|], from, id);
    }
  }

  lemma ReturnsInRange(cfg: Config, s: State, a: Action)
    requires Enabled(cfg, s, a) && a.HandlerReturns?
    ensures a.id < |s.works|
  {
  }

  /** A flag has a cause, and so has lateness: while no shutdown and no cancel for the job's
      correlation come, and its handler returns in time, its answer is neither. */
  lemma {:induction false} FlagsHaveCause(cfg: Config, s: State, acts: seq<Action>, s': State, from: nat, id: nat, w: Work)
    requires Inv(s) && Runs(cfg, s, acts, s') && id < |s'.works| && s'.works[id] == w
    requires id !in s.cancelled && from <= |s.log| && Fair(s.log, from, id)
    requires forall i :: 0 <= i < |acts| ==> Calm(acts[i], w.corr) && Timely(acts[i], id, w)
    ensures Fair(s'.log, from, id)
    decreases |acts|
  {
    hide Inv, Step, Enabled, Fair, Calm, Timely;
    if acts != [] {
      var a := acts[0];
      var n := Step(cfg, s, a);
      RunGrows(cfg, n, acts[1..], s');
      StepGrows(cfg, s, a);
      assert id < |s.works| ==> s.works[id] == w;
      StepKeepsInv(cfg, s, a);
      CalmStep(cfg, s, a, id, w);
      FairStep(cfg, s, a, from, id, w);
      FlagsHaveCause(cfg, n, acts[1..], s', from, id, w);
    }
  }

  /** Only jobs that were started are flagged. */
  ghost predicate KnownFlags(s: State) { forall id :: id in s.cancelled ==> id < |s.works| }

  lemma KnownStep(cfg: Config, s: State, a: Action)
    requires Inv(s) && KnownFlags(s) && Enabled(cfg, s, a)
    ensures KnownFlags(Step(cfg, s, a))
  {
    hide Stream, Answer, Normal, Late, Decide, RefusalHeader, Whole, HandleRequest, ResultHeader;
    if a.Handle? && IsRequest(a.p) {
      RequestGrows(cfg, s, a.p, a.now, a.k);
    }
  }

  lemma {:induction false} CancelledAreKnown(cfg: Config, s: State, acts: seq<Action>, s': State)
    requires Inv(s) && KnownFlags(s) && Runs(cfg, s, acts, s')
    ensures KnownFlags(s')
    decreases |acts|
  {
    hide Inv, KnownFlags, Step, Enabled;
    if acts != [] {
      StepKeepsInv(cfg, s, acts[0]);
      KnownStep(cfg, s, acts[0]);
      CancelledAreKnown(cfg, Step(cfg, s, acts[0]), acts[1..], s');
    }
  }

  /** Jobs are drained only once the loop has stopped serving. */
  ghost predicate NotDrained(s: State)
  {
    s.phase.Serving? ==> forall e :: e in s.log ==> !e.Drained?
  }

  lemma RequestNotDrained(cfg: Config, s: State, p: Packet, now: u64, k: nat)
    requires NotDrained(s) && IsRequest(p) && Enabled(cfg, s, Handle(p, now, k))
    ensures NotDrained(HandleRequest(cfg, s, p, now, k))
  {
    hide DecodeMessage, Stream, StageOf, Decide, RefusalHeader, Enabled, Whole;
    DecidedBody(cfg, s.assemblies, s.jobs, p, now);
    if Refuses(Decide(cfg, s.assemblies, s.jobs, p, now)) {
      RefusalShape(cfg, s, p, now, k);
      hide HandleRequest;
    }
  }

  lemma StepNotDrained(cfg: Config, s: State, a: Action)
    requires NotDrained(s) && Enabled(cfg, s, a)
    ensures NotDrained(Step(cfg, s, a))
  {
    hide Stream, HandleRequest, Answer, Normal, Decide, RefusalHeader, Whole, Late;
    if a.Handle? && IsRequest(a.p) {
      RequestNotDrained(cfg, s, a.p, a.now, a.k);
    }
  }

  lemma {:induction false} RunNotDrained(cfg: Config, s: State, acts: seq<Action>, s': State)
    requires NotDrained(s) && Runs(cfg, s, acts, s')
    ensures NotDrained(s')
    decreases |acts|
  {
    hide NotDrained, Step, Enabled;
    if acts != [] {
      StepNotDrained(cfg, s, acts[0]);
      RunNotDrained(cfg, Step(cfg, s, acts[0]), acts[1..], s');
    }
  }
}
