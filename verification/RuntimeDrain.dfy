/** Shutdown: once the loop has seen its context done, it drains every job without deadlock. */
module RuntimeDrain {
  import opened Words
  import opened Envelope
  import opened Runtime
  import opened RuntimeInv

  function Executers(s: State): set<nat>
  {
    set id | id in s.handlers && s.handlers[id].Executing?
  }

  /** Steps still owed: an executing handler owes three, one about to send two, a waiting result one. */
  function Owed(s: State): nat { |Executers(s)| + 2 * |s.handlers| + |s.done| }

  /** The steps that serve the drain. */
  predicate Drains(a: Action) { a.HandlerReturns? || a.HandlerSends? || a.DrainReceive? }

  /** Every such step pays one off, and the loop goes on draining. */
  lemma DrainStep(cfg: Config, s: State, a: Action)
    requires Inv(s) && s.phase.Draining? && Drains(a) && Enabled(cfg, s, a)
    ensures var s' := Step(cfg, s, a); s'.phase.Draining? && Owed(s') == Owed(s) - 1 && Inv(s')
  {
    hide Answer, Late, ResultHeader, Inv, Stream, Decide, RefusalHeader, Normal, Owed, HandleRequest;
    StepKeepsInv(cfg, s, a);
    var s' := Step(cfg, s, a);
    match a
    case HandlerReturns(id, _, _, _) => ReturnPays(s, s', id);
    case HandlerSends(id) => SendPays(s, s', id);
    case DrainReceive => ReceivePays(s, s');
  }

  lemma ReturnPays(s: State, s': State, id: nat)
    requires id in s.handlers && s.handlers[id].Executing? && s'.done == s.done
    requires id in s'.handlers && s'.handlers[id].Sending? && s'.handlers == s.handlers[id := s'.handlers[id]]
    ensures Owed(s') == Owed(s) - 1
  {
    assert Executers(s') == Executers(s) - {id};
    assert s'.handlers.Keys == s.handlers.Keys;
    assert |s'.handlers| == |s'.handlers.Keys| == |s.handlers|;
  }

  lemma SendPays(s: State, s': State, id: nat)
    requires id in s.handlers && s.handlers[id].Sending? && |s'.done| == |s.done| + 1
    requires s'.handlers == s.handlers - {id}
    ensures Owed(s') == Owed(s) - 1
  {
    RemoveCount(s.handlers, id);
    assert Executers(s') == Executers(s);
  }

  lemma ReceivePays(s: State, s': State)
    requires s'.handlers == s.handlers && |s'.done| == |s.done| - 1
    ensures Owed(s') == Owed(s) - 1
  {
    assert Executers(s') == Executers(s);
  }

  /** While jobs remain, someone can move: a blocking receive always has a handler or a
      result to wait for. When none remain, the loop returns. */
  lemma DrainProgress(cfg: Config, s: State)
    requires Inv(s) && s.phase.Draining?
    ensures |s.jobs| > 0 ==> exists a :: Drains(a) && Enabled(cfg, s, a)
    ensures |s.jobs| == 0 ==> Enabled(cfg, s, Stop) && Owed(s) == 0
  {
    if |s.jobs| > 0 {
      if s.done != [] {
        assert Live(s, s.done[0].id);
        assert Enabled(cfg, s, DrainReceive);
      } else {
        SomeKey(s.handlers);
        var id :| id in s.handlers;
        assert Live(s, id);
        if s.handlers[id].Executing? {
          assert Enabled(cfg, s, HandlerReturns(id, [], 0, 0));
        } else {
          assert Enabled(cfg, s, HandlerSends(id));
        }
      }
    } else {
      assert s.handlers.Keys == {};
      assert Executers(s) == {};
    }
  }

  lemma SomeKey(m: map<nat, HandlerPc>)
    requires |m| > 0
    ensures exists id :: id in m
  {
    assert m.Keys != {};
  }

  /** No run of draining steps is longer than the steps owed; a run that cannot go on has
      emptied the jobs. So the drain reaches zero jobs however the handlers are scheduled. */
  lemma {:induction false} DrainTerminates(cfg: Config, s: State, acts: seq<Action>, s': State)
    requires Inv(s) && s.phase.Draining? && Runs(cfg, s, acts, s') && forall a :: a in acts ==> Drains(a)
    ensures Inv(s') && s'.phase.Draining? && |acts| + Owed(s') == Owed(s)
    ensures (forall a :: Drains(a) ==> !Enabled(cfg, s', a)) ==> |s'.jobs| == 0 && Enabled(cfg, s', Stop)
    decreases |acts|
  {
    if acts == [] {
      DrainProgress(cfg, s');
    } else {
      hide Inv, Step, Enabled, Owed;
      DrainStep(cfg, s, acts[0]);
      DrainTerminates(cfg, Step(cfg, s, acts[0]), acts[1..], s');
    }
  }

  /** From the moment the context is seen done, every job still open is flagged, and what
      its handler answers afterwards is Cancelled. */
  ghost predicate Flagged(s: State)
  {
    s.phase.Draining? ==> forall c :: c in s.jobs ==> s.jobs[c] in s.cancelled
  }

  lemma StepFlags(cfg: Config, s: State, a: Action)
    requires Flagged(s) && Enabled(cfg, s, a)
    ensures Flagged(Step(cfg, s, a))
  {
    hide Answer, Late, ResultHeader, Decide, RefusalHeader, Stream, DecodeMessage;
    if s.phase.Serving? && a.Shutdown? {
      var s' := Step(cfg, s, a);
      forall c | c in s'.jobs ensures s'.jobs[c] in s'.cancelled {
        assert s.jobs[c] in s.jobs.Values;
      }
    }
  }

  lemma DrainedAnswersAreCancelled(cfg: Config, s: State, id: nat, response: seq<byte>, status: u16, now: u64)
    requires Inv(s) && Flagged(s) && s.phase.Draining? && Enabled(cfg, s, HandlerReturns(id, response, status, now))
    ensures Step(cfg, s, HandlerReturns(id, response, status, now)).handlers[id] == Sending(ST_CANCELLED, [])
  {
    hide Late, Normal;
    assert Live(s, id);
  }

  lemma {:induction false} RunFlags(cfg: Config, s: State, acts: seq<Action>, s': State)
    requires Flagged(s) && Runs(cfg, s, acts, s')
    ensures Flagged(s')
    decreases |acts|
  {
    hide Flagged, Step, Enabled;
    if acts != [] {
      StepFlags(cfg, s, acts[0]);
      RunFlags(cfg, Step(cfg, s, acts[0]), acts[1..], s');
    }
  }

  /** A draining step adds at most one entry, and an answer it adds is flagged. */
  lemma DrainLogs(cfg: Config, s: State, a: Action)
    requires Inv(s) && Flagged(s) && s.phase.Draining? && Drains(a) && Enabled(cfg, s, a)
    ensures var log := Step(cfg, s, a).log;
            s.log <= log && |log| <= |s.log| + 1 && (|log| > |s.log| && log[|s.log|].Answered? ==> log[|s.log|].flagged)
  {
    hide Answer, Late, Stream;
    if a.HandlerReturns? { assert Live(s, a.id); }
  }

  ghost predicate AnswersFlagged(log: seq<Entry>, from: nat)
  {
    forall i :: from <= i < |log| && log[i].Answered? ==> log[i].flagged
  }

  lemma {:induction false} DrainAnswers(cfg: Config, s: State, acts: seq<Action>, s': State, from: nat)
    requires Inv(s) && Flagged(s) && s.phase.Draining? && Runs(cfg, s, acts, s') && forall a :: a in acts ==> Drains(a)
    requires from <= |s.log| && AnswersFlagged(s.log, from)
    ensures AnswersFlagged(s'.log, from)
    decreases |acts|
  {
    hide Inv, Step, Enabled, Flagged, Owed;
    if acts != [] {
      DrainLogs(cfg, s, acts[0]);
      DrainStep(cfg, s, acts[0]);
      StepFlags(cfg, s, acts[0]);
      DrainAnswers(cfg, Step(cfg, s, acts[0]), acts[1..], s', from);
    }
  }

  /** Shutdown of any reachable module: after the loop has seen its context done, every
      maximal run of handlers and receives ends with no job open, within the steps owed,
      and every answer given meanwhile finds its flag set, so it is Cancelled. */
  lemma ShutdownDrains(cfg: Config, acts: seq<Action>, s: State, drain: seq<Action>, s': State)
    requires Runs(cfg, EMPTY, acts, s) && s.phase.Draining?
    requires Runs(cfg, s, drain, s') && forall a :: a in drain ==> Drains(a)
    ensures |drain| <= Owed(s) <= 3 * MAX_IN_FLIGHT
    ensures (forall a :: Drains(a) ==> !Enabled(cfg, s', a)) ==> |s'.jobs| == 0 && Enabled(cfg, s', Stop)
    ensures forall id :: id in s'.handlers && s'.handlers[id].Executing? ==> id in s'.cancelled
    ensures forall i :: |s.log| <= i < |s'.log| && s'.log[i].Answered? ==>
              s'.log[i].flagged && Answer(s'.log[i].response, s'.log[i].status, true, s'.log[i].late) == (ST_CANCELLED, [])
  {
    hide Runs, Enabled;
    StartsEmpty();
    RunKeepsInv(cfg, EMPTY, acts, s);
    DrainTerminates(cfg, s, drain, s');
    OwedBound(s);
    RunFlags(cfg, EMPTY, acts, s);
    RunFlags(cfg, s, drain, s');
    DrainAnswers(cfg, s, drain, s', |s.log|);
  }

  lemma OwedBound(s: State)
    requires Inv(s)
    ensures Owed(s) <= 3 * MAX_IN_FLIGHT
  {
    Smaller(Executers(s), s.handlers.Keys);
  }

  lemma Smaller(a: set<nat>, b: set<nat>)
    requires a <= b
    ensures |a| <= |b|
  {
    assert b == a + (b - a);
  }
}
