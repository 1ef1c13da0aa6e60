/** The accounting invariant holds in every reachable state, so the results channel never
    blocks a handler; and what the history records is conserved. */
module RuntimeInv {
  import opened Words
  import opened Envelope
  import opened Fragments
  import opened Runtime

  lemma RemoveCount<K, V>(m: map<K, V>, k: K)
    ensures |m - {k}| == if k in m then |m| - 1 else |m|
  {
    assert (m - {k}).Keys == m.Keys - {k};
    assert |m.Keys| == |m|;
    assert |(m - {k}).Keys| == |m - {k}|;
  }

  /** Parts of the invariant that mention only the work in flight. */
  ghost predicate WorkInv(s: State)
  {
    |s.jobs| <= MAX_IN_FLIGHT && |s.handlers| + |s.done| == |s.jobs| &&
    (forall c :: c in s.jobs ==> s.jobs[c] < |s.works| && s.works[s.jobs[c]].corr == c) &&
    (forall id :: id in s.handlers ==> Live(s, id)) &&
    (forall i :: 0 <= i < |s.done| ==> Live(s, s.done[i].id) && s.done[i].id !in s.handlers) &&
    (forall i, j :: 0 <= i < j < |s.done| ==> s.done[i].id != s.done[j].id)
  }

  ghost predicate AssemblyInv(s: State)
  {
    |s.assemblies| <= MAX_IN_FLIGHT &&
    (forall c :: c in s.assemblies ==> c !in s.jobs && |s.assemblies[c].body| <= MAX_BODY)
  }

  lemma InvParts(s: State)
    ensures Inv(s) <==> WorkInv(s) && AssemblyInv(s)
  {
  }

  /** Dropping an assembly, or sending packets, concerns nothing else. */
  lemma DropAssembly(s: State, s': State, corr: u64)
    requires AssemblyInv(s) && s'.assemblies == s.assemblies - {corr} && s'.jobs == s.jobs
    ensures AssemblyInv(s')
  {
    RemoveCount(s.assemblies, corr);
  }

  lemma SameWork(s: State, s': State)
    requires WorkInv(s) && s'.jobs == s.jobs && s'.works == s.works && s'.done == s.done
    requires s'.handlers.Keys == s.handlers.Keys
    ensures WorkInv(s')
  {
    assert |s'.handlers| == |s'.handlers.Keys| == |s.handlers.Keys| == |s.handlers|;
  }

  /** Starting a job adds one handler and one job under a free correlation. */
  lemma StartJob(s: State, s': State, w: Work, body: seq<byte>)
    requires WorkInv(s) && AssemblyInv(s) && w.corr !in s.jobs && |s.jobs| < MAX_IN_FLIGHT
    requires s'.jobs == s.jobs[w.corr := |s.works|] && s'.works == s.works + [w] && s'.done == s.done
    requires s'.handlers == s.handlers[|s.works| := Executing(body)]
    requires s'.assemblies == s.assemblies - {w.corr}
    ensures WorkInv(s') && AssemblyInv(s')
  {
    hide WorkInv, AssemblyInv;
    StartWork(s, s', w, body);
    StartAssemblies(s, s', w.corr);
  }

  lemma StartAssemblies(s: State, s': State, corr: u64)
    requires AssemblyInv(s) && s'.jobs == s.jobs[corr := |s.works|] && s'.assemblies == s.assemblies - {corr}
    ensures AssemblyInv(s')
  {
    RemoveCount(s.assemblies, corr);
  }

  lemma StartWork(s: State, s': State, w: Work, body: seq<byte>)
    requires WorkInv(s) && w.corr !in s.jobs && |s.jobs| < MAX_IN_FLIGHT
    requires s'.jobs == s.jobs[w.corr := |s.works|] && s'.works == s.works + [w] && s'.done == s.done
    requires s'.handlers == s.handlers[|s.works| := Executing(body)]
    ensures WorkInv(s')
  {
    assert Live(s', |s.works|);
    forall id: nat | Live(s, id) ensures Live(s', id) && id < |s.works| {}
    hide Live;
  }

  /** Taking the oldest result removes exactly its own job. */
  lemma TakeResult(s: State, s': State)
    requires WorkInv(s) && AssemblyInv(s) && s.done != []
    requires s'.jobs == s.jobs - {s.works[s.done[0].id].corr} && s'.done == s.done[1..]
    requires s'.works == s.works && s'.handlers == s.handlers && s'.assemblies == s.assemblies
    ensures WorkInv(s') && AssemblyInv(s')
    ensures |s'.jobs| == |s.jobs| - 1
    ensures forall c :: c in s.jobs && s.jobs[c] != s.done[0].id ==> c in s'.jobs
  {
    var d := s.done[0].id;
    var corr := s.works[d].corr;
    assert Live(s, d);
    RemoveCount(s.jobs, corr);
    forall id: nat | Live(s, id) && id != d ensures Live(s', id) {
      assert s.works[id].corr != corr;
    }
    forall i | 0 <= i < |s'.done| ensures Live(s', s'.done[i].id) && s'.done[i].id !in s'.handlers {
      assert s'.done[i] == s.done[i + 1];
    }
    forall i, j | 0 <= i < j < |s'.done| ensures s'.done[i].id != s'.done[j].id {
      assert s'.done[i] == s.done[i + 1] && s'.done[j] == s.done[j + 1];
    }
  }

  lemma SendResult(s: State, s': State, id: nat)
    requires WorkInv(s) && id in s.handlers && s.handlers[id].Sending?
    requires s'.handlers == s.handlers - {id} && s'.jobs == s.jobs && s'.works == s.works
    requires s'.done == s.done + [Done(id, s.handlers[id].status, s.handlers[id].body)]
    ensures WorkInv(s')
  {
    RemoveCount(s.handlers, id);
    forall i | 0 <= i < |s'.done| ensures Live(s', s'.done[i].id) && s'.done[i].id !in s'.handlers {
      if i < |s.done| { assert s'.done[i] == s.done[i]; } else { assert Live(s, id); }
    }
  }

  predicate Refuses(v: Verdict) { !v.Buffer? && !v.Start? }

  /** A refusal touches only the assembly of its correlation, the packets sent and the phase. */
  lemma RefusalShape(cfg: Config, s: State, p: Packet, now: u64, k: nat)
    requires IsRequest(p) && Enabled(cfg, s, Handle(p, now, k))
    requires Refuses(Decide(cfg, s.assemblies, s.jobs, p, now))
    ensures RefusalHeader(cfg, p, Decide(cfg, s.assemblies, s.jobs, p, now)).Some?
    ensures var h := RefusalHeader(cfg, p, Decide(cfg, s.assemblies, s.jobs, p, now)).value;
            k <= |Stream(cfg, h, [])| &&
            HandleRequest(cfg, s, p, now, k) ==
            SendReply(cfg, s.(assemblies := s.assemblies - {p.corr}), h, [], k, Refused(h, k))
  {
    hide Decide, DecodeMessage, Stream, StageOf, SendReply;
  }

  lemma RequestKeepsInv(cfg: Config, s: State, p: Packet, now: u64, k: nat)
    requires Inv(s) && IsRequest(p) && Enabled(cfg, s, Handle(p, now, k))
    ensures Inv(HandleRequest(cfg, s, p, now, k))
  {
    hide DecodeMessage, WorkInv, AssemblyInv, Stream, Inv, StageOf, Decide, RefusalHeader, Enabled;
    InvParts(s);
    DecidedBody(cfg, s.assemblies, s.jobs, p, now);
    var v := Decide(cfg, s.assemblies, s.jobs, p, now);
    var s' := HandleRequest(cfg, s, p, now, k);
    InvParts(s');
    if v.Buffer? {
      SameWork(s, s');
      BufferKept(s, s', p.corr, v.a);
    } else if v.Start? {
      var m := DecodeMessage(p.payload).value;
      StartJob(s, s', Work(p.kind, p.corr, StageOf(cfg, p.kind), m.deadlineNs, m.traceId), v.a.body);
    } else {
      RefusalShape(cfg, s, p, now, k);
      hide HandleRequest;
      SameWork(s, s');
      DropAssembly(s, s', p.corr);
    }
  }

  lemma BufferKept(s: State, s': State, corr: u64, a: Assembly)
    requires AssemblyInv(s) && s'.assemblies == s.assemblies[corr := a] && s'.jobs == s.jobs
    requires corr !in s.jobs && |a.body| <= MAX_BODY && (corr in s.assemblies || |s.assemblies| < MAX_IN_FLIGHT)
    ensures AssemblyInv(s')
  {
  }

  /** An accepted fragment extends the assembly by its part, within the limit, and only
      when a table slot is free or already held. */
  lemma DecidedBody(cfg: Config, assemblies: map<u64, Assembly>, jobs: map<u64, nat>, p: Packet, now: u64)
    ensures var v := Decide(cfg, assemblies, jobs, p, now);
            (v.Buffer? || v.Start? ==>
               p.corr !in jobs && |v.a.body| <= MAX_BODY && (p.corr in assemblies || |assemblies| < MAX_IN_FLIGHT)) &&
            (v.Buffer? || v.Start? ==> DecodeMessage(p.payload).Some?) &&
            (v.Start? ==> |jobs| < MAX_IN_FLIGHT && cfg.hasHandler)
  {
    hide StageOf;
    if DecodeMessage(p.payload).Some? {
      hide DecodeMessage;
    }
  }

  lemma ResultKeepsInv(cfg: Config, s: State, a: Action)
    requires Inv(s) && Enabled(cfg, s, a) && (a.Finish? || a.DrainReceive?)
    ensures Inv(Step(cfg, s, a))
  {
    hide WorkInv, AssemblyInv, Stream, Inv, Normal, Whole;
    var s' := Step(cfg, s, a);
    InvParts(s);
    InvParts(s');
    TakeResult(s, s');
  }

  lemma HandlerKeepsInv(cfg: Config, s: State, a: Action)
    requires Inv(s) && Enabled(cfg, s, a) && (a.HandlerReturns? || a.HandlerSends?)
    ensures Inv(Step(cfg, s, a))
  {
    hide WorkInv, AssemblyInv, Stream, Inv, Answer, Late;
    var s' := Step(cfg, s, a);
    InvParts(s);
    InvParts(s');
    SameAssemblies(s, s');
    if a.HandlerSends? {
      SendResult(s, s', a.id);
    } else {
      SameWork(s, s');
    }
  }

  lemma HandleKeepsInv(cfg: Config, s: State, p: Packet, now: u64, k: nat)
    requires Inv(s) && Enabled(cfg, s, Handle(p, now, k))
    ensures Inv(Step(cfg, s, Handle(p, now, k)))
  {
    hide WorkInv, AssemblyInv, Stream, Inv, HandleRequest, Decide, RefusalHeader;
    if IsRequest(p) {
      RequestKeepsInv(cfg, s, p, now, k);
    } else if p.pattern.Cancel? {
      var s' := HandleCancel(s, p.corr);
      InvParts(s);
      InvParts(s');
      SameWork(s, s');
      DropAssembly(s, s', p.corr);
    }
  }

  lemma PhaseKeepsInv(cfg: Config, s: State, a: Action)
    requires Inv(s) && Enabled(cfg, s, a) && (a.Shutdown? || a.Stop?)
    ensures Inv(Step(cfg, s, a))
  {
    hide Inv, WorkInv, AssemblyInv;
    var s' := Step(cfg, s, a);
    InvParts(s);
    InvParts(s');
    SameWork(s, s');
    SameAssemblies(s, s');
  }

  lemma StepKeepsInv(cfg: Config, s: State, a: Action)
    requires Inv(s) && Enabled(cfg, s, a)
    ensures Inv(Step(cfg, s, a))
  {
    hide Inv, Step, Enabled;
    if a.Handle? {
      HandleKeepsInv(cfg, s, a.p, a.now, a.k);
    } else if a.Finish? || a.DrainReceive? {
      ResultKeepsInv(cfg, s, a);
    } else if a.HandlerReturns? || a.HandlerSends? {
      HandlerKeepsInv(cfg, s, a);
    } else {
      PhaseKeepsInv(cfg, s, a);
    }
  }

  lemma SameAssemblies(s: State, s': State)
    requires AssemblyInv(s) && s'.assemblies == s.assemblies && s'.jobs == s.jobs
    ensures AssemblyInv(s')
  {
  }

  lemma {:induction false} RunKeepsInv(cfg: Config, s: State, acts: seq<Action>, s': State)
    requires Inv(s) && Runs(cfg, s, acts, s')
    ensures Inv(s')
    decreases |acts|
  {
    hide Inv, Step, Enabled;
    if acts != [] {
      StepKeepsInv(cfg, s, acts[0]);
      RunKeepsInv(cfg, Step(cfg, s, acts[0]), acts[1..], s');
    }
  }

  /** In every state the module can reach, whatever the loop is doing or has returned from,
      a handler that is ready to send finds room in the results channel. */
  lemma SendNeverBlocks(cfg: Config, acts: seq<Action>, s: State, id: nat)
    requires Runs(cfg, EMPTY, acts, s) && id in s.handlers && s.handlers[id].Sending?
    ensures Enabled(cfg, s, HandlerSends(id)) && Live(s, id)
  {
    hide Runs;
    StartsEmpty();
    RunKeepsInv(cfg, EMPTY, acts, s);
    assert |s.handlers| > 0;
  }

  /** And the loop's bookkeeping is exact: as many handlers and waiting results as jobs, at
      most sixteen; no correlation both assembling and running; bodies within the limit. */
  lemma ReachableAccounting(cfg: Config, acts: seq<Action>, s: State)
    requires Runs(cfg, EMPTY, acts, s)
    ensures |s.handlers| + |s.done| == |s.jobs| <= MAX_IN_FLIGHT && |s.assemblies| <= MAX_IN_FLIGHT
    ensures s.assemblies.Keys !! s.jobs.Keys
    ensures forall c :: c in s.assemblies ==> |s.assemblies[c].body| <= MAX_BODY
    ensures forall id :: id in s.handlers ==> Live(s, id)
    ensures forall i :: 0 <= i < |s.done| ==> Live(s, s.done[i].id)
  {
    hide Runs;
    StartsEmpty();
    RunKeepsInv(cfg, EMPTY, acts, s);
  }
}
