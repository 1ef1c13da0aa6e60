/** A cancel that finds its handler still running is final: whatever the handler returns and
    whatever else happens, the job's reply says Cancelled and carries nothing. */
module RuntimeCancel {
  import opened Words
  import opened Envelope
  import opened Fragments
  import opened Runtime
  import opened RuntimeInv

  predicate SaysCancelled(status: u16, body: seq<byte>) { status == ST_CANCELLED && body == [] }

  /** The job is flagged, and from history entry `from` on everything said of it is Cancelled. */
  ghost predicate Doomed(s: State, id: nat, from: nat)
  {
    id < |s.works| && id in s.cancelled && from <= |s.log| &&
    (id in s.handlers && s.handlers[id].Sending? ==> SaysCancelled(s.handlers[id].status, s.handlers[id].body)) &&
    (forall i :: 0 <= i < |s.done| && s.done[i].id == id ==> SaysCancelled(s.done[i].status, s.done[i].body)) &&
    (forall i :: from <= i < |s.log| && s.log[i].Finished? && s.log[i].id == id ==>
       SaysCancelled(s.log[i].h.status, s.log[i].body))
  }

  lemma FinishKeepsDoomed(cfg: Config, s: State, k: nat, id: nat, from: nat)
    requires Doomed(s, id, from) && Enabled(cfg, s, Finish(k))
    ensures Doomed(Step(cfg, s, Finish(k)), id, from)
  {
    hide Stream, Whole;
    var s' := Step(cfg, s, Finish(k));
    assert forall i :: 0 <= i < |s'.done| ==> s'.done[i] == s.done[i + 1];
  }

  lemma HandlerKeepsDoomed(cfg: Config, s: State, a: Action, id: nat, from: nat)
    requires Doomed(s, id, from) && Enabled(cfg, s, a) && (a.HandlerReturns? || a.HandlerSends?)
    ensures Doomed(Step(cfg, s, a), id, from)
  {
    hide Late, Normal;
  }

  lemma EndKeepsDoomed(cfg: Config, s: State, a: Action, id: nat, from: nat)
    requires Doomed(s, id, from) && Enabled(cfg, s, a) && (a.DrainReceive? || a.Shutdown? || a.Stop?)
    ensures Doomed(Step(cfg, s, a), id, from)
  {
    hide SaysCancelled;
    if a.DrainReceive? {
      var s' := Step(cfg, s, a);
      assert forall i :: 0 <= i < |s'.done| ==> s'.done[i] == s.done[i + 1];
    }
  }

  lemma RequestKeepsDoomed(cfg: Config, s: State, p: Packet, now: u64, k: nat, id: nat, from: nat)
    requires Doomed(s, id, from) && IsRequest(p) && Enabled(cfg, s, Handle(p, now, k))
    ensures Doomed(HandleRequest(cfg, s, p, now, k), id, from)
  {
    hide Stream, Decide, RefusalHeader, Whole, DecodeMessage, StageOf, Enabled, SaysCancelled;
    DecidedBody(cfg, s.assemblies, s.jobs, p, now);
    if Refuses(Decide(cfg, s.assemblies, s.jobs, p, now)) {
      RefusalShape(cfg, s, p, now, k);
      hide HandleRequest;
    }
  }

  lemma PacketKeepsDoomed(cfg: Config, s: State, p: Packet, now: u64, k: nat, id: nat, from: nat)
    requires Doomed(s, id, from) && Enabled(cfg, s, Handle(p, now, k))
    ensures Doomed(Step(cfg, s, Handle(p, now, k)), id, from)
  {
    hide Stream, HandleRequest, Decide, RefusalHeader, SaysCancelled;
    if IsRequest(p) {
      RequestKeepsDoomed(cfg, s, p, now, k, id, from);
    }
  }

  lemma {:induction false} RunKeepsDoomed(cfg: Config, s: State, acts: seq<Action>, s': State, id: nat, from: nat)
    requires Doomed(s, id, from) && Runs(cfg, s, acts, s')
    ensures Doomed(s', id, from)
    decreases |acts|
  {
    hide Doomed, Step, Enabled;
    if acts != [] {
      var a := acts[0];
      if a.Handle? {
        PacketKeepsDoomed(cfg, s, a.p, a.now, a.k, id, from);
      } else if a.Finish? {
        FinishKeepsDoomed(cfg, s, a.k, id, from);
      } else if a.HandlerReturns? || a.HandlerSends? {
        HandlerKeepsDoomed(cfg, s, a, id, from);
      } else {
        EndKeepsDoomed(cfg, s, a, id, from);
      }
      RunKeepsDoomed(cfg, Step(cfg, s, a), acts[1..], s', id, from);
    }
  }

  /** A cancel that arrives while the job's handler runs: every reply of that job after it
      says Cancelled, and no OK result can overtake the flag. */
  lemma CancelIsFinal(cfg: Config, past: seq<Action>, s: State, cancel: Packet, now: u64,
                      acts: seq<Action>, s': State, i: nat)
    requires Runs(cfg, EMPTY, past, s) && s.phase.Serving? && cancel.pattern.Cancel? && cancel.corr in s.jobs
    requires s.jobs[cancel.corr] in s.handlers && s.handlers[s.jobs[cancel.corr]].Executing?
    requires Enabled(cfg, s, Handle(cancel, now, 0)) && Runs(cfg, Step(cfg, s, Handle(cancel, now, 0)), acts, s')
    requires |s.log| <= i < |s'.log| && s'.log[i].Finished? && s'.log[i].id == s.jobs[cancel.corr]
    ensures SaysCancelled(s'.log[i].h.status, s'.log[i].body)
  {
    hide Runs, HandleRequest, Decide, Stream;
    StartsEmpty();
    RunKeepsInv(cfg, EMPTY, past, s);
    var id := s.jobs[cancel.corr];
    assert Live(s, id);
    var n := Step(cfg, s, Handle(cancel, now, 0));
    assert Doomed(n, id, |s.log|);
    RunKeepsDoomed(cfg, n, acts, s', id, |s.log|);
  }
}
