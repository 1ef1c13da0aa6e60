/** What the serving loop makes of each packet, in terms of the packet and its clock alone: which
    requests are refused and how, when a job starts, and on whose bytes. */
module RuntimeIntake {
  import opened Words
  import opened Wrappers
  import opened Envelope
  import opened Wire
  import opened Fragments
  import opened Caller
  import opened Runtime
  import opened RuntimeInv
  import opened RuntimeHistory
  import opened RuntimeJobs
  import opened RuntimeReplies
  import opened RuntimeLoop

  /** An invocation that names the stage of its kind. */
  predicate Named(cfg: Config, p: Packet)
  {
    p.kind in cfg.stages && cfg.stages[p.kind] != 0 && DecodeMessage(p.payload).Some? &&
    DecodeMessage(p.payload).value.operation == 1 && DecodeMessage(p.payload).value.stageId == cfg.stages[p.kind]
  }

  /** It is not for a job that runs already, and repeats what its first fragment said. */
  predicate Taken(cfg: Config, s: State, p: Packet)
  {
    Named(cfg, p) && p.corr !in s.jobs &&
    (p.corr in s.assemblies ==>
       var a, m := s.assemblies[p.corr], DecodeMessage(p.payload).value;
       a.kind == p.kind && a.message.stageId == m.stageId && a.message.deadlineNs == m.deadlineNs &&
       a.message.traceId == m.traceId)
  }

  /** The body bytes in front of this packet's own. */
  function Before(s: State, p: Packet): seq<byte>
  {
    if p.corr in s.assemblies then s.assemblies[p.corr].body else []
  }

  /** One refusal: an empty reply on the request's kind and correlation, of which `k` packets got
      out; what was gathered on the correlation is dropped and nothing else changes. */
  ghost predicate RefusedWith(cfg: Config, s: State, n: State, p: Packet, k: nat, status: u16, stage: u32, trace: u64)
  {
    var h := Header(Reply, 2, status, p.kind, p.corr, stage, 0, trace);
    var reply := if cfg.budget <= 40 then [] else [Fragment(h, [], false)];
    k <= |reply| &&
    n == s.(assemblies := s.assemblies - {p.corr}, out := s.out + reply[..k],
            phase := if k == 1 then s.phase else Returned, log := s.log + [Refused(h, k)])
  }

  ghost predicate KeptAs(s: State, n: State, p: Packet, body: seq<byte>)
  {
    DecodeMessage(p.payload).Some? &&
    var m := if p.corr in s.assemblies then s.assemblies[p.corr].message else DecodeMessage(p.payload).value;
    n == s.(assemblies := s.assemblies[p.corr := Assembly(p.kind, m, body)], log := s.log + [Kept(p.corr)])
  }

  ghost predicate StartedOn(s: State, n: State, p: Packet, body: seq<byte>)
  {
    DecodeMessage(p.payload).Some? &&
    var id, m := |s.works|, DecodeMessage(p.payload).value;
    n == s.(assemblies := s.assemblies - {p.corr}, jobs := s.jobs[p.corr := id],
            works := s.works + [Work(p.kind, p.corr, m.stageId, m.deadlineNs, m.traceId)],
            handlers := s.handlers[id := Executing(body)], log := s.log + [Started(id, p.corr, body)])
  }

  lemma TakenIsAcceptable(cfg: Config, s: State, p: Packet)
    ensures Taken(cfg, s, p) <==> Acceptable(cfg, s.assemblies, s.jobs, p)
  {
    hide DecodeMessage;
  }

  lemma RequestStep(cfg: Config, s: State, p: Packet, now: u64, k: nat)
    requires Enabled(cfg, s, Handle(p, now, k)) && p.pattern.Request?
    ensures s.phase.Serving? && IsRequest(p) && Step(cfg, s, Handle(p, now, k)) == HandleRequest(cfg, s, p, now, k)
  {
    hide Decide, RefusalHeader, Stream, HandleRequest;
  }

  /** A refusal by its header. */
  lemma RefusedStep(cfg: Config, s: State, p: Packet, now: u64, k: nat, status: u16, stage: u32, trace: u64)
    requires Enabled(cfg, s, Handle(p, now, k)) && IsRequest(p)
    requires Refuses(Decide(cfg, s.assemblies, s.jobs, p, now))
    requires RefusalHeader(cfg, p, Decide(cfg, s.assemblies, s.jobs, p, now)) ==
             Some(ReplyHeader(p.kind, stage, trace, p.corr, status))
    ensures RefusedWith(cfg, s, HandleRequest(cfg, s, p, now, k), p, k, status, stage, trace)
  {
    hide Decide, RefusalHeader, HandleRequest, Enabled, Fragment;
    RefusalShape(cfg, s, p, now, k);
    var h := ReplyHeader(p.kind, stage, trace, p.corr, status);
    assert Stream(cfg, h, []) == if cfg.budget <= 40 then [] else [Fragment(h, [], false)];
  }

  /** A packet that is no request for this module, or does not continue what came before it, is
      refused as invalid; its trace is lost. */
  lemma ForeignIsRefused(cfg: Config, s: State, p: Packet, now: u64, k: nat)
    requires Enabled(cfg, s, Handle(p, now, k)) && p.pattern.Request? && !Taken(cfg, s, p)
    ensures RefusedWith(cfg, s, Step(cfg, s, Handle(p, now, k)), p, k, 4,
                        if p.kind in cfg.stages && cfg.stages[p.kind] != 0 then cfg.stages[p.kind] else 1, 0)
  {
    hide Decide, RefusalHeader, HandleRequest, Enabled, Step, Taken, RefusedWith;
    RequestStep(cfg, s, p, now, k);
    TakenIsAcceptable(cfg, s, p);
    NotAcceptable(cfg, s.assemblies, s.jobs, p, now);
    InvalidRefusal(cfg, p);
    var stage := if p.kind in cfg.stages && cfg.stages[p.kind] != 0 then cfg.stages[p.kind] else 1;
    RefusedStep(cfg, s, p, now, k, 4, stage, 0);
  }

  /** What becomes of a request that is taken. It needs a free place in the table for its first
      fragment, 16 MiB for its body, a deadline still ahead when it is whole, a handler, and a free
      job; it is refused for the first of these it lacks, and otherwise its job starts. */
  lemma IntakeMeans(cfg: Config, s: State, p: Packet, now: u64, k: nat)
    requires Enabled(cfg, s, Handle(p, now, k)) && p.pattern.Request? && Taken(cfg, s, p)
    ensures DecodeMessage(p.payload).Some? && 40 + DecodeMessage(p.payload).value.bodyLen <= |p.payload|
    ensures var n, m := Step(cfg, s, Handle(p, now, k)), DecodeMessage(p.payload).value;
            var body := Before(s, p) + p.payload[40..40 + m.bodyLen];
            var refusal :=
              if p.corr !in s.assemblies && |s.assemblies| >= 16 then 5
              else if |body| > 0x100_0000 then 5
              else if p.more then 0
              else if 0 < m.deadlineNs <= now then 3
              else if !cfg.hasHandler then 1
              else if |s.jobs| >= 16 then 5
              else 0;
            if refusal != 0 then RefusedWith(cfg, s, n, p, k, refusal, m.stageId, m.traceId)
            else if p.more then KeptAs(s, n, p, body)
            else StartedOn(s, n, p, body)
  {
    hide DecodeMessage, Decide, RefusalHeader, HandleRequest, Enabled, Step, RefusedWith, StageOf;
    RequestStep(cfg, s, p, now, k);
    DecodedCovers(p.payload);
    TakenIsAcceptable(cfg, s, p);
    TakenStage(cfg, s, p);
    var m := DecodeMessage(p.payload).value;
    var first := if p.corr in s.assemblies then s.assemblies[p.corr] else Assembly(p.kind, m, []);
    var v := Decide(cfg, s.assemblies, s.jobs, p, now);
    AcceptableVerdict(cfg, s.assemblies, s.jobs, p, now, m, first, p.payload[40..40 + m.bodyLen]);
    RefusalOf(cfg, p, v, m);
    if v.Buffer? {
      KeptBy(cfg, s, p, now);
      OneOutcome(cfg, s, p, now, k);
    } else if v.Start? {
      StartedBy(cfg, s, p, now, m);
      OneOutcome(cfg, s, p, now, k);
    } else {
      RefusedStep(cfg, s, p, now, k, RefusalHeader(cfg, p, v).value.status, m.stageId, m.traceId);
    }
  }

  lemma TakenStage(cfg: Config, s: State, p: Packet)
    requires Taken(cfg, s, p)
    ensures DecodeMessage(p.payload).Some? && StageOf(cfg, p.kind) == DecodeMessage(p.payload).value.stageId
    ensures p.corr in s.assemblies ==> s.assemblies[p.corr].kind == p.kind
  {
    hide DecodeMessage;
  }

  /** A packet that is kept or starts a job sends nothing. */
  lemma OneOutcome(cfg: Config, s: State, p: Packet, now: u64, k: nat)
    requires Enabled(cfg, s, Handle(p, now, k)) && !Refuses(Decide(cfg, s.assemblies, s.jobs, p, now))
    ensures k == 0
  {
    hide Decide, Stream;
  }

  /** A serving loop takes every packet, whatever becomes of its reply. */
  lemma PacketsAreTaken(cfg: Config, s: State, p: Packet, now: u64)
    ensures Enabled(cfg, s, Handle(p, now, 0)) <==> s.phase.Serving?
  {
    hide Decide, RefusalHeader, Stream;
  }

  /** Packets that are neither requests nor cancels change nothing. */
  lemma OthersIgnored(cfg: Config, s: State, p: Packet, now: u64, k: nat)
    requires Enabled(cfg, s, Handle(p, now, k)) && !p.pattern.Request? && !p.pattern.Cancel?
    ensures Step(cfg, s, Handle(p, now, k)) == s
  {
  }

  /** A cancel flags the job of its correlation, if one is open, drops what was gathered on it, and
      changes nothing else. */
  lemma CancelMeans(cfg: Config, s: State, p: Packet, now: u64, k: nat)
    requires Enabled(cfg, s, Handle(p, now, k)) && p.pattern.Cancel?
    ensures var n := Step(cfg, s, Handle(p, now, k));
            n == s.(cancelled := n.cancelled, assemblies := n.assemblies) && p.corr !in n.assemblies &&
            (forall c :: c != p.corr ==> (c in n.assemblies <==> c in s.assemblies)) &&
            (forall c :: c in n.assemblies ==> n.assemblies[c] == s.assemblies[c]) &&
            (forall id :: id in n.cancelled <==> id in s.cancelled || (p.corr in s.jobs && id == s.jobs[p.corr]))
  {
  }

  /** The requests and cancels handled on a correlation, in order. */
  function Met(acts: seq<Action>, c: u64): seq<Action>
  {
    if acts == [] then [] else MetNow(acts[0], c) + Met(acts[1..], c)
  }

  function MetNow(a: Action, c: u64): seq<Action>
  {
    if a.Handle? && a.p.corr == c && (a.p.pattern.Request? || a.p.pattern.Cancel?) then [a] else []
  }

  /** A request for this job: the stage its kind is served at, and the job's deadline and trace. */
  predicate AsksFor(cfg: Config, w: Work, a: Action)
  {
    a.Handle? && a.p.pattern.Request? && a.p.corr == w.corr && a.p.kind == w.kind &&
    w.kind in cfg.stages && cfg.stages[w.kind] == w.stage && w.stage != 0 && DecodeMessage(a.p.payload).Some? &&
    var m := DecodeMessage(a.p.payload).value;
    m.operation == 1 && m.stageId == w.stage && m.deadlineNs == w.deadline && m.traceId == w.trace
  }

  /** The body bytes of requests, joined. */
  function Parts(block: seq<Action>): seq<byte>
  {
    if block == [] then [] else Parts(block[..|block| - 1]) + PartIn(block[|block| - 1])
  }

  function PartIn(a: Action): seq<byte>
  {
    if a.Handle? then PartOf(a.p.payload) else []
  }

  /** Requests for one job, of which more are to follow, and their bytes. */
  ghost predicate Gathering(cfg: Config, w: Work, block: seq<Action>, body: seq<byte>)
  {
    |block| > 0 && body == Parts(block) && |body| <= 0x100_0000 &&
    forall i :: 0 <= i < |block| ==> AsksFor(cfg, w, block[i]) && block[i].p.more
  }

  /** A whole request, the last part of which came in time. */
  ghost predicate WholeRequest(cfg: Config, w: Work, block: seq<Action>, body: seq<byte>)
  {
    |block| > 0 && body == Parts(block) && |body| <= 0x100_0000 &&
    (forall i :: 0 <= i < |block| ==> AsksFor(cfg, w, block[i]) && (block[i].p.more <==> i < |block| - 1)) &&
    (w.deadline == 0 || block[|block| - 1].now < w.deadline)
  }

  function WorkOf(c: u64, a: Assembly): Work
  {
    Work(a.kind, c, a.message.stageId, a.message.deadlineNs, a.message.traceId)
  }

  /** What is gathered on `c` is the end of what was met on it. */
  ghost predicate Tracks(cfg: Config, s: State, met: seq<Action>, c: u64)
  {
    c in s.assemblies ==>
      exists i :: 0 <= i <= |met| && Gathering(cfg, WorkOf(c, s.assemblies[c]), met[i..], s.assemblies[c].body)
  }

  /** A job started on `c` has a whole request among what was met on it. */
  ghost predicate StartedFrom(cfg: Config, works: seq<Work>, met: seq<Action>, e: Entry)
  {
    e.Started? && e.id < |works| && works[e.id].corr == e.corr &&
    exists i, j :: 0 <= i <= j <= |met| && WholeRequest(cfg, works[e.id], met[i..j], e.body)
  }

  ghost predicate AllStarted(cfg: Config, s: State, met: seq<Action>, c: u64, from: nat)
  {
    forall k :: from <= k < |s.log| && s.log[k].Started? && s.log[k].corr == c ==>
      StartedFrom(cfg, s.works, met, s.log[k])
  }

  lemma MoreMet(cfg: Config, works: seq<Work>, longer: seq<Work>, met: seq<Action>, more: seq<Action>, e: Entry)
    requires StartedFrom(cfg, works, met, e) && works <= longer
    ensures StartedFrom(cfg, longer, met + more, e)
  {
    hide WholeRequest;
    var i, j :| 0 <= i <= j <= |met| && WholeRequest(cfg, works[e.id], met[i..j], e.body);
    assert (met + more)[i..j] == met[i..j];
  }

  lemma AllMoreMet(cfg: Config, s: State, n: State, met: seq<Action>, more: seq<Action>, c: u64, from: nat)
    requires AllStarted(cfg, s, met, c, from) && s.works <= n.works && s.log <= n.log
    requires forall k :: |s.log| <= k < |n.log| && n.log[k].Started? && n.log[k].corr == c ==>
               StartedFrom(cfg, n.works, met + more, n.log[k])
    ensures AllStarted(cfg, n, met + more, c, from)
  {
    hide StartedFrom;
    forall k | from <= k < |n.log| && n.log[k].Started? && n.log[k].corr == c
      ensures StartedFrom(cfg, n.works, met + more, n.log[k])
    {
      if k < |s.log| {
        assert n.log[k] == s.log[k];
        MoreMet(cfg, s.works, n.works, met, more, s.log[k]);
      }
    }
  }

  lemma PartsLonger(block: seq<Action>, a: Action)
    ensures Parts(block + [a]) == Parts(block) + PartIn(a)
  {
    assert (block + [a])[..|block|] == block;
  }

  /** One more request behind those that are gathered, or the first. */
  lemma NextRequest(cfg: Config, s: State, met: seq<Action>, a: Action) returns (block: seq<Action>, i: nat)
    requires a.Handle? && a.p.pattern.Request? && Taken(cfg, s, a.p) && Tracks(cfg, s, met, a.p.corr)
    ensures i <= |met| && block == (met + [a])[i..] && |block| > 0 && block[|block| - 1] == a
    ensures var m := DecodeMessage(a.p.payload).value;
            var w := Work(a.p.kind, a.p.corr, m.stageId, m.deadlineNs, m.traceId);
            Parts(block) == Before(s, a.p) + PartIn(a) &&
            AsksFor(cfg, w, a) &&
            forall x :: 0 <= x < |block| - 1 ==> AsksFor(cfg, w, block[x]) && block[x].p.more
  {
    hide Parts, PartIn, DecodeMessage;
    var c := a.p.corr;
    if c in s.assemblies {
      var x :| 0 <= x <= |met| && Gathering(cfg, WorkOf(c, s.assemblies[c]), met[x..], s.assemblies[c].body);
      i, block := x, met[x..] + [a];
      PartsLonger(met[x..], a);
    } else {
      i, block := |met|, [a];
      PartsLonger([], a);
      assert [] + [a] == [a];
      NoParts();
    }
  }

  lemma NoParts()
    ensures Parts([]) == []
  {
  }

  /** Nothing gathered on `c` changes, and no job starts on it. */
  ghost predicate Untouched(s: State, n: State, c: u64)
  {
    s.works <= n.works && s.log <= n.log && |n.log| <= |s.log| + 1 &&
    (c in n.assemblies <==> c in s.assemblies) && (c in s.assemblies ==> n.assemblies[c] == s.assemblies[c]) &&
    (|n.log| > |s.log| ==> !(n.log[|s.log|].Started? && n.log[|s.log|].corr == c))
  }

  lemma RefusedElsewhere(cfg: Config, s: State, n: State, p: Packet, k: nat, status: u16, stage: u32, trace: u64, c: u64)
    requires RefusedWith(cfg, s, n, p, k, status, stage, trace) && p.corr != c
    ensures Untouched(s, n, c)
  {
    hide Fragment;
  }

  lemma AcceptedElsewhere(s: State, n: State, p: Packet, body: seq<byte>, c: u64)
    requires (KeptAs(s, n, p, body) || StartedOn(s, n, p, body)) && p.corr != c
    ensures Untouched(s, n, c)
  {
    hide DecodeMessage;
  }

  lemma OtherRequest(cfg: Config, s: State, p: Packet, now: u64, k: nat, c: u64)
    requires Enabled(cfg, s, Handle(p, now, k)) && p.pattern.Request? && p.corr != c
    ensures Untouched(s, Step(cfg, s, Handle(p, now, k)), c)
  {
    hide Enabled, Step, Taken, DecodeMessage, Untouched, RefusedWith, KeptAs, StartedOn, Before;
    var n := Step(cfg, s, Handle(p, now, k));
    if Taken(cfg, s, p) {
      IntakeMeans(cfg, s, p, now, k);
      var m := DecodeMessage(p.payload).value;
      var body := Before(s, p) + p.payload[40..40 + m.bodyLen];
      if KeptAs(s, n, p, body) || StartedOn(s, n, p, body) {
        AcceptedElsewhere(s, n, p, body, c);
      } else {
        var status :| RefusedWith(cfg, s, n, p, k, status, m.stageId, m.traceId);
        RefusedElsewhere(cfg, s, n, p, k, status, m.stageId, m.traceId, c);
      }
    } else {
      ForeignIsRefused(cfg, s, p, now, k);
      RefusedElsewhere(cfg, s, n, p, k, 4,
                       if p.kind in cfg.stages && cfg.stages[p.kind] != 0 then cfg.stages[p.kind] else 1, 0, c);
    }
  }

  lemma OtherAction(cfg: Config, s: State, a: Action, c: u64)
    requires Enabled(cfg, s, a) && !a.Handle?
    ensures Untouched(s, Step(cfg, s, a), c)
  {
    hide Stream, Answer, Normal, Whole, Late, ResultHeader;
  }

  lemma OtherCancel(s: State, n: State, c: u64)
    requires n == s.(cancelled := n.cancelled, assemblies := n.assemblies)
    requires c in n.assemblies <==> c in s.assemblies
    requires c in n.assemblies ==> n.assemblies[c] == s.assemblies[c]
    ensures Untouched(s, n, c)
  {
  }

  lemma Elsewhere(cfg: Config, s: State, a: Action, c: u64)
    requires Enabled(cfg, s, a) && MetNow(a, c) == []
    ensures Untouched(s, Step(cfg, s, a), c)
  {
    hide Enabled, Step, Untouched;
    if !a.Handle? {
      OtherAction(cfg, s, a, c);
    } else if a.p.pattern.Request? {
      OtherRequest(cfg, s, a.p, a.now, a.k, c);
    } else if a.p.pattern.Cancel? {
      CancelMeans(cfg, s, a.p, a.now, a.k);
      OtherCancel(s, Step(cfg, s, a), c);
    } else {
      OthersIgnored(cfg, s, a.p, a.now, a.k);
      OtherCancel(s, s, c);
    }
  }

  lemma UntouchedKeeps(cfg: Config, s: State, n: State, met: seq<Action>, c: u64, from: nat)
    requires Untouched(s, n, c) && Tracks(cfg, s, met, c) && AllStarted(cfg, s, met, c, from)
    ensures Tracks(cfg, n, met, c) && AllStarted(cfg, n, met, c, from)
  {
    hide Gathering, StartedFrom, AllStarted;
    assert met + [] == met;
    AllMoreMet(cfg, s, n, met, [], c, from);
  }

  lemma StepExtends(cfg: Config, s: State, a: Action)
    requires Enabled(cfg, s, a)
    ensures s.works <= Step(cfg, s, a).works && s.log <= Step(cfg, s, a).log
  {
    hide Step, Enabled;
    StepGrows(cfg, s, a);
  }

  lemma RequestMet(cfg: Config, s: State, met: seq<Action>, a: Action, from: nat)
    requires Enabled(cfg, s, a) && a.Handle? && a.p.pattern.Request?
    requires Tracks(cfg, s, met, a.p.corr) && AllStarted(cfg, s, met, a.p.corr, from)
    ensures var n := Step(cfg, s, a);
            Tracks(cfg, n, met + [a], a.p.corr) && AllStarted(cfg, n, met + [a], a.p.corr, from)
  {
    hide Enabled, Step, Taken, DecodeMessage, Fragment, AllStarted, Tracks, PartIn, KeptAs, StartedOn, Before;
    var p, n := a.p, Step(cfg, s, a);
    if !Taken(cfg, s, p) {
      ForeignIsRefused(cfg, s, p, a.now, a.k);
      DroppedMet(cfg, s, n, met, a, p.corr, from);
    } else {
      IntakeMeans(cfg, s, p, a.now, a.k);
      PartInIs(a);
      var body := Before(s, p) + PartIn(a);
      if p.corr !in n.assemblies && forall k :: |s.log| <= k < |n.log| ==> !n.log[k].Started? {
        StepExtends(cfg, s, a);
        DroppedMet(cfg, s, n, met, a, p.corr, from);
      } else if p.more {
        KeptMet(cfg, s, n, met, a, body, from);
      } else {
        StartMet(cfg, s, n, met, a, body, from);
      }
    }
  }

  lemma PartInIs(a: Action)
    requires a.Handle? && DecodeMessage(a.p.payload).Some?
    ensures 40 + DecodeMessage(a.p.payload).value.bodyLen <= |a.p.payload|
    ensures PartIn(a) == a.p.payload[40..40 + DecodeMessage(a.p.payload).value.bodyLen]
  {
    hide DecodeMessage;
    DecodedBounds(a.p.payload);
  }

  /** A refusal, or a cancel, leaves nothing gathered. */
  lemma DroppedMet(cfg: Config, s: State, n: State, met: seq<Action>, a: Action, c: u64, from: nat)
    requires AllStarted(cfg, s, met, c, from) && c !in n.assemblies
    requires s.works <= n.works && s.log <= n.log
    requires forall k :: |s.log| <= k < |n.log| ==> !n.log[k].Started?
    ensures Tracks(cfg, n, met + [a], c) && AllStarted(cfg, n, met + [a], c, from)
  {
    hide AllStarted, StartedFrom;
    AllMoreMet(cfg, s, n, met, [a], c, from);
  }

  lemma KeptMet(cfg: Config, s: State, n: State, met: seq<Action>, a: Action, body: seq<byte>, from: nat)
    requires a.Handle? && a.p.pattern.Request? && Taken(cfg, s, a.p) && a.p.more && |body| <= 0x100_0000
    requires Tracks(cfg, s, met, a.p.corr) && AllStarted(cfg, s, met, a.p.corr, from)
    requires body == Before(s, a.p) + PartIn(a) && KeptAs(s, n, a.p, body)
    ensures Tracks(cfg, n, met + [a], a.p.corr) && AllStarted(cfg, n, met + [a], a.p.corr, from)
  {
    hide DecodeMessage, AllStarted, Before, PartIn, Parts, StartedFrom, AsksFor;
    var block, i := NextRequest(cfg, s, met, a);
    AllMoreMet(cfg, s, n, met, [a], a.p.corr, from);
    assert Gathering(cfg, WorkOf(a.p.corr, n.assemblies[a.p.corr]), block, body);
  }

  lemma StartMet(cfg: Config, s: State, n: State, met: seq<Action>, a: Action, body: seq<byte>, from: nat)
    requires a.Handle? && a.p.pattern.Request? && Taken(cfg, s, a.p) && !a.p.more && |body| <= 0x100_0000
    requires Tracks(cfg, s, met, a.p.corr) && AllStarted(cfg, s, met, a.p.corr, from)
    requires body == Before(s, a.p) + PartIn(a) && StartedOn(s, n, a.p, body)
    requires DecodeMessage(a.p.payload).value.deadlineNs == 0 || a.now < DecodeMessage(a.p.payload).value.deadlineNs
    ensures Tracks(cfg, n, met + [a], a.p.corr) && AllStarted(cfg, n, met + [a], a.p.corr, from)
  {
    hide DecodeMessage, AllStarted, Before, PartIn, Parts, AsksFor;
    var block, i := NextRequest(cfg, s, met, a);
    var all, e := met + [a], n.log[|s.log|];
    assert all[i..|all|] == block;
    assert WholeRequest(cfg, n.works[e.id], all[i..|all|], body);
    AllMoreMet(cfg, s, n, met, [a], a.p.corr, from);
  }

  lemma StepMet(cfg: Config, s: State, met: seq<Action>, a: Action, c: u64, from: nat)
    requires Enabled(cfg, s, a) && Tracks(cfg, s, met, c) && AllStarted(cfg, s, met, c, from)
    ensures var n := Step(cfg, s, a);
            Tracks(cfg, n, met + MetNow(a, c), c) && AllStarted(cfg, n, met + MetNow(a, c), c, from)
  {
    hide Enabled, Step, Tracks, AllStarted;
    var n := Step(cfg, s, a);
    if MetNow(a, c) == [] {
      Elsewhere(cfg, s, a, c);
      UntouchedKeeps(cfg, s, n, met, c, from);
      assert met + [] == met;
    } else if a.p.pattern.Request? {
      RequestMet(cfg, s, met, a, from);
    } else {
      CancelMeans(cfg, s, a.p, a.now, a.k);
      DroppedMet(cfg, s, n, met, a, c, from);
    }
  }

  lemma {:induction false} RunMet(cfg: Config, s: State, met: seq<Action>, acts: seq<Action>, s': State, c: u64, from: nat)
    requires Runs(cfg, s, acts, s') && Tracks(cfg, s, met, c) && AllStarted(cfg, s, met, c, from)
    ensures AllStarted(cfg, s', met + Met(acts, c), c, from)
    decreases |acts|
  {
    hide Enabled, Step, Tracks, AllStarted, MetNow;
    if acts == [] {
      assert met + [] == met;
    } else {
      var now := MetNow(acts[0], c);
      StepMet(cfg, s, met, acts[0], c, from);
      RunMet(cfg, Step(cfg, s, acts[0]), met + now, acts[1..], s', c, from);
      assert met + now + Met(acts[1..], c) == met + (now + Met(acts[1..], c));
    }
  }

  /** A job started in a run, on a correlation nothing was gathered on before, runs on a whole
      request of that run: packets next to one another on its correlation, each naming the stage
      of the job's kind and the job's own deadline and trace, all but the last with more to follow,
      that last one handled before the deadline, and their parts joined are the body. */
  lemma StartedIsRequested(cfg: Config, s: State, acts: seq<Action>, s': State, i: nat)
    requires Runs(cfg, s, acts, s') && |s.log| <= i < |s'.log| && s'.log[i].Started?
    requires s'.log[i].corr !in s.assemblies
    ensures StartedFrom(cfg, s'.works, Met(acts, s'.log[i].corr), s'.log[i])
  {
    hide Runs, StartedFrom;
    var c := s'.log[i].corr;
    RunMet(cfg, s, [], acts, s', c, |s.log|);
    assert [] + Met(acts, c) == Met(acts, c);
  }

  /** A cancel forgets: whatever was offered before it, a job that starts behind it on its
      correlation runs on a whole request offered behind it. */
  lemma CancelForgets(cfg: Config, s: State, cancel: Action, acts: seq<Action>, s': State, i: nat)
    requires Enabled(cfg, s, cancel) && cancel.Handle? && cancel.p.pattern.Cancel?
    requires Runs(cfg, Step(cfg, s, cancel), acts, s') && |s.log| <= i < |s'.log|
    requires s'.log[i].Started? && s'.log[i].corr == cancel.p.corr
    ensures StartedFrom(cfg, s'.works, Met(acts, cancel.p.corr), s'.log[i])
  {
    hide Enabled, Step, Runs, StartedFrom;
    CancelMeans(cfg, s, cancel.p, cancel.now, cancel.k);
    StartedIsRequested(cfg, Step(cfg, s, cancel), acts, s', i);
  }

  /** What a handler's return becomes: Cancelled if its job was flagged, DeadlineExceeded if its
      deadline has come by the clock of the return, Internal for a status out of range or a body
      above 16 MiB, a refusal without its bytes, and only else the OK reply with its body. */
  lemma AnswerMeans(cfg: Config, s: State, id: nat, response: seq<byte>, status: u16, now: u64)
    requires Enabled(cfg, s, HandlerReturns(id, response, status, now))
    ensures var n := Step(cfg, s, HandlerReturns(id, response, status, now));
            id < |s.works| && id in n.handlers && n.handlers == s.handlers[id := n.handlers[id]] &&
            n == s.(handlers := n.handlers, log := n.log) &&
            n.handlers[id] ==
            if id in s.cancelled then Sending(2, [])
            else if 0 < s.works[id].deadline <= now then Sending(3, [])
            else if status > 5 || |response| > 0x100_0000 then Sending(5, [])
            else if status != 0 then Sending(status, [])
            else Sending(0, response)
  {
  }

  /** Every packet of a job's reply decodes to a result on the job's kind, correlation, stage and
      trace. */
  lemma ReplyReads(cfg: Config, acts: seq<Action>, s: State, e: Entry, i: nat)
    requires Runs(cfg, EMPTY, acts, s) && Addressed(acts) && e in s.log && e.Finished?
    requires i < |Stream(cfg, e.h, e.body)|
    ensures e.id < |s.works| && cfg.budget > 40
    ensures var p, w := Stream(cfg, e.h, e.body)[i], s.works[e.id];
            p.pattern.Reply? && p.kind == w.kind && p.corr == w.corr && DecodeMessage(p.payload).Some? &&
            var m := DecodeMessage(p.payload).value;
            m.operation == 2 && m.status == e.h.status && m.stageId == w.stage && m.traceId == w.trace && m.deadlineNs == 0
  {
    hide Runs, Split, DecodeMessage;
    ReplyNamesItsJob(cfg, acts, s, e);
    OwnRepliesAreSendable(cfg, acts, s, e, 0);
    FinishedFits(cfg, acts, s, e);
    PacketsRead(e.h, e.body, cfg.budget - 40, i);
  }

  lemma FinishedFits(cfg: Config, acts: seq<Action>, s: State, e: Entry)
    requires Runs(cfg, EMPTY, acts, s) && e in s.log && e.Finished?
    ensures |e.body| <= MAX_BODY
  {
    hide Runs, Earned;
    RunEarned(cfg, EMPTY, acts, s);
    EarnedIsNormal(s.log, e.id, e.h.status, e.body);
    hide EarnedInv;
  }
}
