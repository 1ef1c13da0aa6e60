/** What becomes of a request whose fragments are not all kept. A fragment that finds the table
    full, or passes the limit, is refused, and with it all that was gathered; the next one begins
    a new assembly. So the last fragment can start a job on a tail of the request. */
module RequestTails {
  import opened Words
  import opened Envelope
  import opened Fragments
  import opened Runtime
  import opened RuntimeInv
  import opened CallFidelity

  /** The run handles exactly these packets of the correlation, in order, anything else in
      between; at the last a job slot is free and the deadline has not passed. */
  ghost predicate Offered(cfg: Runtime.Config, s: State, acts: seq<Action>, h: Header, todo: seq<Packet>)
    decreases |acts|
  {
    if acts == [] then todo == []
    else
      var a := acts[0];
      Enabled(cfg, s, a) &&
      if a.Handle? && a.p.corr == h.corr then
        todo != [] && a.p == todo[0] &&
        (a.p.more || (|s.jobs| < MAX_IN_FLIGHT && (h.deadline == 0 || a.now < h.deadline))) &&
        Offered(cfg, Step(cfg, s, a), acts[1..], h, todo[1..])
      else Offered(cfg, Step(cfg, s, a), acts[1..], h, todo)
  }

  /** The first packet of the correlation finds a free slot in the table. */
  ghost predicate FirstFinds(cfg: Runtime.Config, s: State, acts: seq<Action>, corr: u64)
    decreases |acts|
  {
    acts != [] && Enabled(cfg, s, acts[0]) &&
    if acts[0].Handle? && acts[0].p.corr == corr then |s.assemblies| < MAX_IN_FLIGHT
    else FirstFinds(cfg, Step(cfg, s, acts[0]), acts[1..], corr)
  }

  /** Of the bytes offered so far, the assembly holds an end; `lost` says that it is not all. */
  ghost predicate Holds(assemblies: map<u64, Assembly>, h: Header, offered: seq<byte>, lost: bool)
  {
    if h.corr in assemblies then
      var body := assemblies[h.corr].body;
      Continues(assemblies[h.corr], h.kind, MessageFor(h, 0)) && offered != [] &&
      EndOf(body, offered) && (lost <==> |body| < |offered|)
    else lost <==> offered != []
  }

  predicate EndOf(end: seq<byte>, all: seq<byte>)
  {
    |end| <= |all| && end == all[|all| - |end|..]
  }

  lemma EndGrows(end: seq<byte>, all: seq<byte>, part: seq<byte>)
    requires EndOf(end, all)
    ensures EndOf(end + part, all + part)
  {
    var whole, n := all + part, |all| - |end|;
    assert whole[n..] == all[n..] + part;
  }

  function Had(assemblies: map<u64, Assembly>, corr: u64): seq<byte>
  {
    if corr in assemblies then assemblies[corr].body else []
  }

  lemma HadIsEnd(assemblies: map<u64, Assembly>, h: Header, offered: seq<byte>, lost: bool)
    requires Holds(assemblies, h, offered, lost)
    ensures EndOf(Had(assemblies, h.corr), offered) && (lost <==> |Had(assemblies, h.corr)| < |offered|)
  {
  }

  /** A fragment is taken when there is a place for it and it fits. */
  predicate Takes(assemblies: map<u64, Assembly>, corr: u64, n: nat)
  {
    (corr in assemblies || |assemblies| < MAX_IN_FLIGHT) && |Had(assemblies, corr)| + n <= MAX_BODY
  }

  /** One fragment: kept or starting the job with what was gathered, or refused. */
  lemma FragmentVerdict(cfg: Runtime.Config, assemblies: map<u64, Assembly>, jobs: map<u64, nat>, h: Header,
                        offered: seq<byte>, lost: bool, part: seq<byte>, more: bool, now: u64)
    requires Serves(cfg, h) && Holds(assemblies, h, offered, lost) && h.corr !in jobs && |part| <= MAX_BODY
    requires more || (|jobs| < MAX_IN_FLIGHT && (h.deadline == 0 || now < h.deadline))
    ensures var v := Decide(cfg, assemblies, jobs, Fragment(h, part, more), now);
            if Takes(assemblies, h.corr, |part|) then
              (if more then v.Buffer? else v.Start?) && v.a.body == Had(assemblies, h.corr) + part &&
              Continues(v.a, h.kind, MessageFor(h, 0))
            else Refuses(v)
  {
    hide DecodeMessage, EnvelopeBytes, StageOf;
    var p := Fragment(h, part, more);
    FragmentReads(h, part, more);
    assert p.payload[MSG_HDR..MSG_HDR + |part|] == part by {
      assert p.payload[MSG_HDR..] == BodyOf(p);
    }
    assert [] + part == part;
  }

  /** With its correlation unknown and a slot free, the last fragment of any request starts a job
      on itself alone, whatever went before. */
  lemma TailStarts(cfg: Runtime.Config, assemblies: map<u64, Assembly>, jobs: map<u64, nat>, h: Header,
                   tail: seq<byte>, now: u64)
    requires Serves(cfg, h) && h.corr !in assemblies && h.corr !in jobs && |tail| <= MAX_BODY
    requires |assemblies| < MAX_IN_FLIGHT && |jobs| < MAX_IN_FLIGHT && (h.deadline == 0 || now < h.deadline)
    ensures var v := Decide(cfg, assemblies, jobs, Fragment(h, tail, false), now);
            v.Start? && v.a.body == tail
  {
    hide Decide, Fragment;
    FragmentDecided(cfg, assemblies, jobs, h, true, [], tail, false, now);
    assert [] + tail == tail;
  }

  /** And that is how it stands after a refusal for length: the assembly is gone. */
  lemma OverflowDrops(cfg: Runtime.Config, s: State, h: Header, part: seq<byte>, more: bool, now: u64, k: nat)
    requires Serves(cfg, h) && h.corr in s.assemblies && h.corr !in s.jobs && 0 < |part| <= MAX_BODY
    requires Continues(s.assemblies[h.corr], h.kind, MessageFor(h, 0))
    requires |s.assemblies[h.corr].body| + |part| > MAX_BODY
    requires more || (|s.jobs| < MAX_IN_FLIGHT && (h.deadline == 0 || now < h.deadline))
    requires Enabled(cfg, s, Handle(Fragment(h, part, more), now, k))
    ensures h.corr !in Step(cfg, s, Handle(Fragment(h, part, more), now, k)).assemblies
  {
    hide Decide, Enabled, DecodeMessage, EnvelopeBytes, StageOf, Stream, HandleRequest, RefusalHeader;
    var p := Fragment(h, part, more);
    var body := s.assemblies[h.corr].body;
    assert EndOf(body, body);
    FragmentVerdict(cfg, s.assemblies, s.jobs, h, body, false, part, more, now);
    RefusalShape(cfg, s, p, now, k);
  }

  /** A fragment that is taken and not the last lengthens what is held. */
  lemma HoldsMore(assemblies: map<u64, Assembly>, more: map<u64, Assembly>, h: Header, offered: seq<byte>,
                  lost: bool, part: seq<byte>)
    requires Holds(assemblies, h, offered, lost) && part != [] && h.corr in more
    requires more[h.corr].body == Had(assemblies, h.corr) + part && Continues(more[h.corr], h.kind, MessageFor(h, 0))
    ensures Holds(more, h, offered + part, lost)
  {
    HadIsEnd(assemblies, h, offered, lost);
    EndGrows(Had(assemblies, h.corr), offered, part);
  }

  lemma TakeMore(cfg: Runtime.Config, s: State, h: Header, offered: seq<byte>, lost: bool, part: seq<byte>, now: u64, k: nat)
    requires Serves(cfg, h) && Holds(s.assemblies, h, offered, lost) && h.corr !in s.jobs && 0 < |part| <= MAX_BODY
    requires Takes(s.assemblies, h.corr, |part|) && Enabled(cfg, s, Handle(Fragment(h, part, true), now, k))
    ensures var n := Step(cfg, s, Handle(Fragment(h, part, true), now, k));
            Holds(n.assemblies, h, offered + part, lost) && h.corr !in n.jobs &&
            Starts(n.log, h.corr) == Starts(s.log, h.corr)
  {
    hide DecodeMessage, Stream, StageOf, Decide, RefusalHeader, Enabled, Starts, Replies, EnvelopeBytes,
         Holds, Takes, Had, Continues, Whole;
    var p := Fragment(h, part, true);
    FragmentVerdict(cfg, s.assemblies, s.jobs, h, offered, lost, part, true, now);
    var n := HandleRequest(cfg, s, p, now, k);
    HoldsMore(s.assemblies, n.assemblies, h, offered, lost, part);
    HistoryAppend(s.log, n.log[|s.log|], h.corr);
  }

  /** The step of the last fragment, when it is taken. */
  lemma TakeLast(cfg: Runtime.Config, s: State, h: Header, offered: seq<byte>, lost: bool, part: seq<byte>, now: u64, k: nat)
    requires Serves(cfg, h) && Holds(s.assemblies, h, offered, lost) && h.corr !in s.jobs && |part| <= MAX_BODY
    requires |s.jobs| < MAX_IN_FLIGHT && (h.deadline == 0 || now < h.deadline)
    requires Takes(s.assemblies, h.corr, |part|) && Enabled(cfg, s, Handle(Fragment(h, part, false), now, k))
    ensures var n := Step(cfg, s, Handle(Fragment(h, part, false), now, k));
            Starts(n.log, h.corr) ==
            Starts(s.log, h.corr) + [Started(|s.works|, h.corr, Had(s.assemblies, h.corr) + part)]
  {
    hide DecodeMessage, Stream, StageOf, Decide, RefusalHeader, Enabled, Starts, Replies, EnvelopeBytes;
    var p := Fragment(h, part, false);
    FragmentVerdict(cfg, s.assemblies, s.jobs, h, offered, lost, part, false, now);
    var n := HandleRequest(cfg, s, p, now, k);
    HistoryAppend(s.log, n.log[|s.log|], h.corr);
  }

  /** The step of a fragment that is refused: nothing is kept, and nothing starts. */
  lemma Refused(cfg: Runtime.Config, s: State, h: Header, offered: seq<byte>, lost: bool, part: seq<byte>,
                more: bool, now: u64, k: nat)
    requires Serves(cfg, h) && Holds(s.assemblies, h, offered, lost) && h.corr !in s.jobs && |part| <= MAX_BODY
    requires more || (|s.jobs| < MAX_IN_FLIGHT && (h.deadline == 0 || now < h.deadline))
    requires !Takes(s.assemblies, h.corr, |part|) && Enabled(cfg, s, Handle(Fragment(h, part, more), now, k))
    ensures var n := Step(cfg, s, Handle(Fragment(h, part, more), now, k));
            h.corr !in n.assemblies && h.corr !in n.jobs && Starts(n.log, h.corr) == Starts(s.log, h.corr)
  {
    hide DecodeMessage, Stream, StageOf, Decide, RefusalHeader, Enabled, Starts, Replies, EnvelopeBytes, HandleRequest, Whole;
    var p := Fragment(h, part, more);
    FragmentVerdict(cfg, s.assemblies, s.jobs, h, offered, lost, part, more, now);
    RefusalShape(cfg, s, p, now, k);
    var n := HandleRequest(cfg, s, p, now, k);
    HistoryAppend(s.log, n.log[|s.log|], h.corr);
  }

  /** Only packets of the correlation start jobs for it. */
  lemma StartsStay(cfg: Runtime.Config, s: State, a: Action, c: u64)
    requires Enabled(cfg, s, a) && (a.Handle? ==> a.p.corr != c)
    ensures Starts(Step(cfg, s, a).log, c) == Starts(s.log, c)
  {
    hide Stream, HandleRequest, Answer, Normal, Decide, RefusalHeader, Starts, Replies, Whole, Late;
    var s' := Step(cfg, s, a);
    if a.Handle? {
      OtherPacket(cfg, s, a.p, a.now, a.k, c);
    } else if |s'.log| > |s.log| {
      HistoryAppend(s.log, s'.log[|s.log|], c);
    }
  }

  lemma {:induction false} NothingOffered(cfg: Runtime.Config, s: State, acts: seq<Action>, s': State, h: Header)
    requires Runs(cfg, s, acts, s') && Offered(cfg, s, acts, h, [])
    ensures Starts(s'.log, h.corr) == Starts(s.log, h.corr)
    decreases |acts|
  {
    hide Step, Enabled, Starts;
    if acts != [] {
      StartsStay(cfg, s, acts[0], h.corr);
      NothingOffered(cfg, Step(cfg, s, acts[0]), acts[1..], s', h);
    }
  }

  /** What the run added to the jobs of the correlation: none, or one on an end of the bytes. */
  ghost predicate Added(before: seq<Entry>, after: seq<Entry>, all: seq<byte>, whole: bool)
  {
    (after == before && !whole) ||
    (|after| == |before| + 1 && after[..|before|] == before && after[|before|].Started? &&
     EndOf(after[|before|].body, all) && (whole <==> |after[|before|].body| == |all|))
  }

  /** Of what was offered and is still to come, the job gets all exactly when nothing is lost so
      far, the first fragment finds its slot, and the whole fits. */
  lemma {:induction false} Tails(cfg: Runtime.Config, s: State, acts: seq<Action>, s': State, h: Header, chunk: nat,
                                 offered: seq<byte>, lost: bool, rest: seq<byte>)
    requires Inv(s) && Runs(cfg, s, acts, s') && Serves(cfg, h) && 0 < chunk <= MAX_BODY
    requires Holds(s.assemblies, h, offered, lost) && h.corr !in s.jobs
    requires Offered(cfg, s, acts, h, Split(h, rest, chunk))
    ensures Added(Starts(s.log, h.corr), Starts(s'.log, h.corr), offered + rest,
                  !lost && (offered == [] ==> FirstFinds(cfg, s, acts, h.corr)) && |offered + rest| <= MAX_BODY)
    decreases |acts|
  {
    hide Inv, Step, Enabled, Starts, Serves, Holds, Takes, EnvelopeBytes, Added, Concerns;
    var a := acts[0];
    var n := Step(cfg, s, a);
    StepKeepsInv(cfg, s, a);
    if a.Handle? && a.p.corr == h.corr {
      OwnFragment(cfg, s, acts, s', h, chunk, offered, lost, rest);
      if |rest| > chunk {
        var part := rest[..chunk];
        var took := Takes(s.assemblies, h.corr, chunk);
        assert offered + part + rest[chunk..] == offered + rest;
        assert Split(h, rest, chunk)[1..] == Split(h, rest[chunk..], chunk);
        Tails(cfg, n, acts[1..], s', h, chunk, offered + part, lost || !took, rest[chunk..]);
        WholeLater(s.assemblies, h, offered, lost, part, rest, chunk);
      }
    } else {
      if Concerns(s, a, h.corr) {
        OnlyPacketsConcern(s, a, h.corr);
        PacketsConcern(s, a, h.corr);
      }
      OthersLeaveView(cfg, s, a, h.corr);
      SameHolds(s, n, h, offered, lost);
      Tails(cfg, n, acts[1..], s', h, chunk, offered, lost, rest);
    }
  }

  lemma SameHolds(s: State, n: State, h: Header, offered: seq<byte>, lost: bool)
    requires Holds(s.assemblies, h, offered, lost) && h.corr !in s.jobs && ViewOf(n, h.corr) == ViewOf(s, h.corr)
    ensures Holds(n.assemblies, h, offered, lost) && h.corr !in n.jobs
    ensures Starts(n.log, h.corr) == Starts(s.log, h.corr)
  {
    hide Starts, Replies;
  }

  /** The condition for the whole, before a fragment and after it. */
  lemma WholeLater(assemblies: map<u64, Assembly>, h: Header, offered: seq<byte>, lost: bool,
                   part: seq<byte>, rest: seq<byte>, chunk: nat)
    requires Holds(assemblies, h, offered, lost) && 0 < chunk <= MAX_BODY && |rest| > chunk && part == rest[..chunk]
    ensures offered + part != []
    ensures (!lost && (offered == [] ==> |assemblies| < MAX_IN_FLIGHT) && |offered + rest| <= MAX_BODY) <==>
            (!(lost || !Takes(assemblies, h.corr, chunk)) && |offered + rest| <= MAX_BODY)
  {
    HadIsEnd(assemblies, h, offered, lost);
  }

  /** One fragment of the request in a run: the last decides, the others leave the rest to come. */
  lemma OwnFragment(cfg: Runtime.Config, s: State, acts: seq<Action>, s': State, h: Header, chunk: nat,
                    offered: seq<byte>, lost: bool, rest: seq<byte>)
    requires Runs(cfg, s, acts, s') && Serves(cfg, h) && 0 < chunk <= MAX_BODY && acts != []
    requires Holds(s.assemblies, h, offered, lost) && h.corr !in s.jobs
    requires Offered(cfg, s, acts, h, Split(h, rest, chunk)) && acts[0].Handle? && acts[0].p.corr == h.corr
    ensures |rest| > chunk ==>
      var n := Step(cfg, s, acts[0]);
      Holds(n.assemblies, h, offered + rest[..chunk], lost || !Takes(s.assemblies, h.corr, chunk)) &&
      h.corr !in n.jobs && Starts(n.log, h.corr) == Starts(s.log, h.corr)
    ensures |rest| <= chunk ==>
      Added(Starts(s.log, h.corr), Starts(s'.log, h.corr), offered + rest,
            !lost && (offered == [] ==> FirstFinds(cfg, s, acts, h.corr)) && |offered + rest| <= MAX_BODY)
  {
    hide Step, Enabled, Starts, Serves, Takes, EnvelopeBytes, Added, Holds;
    var a := acts[0];
    if |rest| > chunk {
      var part := rest[..chunk];
      assert a.p == Fragment(h, part, true);
      if Takes(s.assemblies, h.corr, |part|) {
        TakeMore(cfg, s, h, offered, lost, part, a.now, a.k);
      } else {
        Refused(cfg, s, h, offered, lost, part, true, a.now, a.k);
        NoneHeld(Step(cfg, s, a).assemblies, h, offered + part);
      }
    } else {
      assert a.p == Fragment(h, rest, false);
      assert Split(h, rest, chunk)[1..] == [];
      NothingOffered(cfg, Step(cfg, s, a), acts[1..], s', h);
      if Takes(s.assemblies, h.corr, |rest|) {
        TakeLast(cfg, s, h, offered, lost, rest, a.now, a.k);
      } else {
        Refused(cfg, s, h, offered, lost, rest, false, a.now, a.k);
      }
      LastAdds(s.assemblies, h, offered, lost, rest, Starts(s.log, h.corr), |s.works|);
    }
  }

  lemma NoneHeld(assemblies: map<u64, Assembly>, h: Header, offered: seq<byte>)
    requires h.corr !in assemblies && offered != []
    ensures Holds(assemblies, h, offered, true)
  {
  }

  /** The last fragment, taken or refused, against the condition for the whole. */
  lemma LastAdds(assemblies: map<u64, Assembly>, h: Header, offered: seq<byte>, lost: bool, rest: seq<byte>,
                 before: seq<Entry>, id: nat)
    requires Holds(assemblies, h, offered, lost) && |rest| <= MAX_BODY
    ensures var whole := !lost && (offered == [] ==> |assemblies| < MAX_IN_FLIGHT) && |offered + rest| <= MAX_BODY;
            if Takes(assemblies, h.corr, |rest|)
            then Added(before, before + [Started(id, h.corr, Had(assemblies, h.corr) + rest)], offered + rest, whole)
            else Added(before, before, offered + rest, whole)
  {
    HadIsEnd(assemblies, h, offered, lost);
    EndGrows(Had(assemblies, h.corr), offered, rest);
  }

  /** The request offered whole, in order, with nothing else on its correlation: a job starts on
      exactly the request if and only if its first fragment found a table slot and it is not
      longer than 16 MiB. If not, a job that starts gets a proper end of it. (A chunk above 16 MiB
      has no valid envelope.) */
  lemma WholeRequestIff(cfg: Runtime.Config, s: State, acts: seq<Action>, s': State, h: Header,
                        request: seq<byte>, chunk: nat)
    requires Inv(s) && Runs(cfg, s, acts, s') && Serves(cfg, h) && 0 < chunk <= MAX_BODY
    requires h.corr !in s.assemblies && h.corr !in s.jobs && Offered(cfg, s, acts, h, Split(h, request, chunk))
    ensures var before, after := Starts(s.log, h.corr), Starts(s'.log, h.corr);
            var fits := FirstFinds(cfg, s, acts, h.corr) && |request| <= MAX_BODY;
            (after == before && !fits) ||
            (|after| == |before| + 1 && after[..|before|] == before && after[|before|].Started? &&
             EndOf(after[|before|].body, request) && (fits <==> after[|before|].body == request))
  {
    hide Inv, Runs, Serves, Starts, Offered, FirstFinds, Split;
    Tails(cfg, s, acts, s', h, chunk, [], false, request);
    assert [] + request == request;
  }
}
