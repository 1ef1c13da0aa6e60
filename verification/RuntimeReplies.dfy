/** The module never trips over its own replies: with a checked configuration and requests
    that came through the frame codec, every reply has a correlation and a valid envelope. */
module RuntimeReplies {
  import opened Words
  import opened Wrappers
  import opened Wire
  import opened Envelope
  import opened Channel
  import opened Fragments
  import opened Runtime
  import opened RuntimeInv

  datatype StageEntry = StageEntry(kind: u32, stage: u32)

  predicate GoodStages(stages: seq<StageEntry>)
  {
    (forall i :: 0 <= i < |stages| ==> stages[i].kind != 0 && stages[i].stage != 0) &&
    (forall i, j :: 0 <= i < j < |stages| ==> stages[i].kind != stages[j].kind)
  }

  /** The map lists exactly these entries. */
  ghost predicate Tabulates(table: map<u32, u32>, stages: seq<StageEntry>)
  {
    (forall i :: 0 <= i < |stages| ==> stages[i].kind in table && table[stages[i].kind] == stages[i].stage) &&
    (forall k :: k in table ==> exists i :: 0 <= i < |stages| && stages[i] == StageEntry(k, table[k]))
  }

  /** The startup check of a module's configuration. */
  method ValidateConfig(socketPath: string, moduleName: string, principalClass: u32, principalRef: u32,
                        stages: seq<StageEntry>) returns (table: Option<map<u32, u32>>)
    ensures table.Some? <==> socketPath != "" && moduleName != "" && principalClass != 0 && principalRef != 0 &&
                             stages != [] && GoodStages(stages)
    ensures table.Some? ==> Tabulates(table.value, stages)
  {
    if socketPath == "" || moduleName == "" || principalClass == 0 || principalRef == 0 || |stages| == 0 {
      return None;
    }
    var found: map<u32, u32> := map[];
    for i := 0 to |stages|
      invariant GoodStages(stages[..i]) && Tabulates(found, stages[..i])
    {
      var e := stages[i];
      if e.kind == 0 || e.stage == 0 || e.kind in found {
        BadEntry(stages, i, found);
        return None;
      }
      MoreStages(found, stages, i);
      found := found[e.kind := e.stage];
    }
    assert stages[..|stages|] == stages;
    table := Some(found);
  }

  lemma BadEntry(stages: seq<StageEntry>, i: nat, found: map<u32, u32>)
    requires i < |stages| && Tabulates(found, stages[..i])
    requires stages[i].kind == 0 || stages[i].stage == 0 || stages[i].kind in found
    ensures !GoodStages(stages)
  {
    if stages[i].kind in found {
      var j :| 0 <= j < i && stages[..i][j] == StageEntry(stages[i].kind, found[stages[i].kind]);
      assert stages[j].kind == stages[i].kind;
    }
  }

  lemma MoreStages(found: map<u32, u32>, stages: seq<StageEntry>, i: nat)
    requires i < |stages| && GoodStages(stages[..i]) && Tabulates(found, stages[..i])
    requires stages[i].kind != 0 && stages[i].stage != 0 && stages[i].kind !in found
    ensures GoodStages(stages[..i + 1]) && Tabulates(found[stages[i].kind := stages[i].stage], stages[..i + 1])
  {
    var longer, table := stages[..i + 1], found[stages[i].kind := stages[i].stage];
    forall j | 0 <= j < |longer| ensures longer[j].kind in table && table[longer[j].kind] == longer[j].stage {
      if j < i { assert stages[..i][j] == longer[j]; }
    }
    forall j, k | 0 <= j < k < |longer| ensures longer[j].kind != longer[k].kind {
      assert stages[..i][j] == longer[j];
      if k < i { assert stages[..i][k] == longer[k]; }
    }
    forall k | k in table ensures exists j :: 0 <= j < |longer| && longer[j] == StageEntry(k, table[k]) {
      if k == stages[i].kind {
        assert longer[i] == StageEntry(k, table[k]);
      } else {
        var j :| 0 <= j < i && stages[..i][j] == StageEntry(k, found[k]);
        assert longer[j] == StageEntry(k, table[k]);
      }
    }
  }

  /** A request that came through the frame codec has a correlation. */
  lemma PolledRequestIsAddressed(e: Event)
    requires Validate(e.frame).None? && IsRequest(PacketOf(e))
    ensures PacketOf(e).corr != 0
  {
    hide Validate, Has;
    var b := Bits8(e.frame);
    ValidateBits(e.frame, b);
  }

  lemma Bits8(f: Frame) returns (b: FlagBits)
    ensures f.hdrFlags == WordOf(b)
  {
    b := BitsOfWord(f.hdrFlags);
  }

  /** A reply that can be sent: `SendFragments` needs no more of it. */
  ghost predicate Replyable(h: Header) { h.pattern.Reply? && h.corr != 0 && ValidHeader(h) }

  ghost predicate Addressed(acts: seq<Action>)
  {
    forall i :: 0 <= i < |acts| ==> (acts[i].Handle? && IsRequest(acts[i].p) ==> acts[i].p.corr != 0)
  }

  ghost predicate RepliesInv(s: State)
  {
    (forall i :: 0 <= i < |s.works| ==> s.works[i].corr != 0 && s.works[i].stage != 0) &&
    (forall e :: e in s.log && (e.Refused? || e.Finished?) ==> Replyable(e.h))
  }

  lemma RefusalReplyable(cfg: Config, assemblies: map<u64, Assembly>, jobs: map<u64, nat>, p: Packet, now: u64)
    requires p.corr != 0
    ensures var v := Decide(cfg, assemblies, jobs, p, now);
            (RefusalHeader(cfg, p, v).Some? ==> Replyable(RefusalHeader(cfg, p, v).value)) &&
            (v.Start? ==> StageOf(cfg, p.kind) != 0)
  {
    hide DecodeMessage, StageOf;
  }

  lemma RequestReplies(cfg: Config, s: State, p: Packet, now: u64, k: nat)
    requires RepliesInv(s) && IsRequest(p) && Enabled(cfg, s, Handle(p, now, k)) && p.corr != 0
    ensures RepliesInv(HandleRequest(cfg, s, p, now, k))
  {
    hide Stream, Decide, RefusalHeader, Whole, DecodeMessage, StageOf, Enabled, Replyable;
    DecidedBody(cfg, s.assemblies, s.jobs, p, now);
    RefusalReplyable(cfg, s.assemblies, s.jobs, p, now);
    if Refuses(Decide(cfg, s.assemblies, s.jobs, p, now)) {
      RefusalShape(cfg, s, p, now, k);
      hide HandleRequest;
    }
  }

  lemma FinishReplies(cfg: Config, s: State, k: nat)
    requires RepliesInv(s) && Enabled(cfg, s, Finish(k))
    ensures RepliesInv(Step(cfg, s, Finish(k)))
  {
    hide Stream, Whole;
  }

  lemma OtherReplies(cfg: Config, s: State, a: Action)
    requires RepliesInv(s) && Enabled(cfg, s, a) && !a.Finish? && !a.Handle?
    ensures RepliesInv(Step(cfg, s, a))
  {
    hide Answer, Late, Replyable;
  }

  lemma PacketReplies(cfg: Config, s: State, p: Packet, now: u64, k: nat)
    requires RepliesInv(s) && Enabled(cfg, s, Handle(p, now, k)) && (IsRequest(p) ==> p.corr != 0)
    ensures RepliesInv(Step(cfg, s, Handle(p, now, k)))
  {
    hide Stream, HandleRequest, Decide, RefusalHeader, Replyable;
    if IsRequest(p) { RequestReplies(cfg, s, p, now, k); }
  }

  lemma StepReplies(cfg: Config, s: State, a: Action)
    requires RepliesInv(s) && Enabled(cfg, s, a) && Addressed([a])
    ensures RepliesInv(Step(cfg, s, a))
  {
    hide RepliesInv, Step, Enabled;
    assert [a][0] == a;
    if a.Handle? {
      PacketReplies(cfg, s, a.p, a.now, a.k);
    } else if a.Finish? {
      FinishReplies(cfg, s, a.k);
    } else {
      OtherReplies(cfg, s, a);
    }
  }

  lemma {:induction false} RunReplies(cfg: Config, s: State, acts: seq<Action>, s': State)
    requires RepliesInv(s) && Runs(cfg, s, acts, s') && Addressed(acts)
    ensures RepliesInv(s')
    decreases |acts|
  {
    hide RepliesInv, Step, Enabled;
    if acts != [] {
      StepReplies(cfg, s, acts[0]);
      RunReplies(cfg, Step(cfg, s, acts[0]), acts[1..], s');
    }
  }

  /** In every run on requests that came through the codec, every reply the loop undertakes
      has a correlation and a valid envelope whatever part of its body it carries. */
  lemma OwnRepliesAreSendable(cfg: Config, acts: seq<Action>, s: State, e: Entry, n: u32)
    requires Runs(cfg, EMPTY, acts, s) && Addressed(acts) && e in s.log && (e.Refused? || e.Finished?)
    requires n <= MAX_BODY
    ensures e.h.corr != 0 && e.h.pattern.Reply? && MessageFor(e.h, n).Valid()
  {
    hide Runs;
    RunReplies(cfg, EMPTY, acts, s);
    FragmentEnvelopeValid(e.h, n);
  }
}
