/** Running a validated chain: the loops of the guarded executors against the recursive
    meaning of lists, and-lists and pipelines. Running a command or a pipeline is an oracle:
    it sees everything run before and answers with a status. */
module ChainRuns {
  import opened Wrappers
  import opened Chains

  datatype Joint = Then | AndThen | PipeTo

  /** A command and the operator before it; the first one has none and counts as `Then`. */
  datatype Item = Item(joint: Joint, command: Command)

  type Pipeline = seq<Command>

  /** What has been run, and the last status. */
  datatype Progress = Progress(trace: seq<Pipeline>, rc: int)

  type Oracle = (seq<Pipeline>, Pipeline) -> int

  const FRESH := Progress([], 0)

  function Run(oracle: Oracle, st: Progress, p: Pipeline): Progress
  {
    Progress(st.trace + [p], oracle(st.trace, p))
  }

  /** A list as the shell grammar has it: and-lists in sequence, pipelines in each. */
  type AndList = seq<Pipeline>

  type List = seq<AndList>

  ghost predicate WellShaped(list: List)
  {
    forall i :: 0 <= i < |list| ==> list[i] != [] && forall j :: 0 <= j < |list[i]| ==> list[i][j] != []
  }

  /** The meaning of an and-list: a pipeline runs when everything before it left status zero. */
  function MeaningAnd(oracle: Oracle, g: AndList, st: Progress): Progress
  {
    if g == [] then st
    else if |g| == 1 then Run(oracle, st, g[0])
    else
      var before := MeaningAnd(oracle, g[..|g| - 1], st);
      if before.rc != 0 then before else Run(oracle, before, g[|g| - 1])
  }

  /** The meaning of a list: its and-lists one after the other. */
  function Meaning(oracle: Oracle, list: List, st: Progress): Progress
  {
    if list == [] then st
    else MeaningAnd(oracle, list[|list| - 1], Meaning(oracle, list[..|list| - 1], st))
  }

  /** A list written out as commands and operators. */
  function Tail(p: Pipeline): (items: seq<Item>)
    ensures |items| == |p|
  {
    if p == [] then [] else [Item(PipeTo, p[0])] + Tail(p[1..])
  }

  function WrittenPipeline(joint: Joint, p: Pipeline): seq<Item>
  {
    if p == [] then [] else [Item(joint, p[0])] + Tail(p[1..])
  }

  function WrittenAnd(g: AndList): seq<Item>
  {
    if g == [] then []
    else if |g| == 1 then WrittenPipeline(Then, g[0])
    else WrittenAnd(g[..|g| - 1]) + WrittenPipeline(AndThen, g[|g| - 1])
  }

  function Written(list: List): seq<Item>
  {
    if list == [] then [] else Written(list[..|list| - 1]) + WrittenAnd(list[|list| - 1])
  }

  /** How many items go on a pipeline. */
  function TailLength(items: seq<Item>): (n: nat)
    ensures n <= |items|
  {
    if items == [] || !items[0].joint.PipeTo? then 0 else 1 + TailLength(items[1..])
  }

  function Commands(items: seq<Item>): (p: Pipeline)
    ensures |p| == |items|
  {
    if items == [] then [] else [items[0].command] + Commands(items[1..])
  }

  /** The executor's loop: a failed status skips one item behind `&&`; otherwise the item and
      all that are piped to it run together. */
  function Loop(oracle: Oracle, items: seq<Item>, st: Progress): Progress
    decreases |items|
  {
    if items == [] then st
    else if items[0].joint.AndThen? && st.rc != 0 then Loop(oracle, items[1..], st)
    else
      var n := 1 + TailLength(items[1..]);
      Loop(oracle, items[n..], Run(oracle, st, Commands(items[..n])))
  }

  /** What the loop makes of a pipeline behind `&&`: when it is skipped, only its first
      command is, and what that was piped to runs all the same. */
  function ActualNext(oracle: Oracle, st: Progress, p: Pipeline): Progress
  {
    if st.rc == 0 then Run(oracle, st, p)
    else if |p| <= 1 then st
    else Run(oracle, st, p[1..])
  }

  function ActualAnd(oracle: Oracle, g: AndList, st: Progress): Progress
  {
    if g == [] then st
    else if |g| == 1 then Run(oracle, st, g[0])
    else ActualNext(oracle, ActualAnd(oracle, g[..|g| - 1], st), g[|g| - 1])
  }

  function Actual(oracle: Oracle, list: List, st: Progress): Progress
  {
    if list == [] then st
    else ActualAnd(oracle, list[|list| - 1], Actual(oracle, list[..|list| - 1], st))
  }

  predicate Starts(items: seq<Item>) { items == [] || !items[0].joint.PipeTo? }

  /** A pipeline ends where the next begins. */
  lemma {:induction false} TailEnds(a: seq<Item>, b: seq<Item>)
    requires Starts(b)
    ensures TailLength(a + b) == TailLength(a)
  {
    if a == [] {
      assert a + b == b;
    } else {
      assert (a + b)[1..] == a[1..] + b;
      TailEnds(a[1..], b);
    }
  }

  /** The loop over two stretches is the loop over one, then the other. */
  lemma {:induction false} LoopAppends(oracle: Oracle, a: seq<Item>, b: seq<Item>, st: Progress)
    requires Starts(b)
    ensures Loop(oracle, a + b, st) == Loop(oracle, b, Loop(oracle, a, st))
    decreases |a|
  {
    hide TailLength, Commands, Run;
    if a == [] {
      assert a + b == b;
    } else {
      assert (a + b)[1..] == a[1..] + b;
      if a[0].joint.AndThen? && st.rc != 0 {
        LoopAppends(oracle, a[1..], b, st);
      } else {
        TailEnds(a[1..], b);
        var n := 1 + TailLength(a[1..]);
        assert (a + b)[n..] == a[n..] + b && (a + b)[..n] == a[..n];
        LoopAppends(oracle, a[n..], b, Run(oracle, st, Commands(a[..n])));
      }
    }
  }

  lemma {:induction false} TailIsTail(p: Pipeline)
    ensures TailLength(Tail(p)) == |p| && Commands(Tail(p)) == p
    ensures forall i :: 0 <= i < |p| ==> Tail(p)[i] == Item(PipeTo, p[i])
  {
    if p != [] {
      TailIsTail(p[1..]);
      assert Tail(p)[1..] == Tail(p[1..]);
    }
  }

  /** The loop on one written pipeline. */
  lemma LoopPipeline(oracle: Oracle, joint: Joint, p: Pipeline, st: Progress)
    requires p != [] && (joint.AndThen? ==> st.rc == 0)
    ensures Loop(oracle, WrittenPipeline(joint, p), st) == Run(oracle, st, p)
  {
    hide Run, Tail, TailLength;
    var items := WrittenPipeline(joint, p);
    assert items[1..] == Tail(p[1..]);
    TailIsTail(p[1..]);
    assert items[..|p|] == items && items[|p|..] == [];
    assert Commands(items) == p;
  }

  lemma LoopSkipped(oracle: Oracle, p: Pipeline, st: Progress)
    requires p != [] && st.rc != 0
    ensures Loop(oracle, WrittenPipeline(AndThen, p), st) == ActualNext(oracle, st, p)
  {
    hide Run;
    var items := WrittenPipeline(AndThen, p);
    assert items[1..] == Tail(p[1..]);
    if |p| > 1 {
      LoopPipeline(oracle, PipeTo, p[1..], st);
      assert Tail(p[1..]) == WrittenPipeline(PipeTo, p[1..]);
    }
  }

  lemma {:induction false} LoopAnd(oracle: Oracle, g: AndList, st: Progress)
    requires forall j :: 0 <= j < |g| ==> g[j] != []
    ensures Loop(oracle, WrittenAnd(g), st) == ActualAnd(oracle, g, st)
  {
    hide Loop, Run, WrittenPipeline;
    if |g| == 1 {
      LoopPipeline(oracle, Then, g[0], st);
    } else if |g| > 1 {
      var front, last := g[..|g| - 1], g[|g| - 1];
      LoopAnd(oracle, front, st);
      StartsWritten(AndThen, last);
      LoopAppends(oracle, WrittenAnd(front), WrittenPipeline(AndThen, last), st);
      var mid := ActualAnd(oracle, front, st);
      if mid.rc == 0 {
        LoopPipeline(oracle, AndThen, last, mid);
      } else {
        LoopSkipped(oracle, last, mid);
      }
    } else {
      LoopNothing(oracle, st);
    }
  }

  lemma StartsWritten(joint: Joint, p: Pipeline)
    ensures !joint.PipeTo? ==> Starts(WrittenPipeline(joint, p))
  {
  }

  lemma LoopNothing(oracle: Oracle, st: Progress)
    ensures Loop(oracle, [], st) == st
  {
  }

  lemma {:induction false} StartsWrittenAnd(g: AndList)
    requires forall j :: 0 <= j < |g| ==> g[j] != []
    ensures Starts(WrittenAnd(g)) && (g != [] ==> WrittenAnd(g) != [])
  {
    if |g| > 1 { StartsWrittenAnd(g[..|g| - 1]); }
  }

  /** What the loop does with any list, exactly. */
  lemma {:induction false} LoopIsActual(oracle: Oracle, list: List, st: Progress)
    requires WellShaped(list)
    ensures Loop(oracle, Written(list), st) == Actual(oracle, list, st)
  {
    hide Loop, Run, WrittenAnd, ActualAnd;
    if list == [] {
      LoopNothing(oracle, st);
    } else {
      var front, last := list[..|list| - 1], list[|list| - 1];
      LoopIsActual(oracle, front, st);
      StartsWrittenAnd(last);
      LoopAppends(oracle, Written(front), WrittenAnd(last), st);
      LoopAnd(oracle, last, Actual(oracle, front, st));
    }
  }

  /** No `&&` stands directly before a pipeline of several commands. */
  ghost predicate PlainAnd(g: AndList) { forall j :: 1 <= j < |g| ==> |g[j]| <= 1 }

  ghost predicate Plain(list: List) { forall i :: 0 <= i < |list| ==> PlainAnd(list[i]) }

  lemma {:induction false} PlainAgreesAnd(oracle: Oracle, g: AndList, st: Progress)
    requires PlainAnd(g)
    ensures ActualAnd(oracle, g, st) == MeaningAnd(oracle, g, st)
  {
    if |g| > 1 { PlainAgreesAnd(oracle, g[..|g| - 1], st); }
  }

  lemma {:induction false} PlainAgrees(oracle: Oracle, list: List, st: Progress)
    requires Plain(list)
    ensures Actual(oracle, list, st) == Meaning(oracle, list, st)
  {
    hide ActualAnd, MeaningAnd;
    if list != [] {
      PlainAgrees(oracle, list[..|list| - 1], st);
      PlainAgreesAnd(oracle, list[|list| - 1], Meaning(oracle, list[..|list| - 1], st));
    }
  }

  /** The oracle under which every command fails. */
  function AllFail(): Oracle { (_, _) => 1 }

  /** How many pipelines of several commands stand behind `&&`. */
  function Betrayed(g: AndList): (n: nat)
    ensures n == 0 <==> PlainAnd(g)
  {
    if |g| <= 1 then 0
    else Betrayed(g[..|g| - 1]) + (if |g[|g| - 1]| > 1 then 1 else 0)
  }

  /** When everything fails, the meaning of an and-list runs one pipeline; the loop also runs
      the rest of every pipeline whose first command it skipped. */
  lemma {:induction false} FailingAnd(g: AndList, st: Progress)
    requires g != [] && forall j :: 0 <= j < |g| ==> g[j] != []
    ensures MeaningAnd(AllFail(), g, st).rc == 1 && |MeaningAnd(AllFail(), g, st).trace| == |st.trace| + 1
    ensures ActualAnd(AllFail(), g, st).rc == 1
    ensures |ActualAnd(AllFail(), g, st).trace| == |st.trace| + 1 + Betrayed(g)
  {
    if |g| > 1 { FailingAnd(g[..|g| - 1], st); }
  }

  function BetrayedIn(list: List): (n: nat)
    ensures n == 0 <==> Plain(list)
  {
    if list == [] then 0 else BetrayedIn(list[..|list| - 1]) + Betrayed(list[|list| - 1])
  }

  lemma {:induction false} FailingList(list: List, st: Progress)
    requires WellShaped(list)
    ensures |Meaning(AllFail(), list, st).trace| == |st.trace| + |list|
    ensures |Actual(AllFail(), list, st).trace| == |st.trace| + |list| + BetrayedIn(list)
  {
    hide MeaningAnd, ActualAnd, AllFail, Betrayed;
    if list != [] {
      var front, last := list[..|list| - 1], list[|list| - 1];
      FailingList(front, st);
      FailingAnd(last, Meaning(AllFail(), front, st));
      FailingAnd(last, Actual(AllFail(), front, st));
    }
  }

  /** The loop agrees with the meaning of the list whatever the commands do, exactly when no
      `&&` stands directly before a pipeline of several commands. */
  lemma LoopAgreesIff(list: List)
    requires WellShaped(list)
    ensures (forall oracle :: Loop(oracle, Written(list), FRESH) == Meaning(oracle, list, FRESH)) <==> Plain(list)
  {
    hide Loop, Meaning, Actual, Written, Plain;
    if Plain(list) {
      forall oracle ensures Loop(oracle, Written(list), FRESH) == Meaning(oracle, list, FRESH) {
        LoopIsActual(oracle, list, FRESH);
        PlainAgrees(oracle, list, FRESH);
      }
    } else {
      LoopIsActual(AllFail(), list, FRESH);
      FailingList(list, FRESH);
      assert Loop(AllFail(), Written(list), FRESH) != Meaning(AllFail(), list, FRESH);
    }
  }

  /** Reading a list back from its items, one item at a time. */
  function Parsed(items: seq<Item>): List
  {
    if items == [] then [] else Added(Parsed(items[..|items| - 1]), items[|items| - 1])
  }

  function Added(list: List, it: Item): List
  {
    var n := |list|;
    if it.joint.Then? || n == 0 || list[n - 1] == [] then list + [[[it.command]]]
    else
      var g := list[n - 1];
      var m := |g|;
      if it.joint.AndThen? then list[..n - 1] + [g + [[it.command]]]
      else list[..n - 1] + [g[..m - 1] + [g[m - 1] + [it.command]]]
  }

  lemma {:induction false} TailLonger(p: Pipeline, c: Command)
    ensures Tail(p + [c]) == Tail(p) + [Item(PipeTo, c)]
  {
    if p == [] {
      assert Tail([c])[1..] == Tail([]);
    } else {
      TailLonger(p[1..], c);
      assert (p + [c])[1..] == p[1..] + [c];
    }
  }

  lemma PipelineLonger(joint: Joint, p: Pipeline, c: Command)
    requires p != []
    ensures WrittenPipeline(joint, p + [c]) == WrittenPipeline(joint, p) + [Item(PipeTo, c)]
  {
    TailLonger(p[1..], c);
    assert (p + [c])[1..] == p[1..] + [c];
  }

  lemma AndMore(g: AndList, p: Pipeline)
    requires g != []
    ensures WrittenAnd(g + [p]) == WrittenAnd(g) + WrittenPipeline(AndThen, p)
  {
    assert (g + [p])[..|g|] == g;
  }

  lemma AndOne(p: Pipeline)
    ensures WrittenAnd([p]) == WrittenPipeline(Then, p)
  {
  }

  lemma AndLonger(front: AndList, last: Pipeline, c: Command)
    requires last != []
    ensures WrittenAnd(front + [last + [c]]) == WrittenAnd(front + [last]) + [Item(PipeTo, c)]
  {
    hide WrittenPipeline, WrittenAnd;
    if front == [] {
      AndOne(last);
      AndOne(last + [c]);
      PipelineLonger(Then, last, c);
      assert front + [last] == [last] && front + [last + [c]] == [last + [c]];
    } else {
      AndMore(front, last);
      AndMore(front, last + [c]);
      PipelineLonger(AndThen, last, c);
      Assoc(WrittenAnd(front), WrittenPipeline(AndThen, last), [Item(PipeTo, c)]);
    }
  }

  lemma Assoc(a: seq<Item>, b: seq<Item>, c: seq<Item>)
    ensures a + (b + c) == a + b + c
  {
  }

  lemma ListMore(list: List, g: AndList)
    ensures Written(list + [g]) == Written(list) + WrittenAnd(g)
  {
    assert (list + [g])[..|list|] == list;
  }

  lemma AddedWrites(list: List, it: Item)
    requires WellShaped(list) && (list == [] ==> it.joint.Then?)
    ensures WellShaped(Added(list, it)) && Added(list, it) != [] && Written(Added(list, it)) == Written(list) + [it]
  {
    hide Written, WrittenAnd, WrittenPipeline;
    if it.joint.Then? {
      ListMore(list, [[it.command]]);
      OneCommand(Then, it.command);
    } else {
      var front, g := list[..|list| - 1], list[|list| - 1];
      assert list == front + [g];
      ListMore(front, g);
      if it.joint.AndThen? {
        AndMore(g, [it.command]);
        OneCommand(AndThen, it.command);
        ListMore(front, g + [[it.command]]);
      } else {
        AndLonger(g[..|g| - 1], g[|g| - 1], it.command);
        assert g == g[..|g| - 1] + [g[|g| - 1]];
        ListMore(front, g[..|g| - 1] + [g[|g| - 1] + [it.command]]);
      }
    }
  }

  lemma OneCommand(joint: Joint, c: Command)
    ensures WrittenPipeline(joint, [c]) == [Item(joint, c)] && WrittenAnd([[c]]) == [Item(Then, c)]
  {
    assert WrittenAnd([[c]]) == WrittenPipeline(Then, [c]);
  }

  lemma WrittenNothing()
    ensures Written([]) == []
  {
  }

  /** Every chain, its first item counting as `Then`, is a written list. */
  lemma {:induction false} EveryChainIsAList(items: seq<Item>)
    requires items != [] ==> items[0].joint.Then?
    ensures WellShaped(Parsed(items)) && Written(Parsed(items)) == items
    ensures items != [] ==> Parsed(items) != []
  {
    hide Added, Written;
    if items == [] {
      WrittenNothing();
    } else {
      var front := items[..|items| - 1];
      EveryChainIsAList(front);
      AddedWrites(Parsed(front), items[|items| - 1]);
      assert items == front + [items[|items| - 1]];
    }
  }

  /** An `&&` with a pipe right behind its command. */
  ghost predicate Exposed(items: seq<Item>)
  {
    exists k :: 0 <= k < |items| - 1 && items[k].joint.AndThen? && items[k + 1].joint.PipeTo?
  }

  /** The last and-list and pipeline read so far, by the last operator. */
  ghost predicate EndsWith(list: List, joint: Joint)
  {
    list != [] && list[|list| - 1] != [] &&
    var g := list[|list| - 1];
    match joint
    case Then => |g| == 1
    case AndThen => |g| > 1 && |g[|g| - 1]| == 1
    case PipeTo => |g[|g| - 1]| > 1
  }

  lemma AddedEnds(list: List, it: Item)
    requires WellShaped(list) && (list == [] ==> it.joint.Then?)
    ensures EndsWith(Added(list, it), it.joint)
    ensures Plain(Added(list, it)) <==>
            Plain(list) && !(it.joint.PipeTo? && |list[|list| - 1]| > 1)
  {
    if !it.joint.Then? {
      var front, g := list[..|list| - 1], list[|list| - 1];
      var m := |g|;
      var g' := if it.joint.AndThen? then g + [[it.command]] else g[..m - 1] + [g[m - 1] + [it.command]];
      assert Added(list, it) == front + [g'] && list == front + [g];
      PlainAppend(front, g);
      PlainAppend(front, g');
      if it.joint.AndThen? {
        assert forall j :: 1 <= j < |g| ==> g'[j] == g[j];
      } else {
        assert |g'[m - 1]| > 1 && forall j :: 1 <= j < m - 1 ==> g'[j] == g[j];
        assert m == 1 ==> PlainAnd(g') && PlainAnd(g);
      }
    } else {
      PlainAppend(list, [[it.command]]);
    }
  }

  lemma PlainAppend(list: List, g: AndList)
    ensures Plain(list + [g]) <==> Plain(list) && PlainAnd(g)
  {
    hide PlainAnd;
    var more := list + [g];
    assert more[|list|] == g && forall i :: 0 <= i < |list| ==> more[i] == list[i];
  }

  /** A chain reads as a plain list exactly when no `&&` has a pipe right behind its command. */
  lemma {:induction false} PlainIff(items: seq<Item>)
    requires items != [] ==> items[0].joint.Then?
    ensures Plain(Parsed(items)) <==> !Exposed(items)
    ensures items != [] ==> EndsWith(Parsed(items), items[|items| - 1].joint)
  {
    hide Added, Plain, EndsWith, WellShaped, Written, Exposed;
    EveryChainIsAList(items);
    if items == [] {
      NothingIsPlain();
    } else {
      var front, it := items[..|items| - 1], items[|items| - 1];
      EveryChainIsAList(front);
      PlainIff(front);
      AddedEnds(Parsed(front), it);
      ExposedLonger(front, it);
      assert items == front + [it];
      if front != [] && it.joint.PipeTo? {
        PipedBehind(Parsed(front), front);
      }
    }
  }

  lemma NothingIsPlain()
    ensures Plain(Parsed([])) && !Exposed([])
  {
  }

  lemma ExposedLonger(front: seq<Item>, it: Item)
    ensures Exposed(front + [it]) <==>
            Exposed(front) || (front != [] && front[|front| - 1].joint.AndThen? && it.joint.PipeTo?)
  {
    var items := front + [it];
    assert forall k :: 0 <= k < |front| ==> items[k] == front[k];
    if front != [] && front[|front| - 1].joint.AndThen? && it.joint.PipeTo? {
      assert items[|front| - 1].joint.AndThen? && items[|front| - 1 + 1].joint.PipeTo?;
    }
    if Exposed(front) {
      var k :| 0 <= k < |front| - 1 && front[k].joint.AndThen? && front[k + 1].joint.PipeTo?;
      assert items[k].joint.AndThen? && items[k + 1].joint.PipeTo?;
    }
  }

  /** A pipe behind a piped command leaves a plain list plain. */
  lemma PipedBehind(list: List, front: seq<Item>)
    requires front != [] && EndsWith(list, front[|front| - 1].joint)
    ensures front[|front| - 1].joint.AndThen? ==> |list[|list| - 1]| > 1
    ensures front[|front| - 1].joint.Then? ==> |list[|list| - 1]| == 1
    ensures front[|front| - 1].joint.PipeTo? && Plain(list) ==> |list[|list| - 1]| == 1
  {
    if front[|front| - 1].joint.PipeTo? && Plain(list) {
      assert PlainAnd(list[|list| - 1]);
    }
  }

  /** The loop on any chain: it has the meaning of the list whatever the commands do, exactly
      when no `&&` has a pipe right behind its command. */
  lemma ChainAgreesIff(items: seq<Item>)
    requires items != [] ==> items[0].joint.Then?
    ensures (forall oracle :: Loop(oracle, items, FRESH) == Meaning(oracle, Parsed(items), FRESH)) <==> !Exposed(items)
  {
    hide Loop, Meaning, Plain, Exposed;
    EveryChainIsAList(items);
    PlainIff(items);
    LoopAgreesIff(Parsed(items));
  }

  /** The operator table entry before a command, as the loops read it. */
  function JointOf(operator: Option<string>): Joint
  {
    match operator
    case None => Then
    case Some(op) => if op == "&&" then AndThen else if op == "|" then PipeTo else Then
  }

  /** The commands a table describes. */
  function Items(tokens: seq<string>, t: Table, n: nat): (items: seq<Item>)
    requires t.Sized() && n <= MAX_COMMANDS
    requires forall k :: 0 <= k < n ==> 0 <= t.starts[k] <= t.starts[k] + t.counts[k] <= |tokens|
    ensures |items| == n
    ensures forall k :: 0 <= k < n ==>
              items[k] == Item(JointOf(t.operators[k]), tokens[t.starts[k]..t.starts[k] + t.counts[k]])
  {
    if n == 0 then []
    else
      var k := n - 1;
      Items(tokens, t, k) + [Item(JointOf(t.operators[k]), tokens[t.starts[k]..t.starts[k] + t.counts[k]])]
  }

  /** Joining and running the commands first..last of a pipeline. */
  lemma {:induction false} TailCounts(items: seq<Item>, i: nat, last: nat)
    requires i <= last < |items| && forall k :: i < k <= last ==> items[k].joint.PipeTo?
    ensures TailLength(items[i + 1..]) == (last - i) + TailLength(items[last + 1..])
    decreases last - i
  {
    if i < last {
      TailCounts(items, i + 1, last);
      assert items[i + 1..][1..] == items[i + 2..];
    }
  }

  /** The read-only executor. */
  method RunReadonly(oracle: Oracle, items: seq<Item>) returns (st: Progress)
    requires items != [] && items[0].joint.Then?
    ensures st == Loop(oracle, items, FRESH)
  {
    hide Run, TailLength, Commands;
    st := FRESH;
    var i := 0;
    assert items[0..] == items;
    while i < |items|
      invariant i <= |items| && Loop(oracle, items[i..], st) == Loop(oracle, items, FRESH)
    {
      if i > 0 && items[i].joint.AndThen? && st.rc != 0 {
        assert items[i..][1..] == items[i + 1..];
        i := i + 1;
        continue;
      }
      var pipeEnd := PipeEnd(items, i);
      assert items[i..][1..] == items[i + 1..];
      assert items[i..][..pipeEnd + 1 - i] == items[i..pipeEnd + 1];
      assert items[i..][pipeEnd + 1 - i..] == items[pipeEnd + 1..];
      st := Run(oracle, st, Commands(items[i..pipeEnd + 1]));
      i := pipeEnd + 1;
    }
  }

  /** The last command piped to from the `i`th. */
  method PipeEnd(items: seq<Item>, i: nat) returns (last: nat)
    requires i < |items|
    ensures i <= last < |items| && last - i == TailLength(items[i + 1..])
  {
    last := i;
    while last + 1 < |items| && items[last + 1].joint.PipeTo?
      invariant i <= last < |items| && forall k :: i < k <= last ==> items[k].joint.PipeTo?
    {
      last := last + 1;
    }
    TailCounts(items, i, last);
  }

  /** The workspace executor, which knows no pipelines. */
  method RunWorkspace(oracle: Oracle, items: seq<Item>) returns (st: Progress)
    requires items != [] && items[0].joint.Then? && forall k :: 0 <= k < |items| ==> !items[k].joint.PipeTo?
    ensures st == Loop(oracle, items, FRESH)
  {
    hide Run;
    st := FRESH;
    assert items[0..] == items;
    for i := 0 to |items|
      invariant Loop(oracle, items[i..], st) == Loop(oracle, items, FRESH)
    {
      assert items[i..][1..] == items[i + 1..];
      if i > 0 && items[i].joint.AndThen? && st.rc != 0 {
        continue;
      }
      assert TailLength(items[i + 1..]) == 0;
      assert items[i..][..1] == [items[i]];
      assert Commands([items[i]]) == [items[i].command];
      st := Run(oracle, st, [items[i].command]);
    }
  }

  /** Without pipes there is nothing to disagree about: the workspace loop has the meaning of
      the list, whatever the commands do. */
  lemma WorkspaceAgrees(oracle: Oracle, items: seq<Item>)
    requires items != [] ==> items[0].joint.Then?
    requires forall k :: 0 <= k < |items| ==> !items[k].joint.PipeTo?
    ensures Loop(oracle, items, FRESH) == Meaning(oracle, Parsed(items), FRESH)
  {
    hide Loop, Meaning, Parsed;
    ChainAgreesIff(items);
  }

  /** The chain that a list of tokens spells, under the rules. */
  function ChainOf(segments: seq<Command>, ops: seq<string>): (items: seq<Item>)
    requires |segments| == |ops| + 1
    ensures |items| == |segments|
    ensures forall k :: 0 <= k < |items| ==>
              items[k] == Item(if k == 0 then Then else JointOf(Some(ops[k - 1])), segments[k])
  {
    seq(|segments|, k requires 0 <= k < |segments| =>
      Item(if k == 0 then Then else JointOf(Some(ops[k - 1])), segments[k]))
  }

  lemma TableIsChain(tokens: seq<string>, t: Table, segments: seq<Command>, ops: seq<string>)
    requires |segments| == |ops| + 1 && Records(t, tokens, |segments|, segments, ops)
    ensures Items(tokens, t, |segments|) == ChainOf(segments, ops)
  {
  }

  /** The operator a joint is spelled with. */
  function Word(joint: Joint): string
  {
    match joint
    case Then => ";"
    case AndThen => "&&"
    case PipeTo => "|"
  }

  /** A chain as the tokens of its command line: the commands with operators between them. */
  function Spelt(items: seq<Item>): seq<string>
  {
    if items == [] then []
    else if |items| == 1 then items[0].command
    else
      var last := items[|items| - 1];
      Spelt(items[..|items| - 1]) + [Word(last.joint)] + last.command
  }

  /** The tokens spell this chain: its commands hold no operator, and it pipes only where the
      rules know pipes. */
  ghost predicate Spells(r: Rules, items: seq<Item>, tokens: seq<string>)
  {
    items != [] && items[0].joint.Then? && tokens == Spelt(items) &&
    (forall i :: 0 <= i < |items| ==> BareWords(r, items[i].command) && (items[i].joint.PipeTo? ==> r.pipes))
  }

  ghost predicate BareWords(r: Rules, c: Command)
  {
    forall i :: 0 <= i < |c| ==> !r.isOperator(c[i]) && c[i] != "&&" && c[i] != ";" && (r.pipes ==> c[i] != "|")
  }

  /** The operators between the commands. */
  function Words(items: seq<Item>): (ops: seq<string>)
    requires items != []
    ensures |ops| == |items| - 1 && forall k :: 0 <= k < |ops| ==> ops[k] == Word(items[k + 1].joint)
  {
    seq(|items| - 1, k requires 0 <= k < |items| - 1 => Word(items[k + 1].joint))
  }

  lemma {:induction false} CommandsAt(items: seq<Item>)
    ensures forall k :: 0 <= k < |items| ==> Commands(items)[k] == items[k].command
  {
    if items != [] { CommandsAt(items[1..]); }
  }

  lemma {:induction false} SpeltFlattens(items: seq<Item>)
    requires items != []
    ensures Spelt(items) == Flatten(Commands(items), Words(items))
    decreases |items|
  {
    hide Word, Commands;
    CommandsAt(items);
    var n := |items| - 1;
    if n == 0 {
      assert Commands(items) == [items[0].command] && Words(items) == [];
    } else {
      var front := items[..n];
      CommandsAt(front);
      SpeltFlattens(front);
      FlattenMore(Commands(front), Words(front), Word(items[n].joint), items[n].command);
      assert Commands(items) == Commands(front) + [items[n].command];
      assert Words(items) == Words(front) + [Word(items[n].joint)];
    }
  }

  lemma WordJoins(r: Rules, joint: Joint)
    requires joint.PipeTo? ==> r.pipes
    ensures r.Joins(Word(joint)) && JointOf(Some(Word(joint))) == joint
  {
  }

  lemma BareIs(r: Rules, c: Command)
    requires BareWords(r, c)
    ensures Bare(r, c)
  {
  }

  /** A chain is recovered from the tokens that spell it. */
  lemma SpeltReads(r: Rules, items: seq<Item>, tokens: seq<string>)
    requires Spells(r, items, tokens)
    ensures Segments(r, tokens) == Commands(items) && |Operators(r, tokens)| == |items| - 1
    ensures ChainOf(Segments(r, tokens), Operators(r, tokens)) == items
  {
    hide Segments, Operators, Flatten, Spelt, Bare, BareWords, Word, Commands, JointOf, Rules.Joins;
    CommandsAt(items);
    SpeltFlattens(items);
    forall i | 0 <= i < |items| ensures Bare(r, items[i].command) && r.Joins(Word(items[i].joint)) {
      BareIs(r, items[i].command);
      WordJoins(r, items[i].joint);
    }
    ReadingIsUnique(r, Commands(items), Words(items));
    forall k | 0 <= k < |items| ensures ChainOf(Commands(items), Words(items))[k] == items[k] {
      WordJoins(r, items[k].joint);
    }
  }

  lemma SpeltMore(front: seq<Item>, it: Item)
    ensures Spelt(front + [it]) == if front == [] then it.command else Spelt(front) + [Word(it.joint)] + it.command
  {
    assert (front + [it])[..|front|] == front;
  }

  /** One command line, token by token. */
  lemma OneLine(a: string, b: string, c: string, d: string, e: string)
    ensures Spelt(Written([[[[a]], [[b, c]]], [[[d], [e]]]])) == [a, "&&", b, c, ";", d, "|", e]
  {
    hide Spelt, Written, WrittenAnd, WrittenPipeline;
    OneList([a], [b, c], [d], [e]);
    var w := [Item(Then, [a]), Item(AndThen, [b, c])];
    SpeltMore([], Item(Then, [a]));
    assert [] + [Item(Then, [a])] == [Item(Then, [a])];
    SpeltMore([Item(Then, [a])], Item(AndThen, [b, c]));
    assert [Item(Then, [a])] + [Item(AndThen, [b, c])] == w && Spelt(w) == [a, "&&", b, c];
    SpeltMore(w, Item(Then, [d]));
    assert Spelt(w + [Item(Then, [d])]) == [a, "&&", b, c, ";", d];
    SpeltMore(w + [Item(Then, [d])], Item(PipeTo, [e]));
  }

  lemma OneList(a: Command, b: Command, c: Command, d: Command)
    ensures Written([[[a], [b]], [[c, d]]]) == [Item(Then, a), Item(AndThen, b)] + [Item(Then, c)] + [Item(PipeTo, d)]
  {
    hide Written, WrittenAnd, WrittenPipeline;
    var first, second: AndList := [[a], [b]], [[c, d]];
    WrittenNothing();
    ListMore([], first);
    ListMore([first], second);
    assert [] + [first] == [first] && [first] + [second] == [first, second];
    AndMore([[a]], [b]);
    assert [[a]] + [[b]] == first;
    OneCommand(Then, a);
    OneCommand(AndThen, b);
    AndOne([c, d]);
    OneCommand(Then, c);
    PipelineLonger(Then, [c], d);
    assert [c] + [d] == [c, d];
  }

  /** What a guarded command line comes to when it spells a list. It is refused exactly when it
      has 64 tokens, an empty command or one the rules do not allow. Otherwise `Actual` says
      what runs, and that is the meaning of the list when no `&&` stands directly before a
      pipeline of several commands. */
  ghost predicate RunsAs(r: Rules, oracle: Oracle, list: List, tokens: seq<string>, result: Option<Progress>)
  {
    (result.Some? <==> |tokens| < 64 && forall i :: 0 <= i < |Written(list)| ==> Good(r, Written(list)[i].command)) &&
    (result.Some? ==> result.value == Actual(oracle, list, FRESH)) &&
    (result.Some? && Plain(list) ==> result.value == Meaning(oracle, list, FRESH))
  }

  ghost predicate Understood(r: Rules, oracle: Oracle, tokens: seq<string>, result: Option<Progress>)
  {
    forall list :: WellShaped(list) && Spells(r, Written(list), tokens) ==> RunsAs(r, oracle, list, tokens, result)
  }

  lemma SpeltAcceptable(r: Rules, items: seq<Item>, tokens: seq<string>)
    requires Spells(r, items, tokens) && |tokens| < 64
    ensures Acceptable(r, tokens) <==> forall i :: 0 <= i < |items| ==> Good(r, items[i].command)
  {
    hide Segments, Operators, Flatten, Spelt, Bare, BareWords, Word, Commands, Rules.Joins, Rules.Blocks, Good;
    SpeltReads(r, items, tokens);
    CommandsAt(items);
    SpeltFlattens(items);
    forall i | 0 <= i < |items| ensures Bare(r, items[i].command) && r.Joins(Word(items[i].joint)) {
      BareIs(r, items[i].command);
      WordJoins(r, items[i].joint);
    }
    LegalTokens(r, Commands(items), Words(items));
    if forall i :: 0 <= i < |items| ==> Good(r, items[i].command) {
      forall i | 0 <= i < |items| ensures Commands(items)[i] != [] { NotEmpty(r, items[i].command); }
      LimitNeverBinds(r, tokens);
    }
  }

  lemma NotEmpty(r: Rules, c: Command)
    ensures Good(r, c) ==> c != []
  {
  }

  lemma GuardedMeans(r: Rules, oracle: Oracle, tokens: seq<string>, result: Option<Progress>)
    requires result.Some? <==> |tokens| < MAX_TOKENS && Acceptable(r, tokens)
    requires result.Some? ==>
      result.value == Loop(oracle, ChainOf(Segments(r, tokens), Operators(r, tokens)), FRESH)
    ensures Understood(r, oracle, tokens, result)
  {
    hide Segments, Operators, Acceptable, Loop, WellShaped, Spells, Written, Good, Plain, Actual, Meaning;
    forall list | WellShaped(list) && Spells(r, Written(list), tokens)
      ensures RunsAs(r, oracle, list, tokens, result)
    {
      if |tokens| < 64 {
        SpeltAcceptable(r, Written(list), tokens);
        SpeltReads(r, Written(list), tokens);
        LoopIsActual(oracle, list, FRESH);
        if Plain(list) { PlainAgrees(oracle, list, FRESH); }
      }
    }
  }

  /** A guarded command, from its tokens to its status: refused, or run as the chain it spells.
      The tables are local, of 32 entries; 64 tokens are already too many. */
  method Guarded(r: Rules, oracle: Oracle, tokens: seq<string>) returns (result: Option<Progress>)
    ensures result.Some? <==> |tokens| < MAX_TOKENS && Acceptable(r, tokens)
    ensures result.Some? ==>
      result.value == Loop(oracle, ChainOf(Segments(r, tokens), Operators(r, tokens)), FRESH)
    ensures Understood(r, oracle, tokens, result)
  {
    hide Segments, Operators, Acceptable, Loop, Understood;
    if |tokens| >= MAX_TOKENS {
      GuardedMeans(r, oracle, tokens, None);
      return None;
    }
    var starts, counts := new int[MAX_COMMANDS], new int[MAX_COMMANDS];
    var operators := new Option<string>[MAX_COMMANDS](_ => None);
    var n := Validate(r, tokens, starts, counts, operators);
    if n == 0 {
      GuardedMeans(r, oracle, tokens, None);
      return None;
    }
    var t := Table(starts[..], counts[..], operators[..]);
    var items := Items(tokens, t, n);
    TableIsChain(tokens, t, Segments(r, tokens), Operators(r, tokens));
    var st;
    if r.pipes {
      st := RunReadonly(oracle, items);
    } else {
      NoPipeJoins(r, tokens);
      st := RunWorkspace(oracle, items);
    }
    result := Some(st);
    GuardedMeans(r, oracle, tokens, result);
  }

  lemma {:induction false} NoPipeJoins(r: Rules, tokens: seq<string>)
    requires !r.pipes
    ensures forall k :: 0 <= k < |Operators(r, tokens)| ==> JointOf(Some(Operators(r, tokens)[k])) != PipeTo
  {
    if tokens != [] { NoPipeJoins(r, tokens[..|tokens| - 1]); }
  }
}
