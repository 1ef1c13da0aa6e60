/** The chain validators of the guarded shell: cutting a token list into commands at the
    allowed operators, and refusing everything else. */
module Chains {
  import opened Wrappers

  type Command = seq<string>

  const MAX_COMMANDS := 32
  const MAX_TOKENS := 64

  /** The rules of one guard: which operators may join commands, which tokens are shell
      operators at all, and which commands are allowed. */
  datatype Rules = Rules(pipes: bool, isOperator: string -> bool, allows: Command -> bool)
  {
    predicate Joins(token: string) { token == "&&" || token == ";" || (pipes && token == "|") }

    predicate Blocks(token: string) { isOperator(token) && !Joins(token) }
  }

  /** The commands between the joining operators, and those operators. */
  function Segments(r: Rules, tokens: seq<string>): (s: seq<Command>)
    ensures |s| > 0
  {
    if tokens == [] then [[]]
    else
      var front, last := Segments(r, tokens[..|tokens| - 1]), tokens[|tokens| - 1];
      if r.Joins(last) then front + [[]]
      else front[..|front| - 1] + [front[|front| - 1] + [last]]
  }

  function Operators(r: Rules, tokens: seq<string>): (ops: seq<string>)
    ensures |ops| == |Segments(r, tokens)| - 1
  {
    if tokens == [] then []
    else
      var front, last := Operators(r, tokens[..|tokens| - 1]), tokens[|tokens| - 1];
      if r.Joins(last) then front + [last] else front
  }

  /** Commands with operators between them. */
  function Flatten(segments: seq<Command>, ops: seq<string>): seq<string>
    requires |segments| == |ops| + 1
  {
    if ops == [] then segments[0]
    else Flatten(segments[..|ops|], ops[..|ops| - 1]) + [ops[|ops| - 1]] + segments[|ops|]
  }

  lemma {:induction false} FlattenSegments(r: Rules, tokens: seq<string>)
    ensures Flatten(Segments(r, tokens), Operators(r, tokens)) == tokens
  {
    hide Flatten, Rules.Joins;
    if tokens == [] {
      FlattenOne([]);
    } else {
      var front, last := tokens[..|tokens| - 1], tokens[|tokens| - 1];
      FlattenSegments(r, front);
      if r.Joins(last) {
        FlattenMore(Segments(r, front), Operators(r, front), last, []);
      } else {
        FlattenLonger(Segments(r, front), Operators(r, front), last);
      }
      assert tokens == front + [last];
    }
  }

  lemma FlattenOne(c: Command)
    ensures Flatten([c], []) == c
  {
  }

  lemma FlattenMore(segments: seq<Command>, ops: seq<string>, op: string, segment: Command)
    requires |segments| == |ops| + 1
    ensures Flatten(segments + [segment], ops + [op]) == Flatten(segments, ops) + [op] + segment
  {
    var s, o := segments + [segment], ops + [op];
    assert s[..|o|] == segments && o[..|o| - 1] == ops;
  }

  lemma FlattenLonger(segments: seq<Command>, ops: seq<string>, token: string)
    requires |segments| == |ops| + 1
    ensures Flatten(segments[..|ops|] + [segments[|ops|] + [token]], ops) == Flatten(segments, ops) + [token]
  {
    var s := segments[..|ops|] + [segments[|ops|] + [token]];
    assert s[..|ops|] == segments[..|ops|];
  }

  ghost predicate Good(r: Rules, c: Command) { c != [] && r.allows(c) }

  /** A list of commands the rules accept, written with operators they accept. */
  ghost predicate Legal(r: Rules, segments: seq<Command>, ops: seq<string>)
  {
    |segments| == |ops| + 1 && |segments| <= MAX_COMMANDS &&
    (forall i :: 0 <= i < |segments| ==> AllowedCommand(r, segments[i])) &&
    (forall i :: 0 <= i < |ops| ==> r.Joins(ops[i]))
  }

  ghost predicate AllowedCommand(r: Rules, c: Command)
  {
    Bare(r, c) && Good(r, c)
  }

  /** No operator of any kind inside a command. */
  ghost predicate Bare(r: Rules, c: seq<string>)
  {
    forall i :: 0 <= i < |c| ==> !r.Joins(c[i]) && !r.isOperator(c[i])
  }

  lemma {:induction false} SegmentsOfBare(r: Rules, front: seq<string>, op: string, c: Command)
    requires r.Joins(op) && Bare(r, c)
    ensures Segments(r, front + [op] + c) == Segments(r, front) + [c]
    ensures Operators(r, front + [op] + c) == Operators(r, front) + [op]
    decreases |c|
  {
    var all := front + [op] + c;
    if c == [] {
      assert all == front + [op] && all[..|all| - 1] == front;
    } else {
      SegmentsOfBare(r, front, op, c[..|c| - 1]);
      assert all[..|all| - 1] == front + [op] + c[..|c| - 1] && all[|all| - 1] == c[|c| - 1];
      assert c == c[..|c| - 1] + [c[|c| - 1]];
    }
  }

  lemma {:induction false} SegmentsOfOne(r: Rules, c: Command)
    requires Bare(r, c)
    ensures Segments(r, c) == [c] && Operators(r, c) == []
  {
    if c != [] {
      SegmentsOfOne(r, c[..|c| - 1]);
      assert c == c[..|c| - 1] + [c[|c| - 1]];
    }
  }

  /** A list of bare commands is recovered from its tokens: there is no other way to read them. */
  lemma {:induction false} ReadingIsUnique(r: Rules, segments: seq<Command>, ops: seq<string>)
    requires |segments| == |ops| + 1
    requires forall i :: 0 <= i < |segments| ==> Bare(r, segments[i])
    requires forall i :: 0 <= i < |ops| ==> r.Joins(ops[i])
    ensures Segments(r, Flatten(segments, ops)) == segments
    ensures Operators(r, Flatten(segments, ops)) == ops
    decreases |ops|
  {
    hide Bare, Segments, Operators, Flatten, Rules.Joins;
    var n := |ops|;
    if n == 0 {
      SegmentsOfOne(r, segments[0]);
      FlattenOne(segments[0]);
      assert segments == [segments[0]] && ops == [];
    } else {
      var s, o, op, c := segments[..n], ops[..n - 1], ops[n - 1], segments[n];
      ReadingIsUnique(r, s, o);
      SegmentsOfBare(r, Flatten(s, o), op, c);
      FlattenMore(s, o, op, c);
      assert segments == s + [c] && ops == o + [op];
    }
  }

  /** What the validators accept. */
  ghost predicate Acceptable(r: Rules, tokens: seq<string>)
  {
    (forall i :: 0 <= i < |tokens| ==> !r.Blocks(tokens[i])) &&
    |Segments(r, tokens)| <= MAX_COMMANDS &&
    (forall i :: 0 <= i < |Segments(r, tokens)| ==> Good(r, Segments(r, tokens)[i]))
  }

  /** No joining operator ends up inside a command. */
  lemma {:induction false} SegmentsAreBare(r: Rules, tokens: seq<string>)
    requires forall i :: 0 <= i < |tokens| ==> !r.Blocks(tokens[i])
    ensures forall i :: 0 <= i < |Segments(r, tokens)| ==> Bare(r, Segments(r, tokens)[i])
    ensures forall i :: 0 <= i < |Operators(r, tokens)| ==> r.Joins(Operators(r, tokens)[i])
  {
    if tokens != [] {
      SegmentsAreBare(r, tokens[..|tokens| - 1]);
    }
  }

  /** The accepted token lists are exactly the legal command lists written out. */
  lemma AcceptableIff(r: Rules, tokens: seq<string>)
    ensures Acceptable(r, tokens) <==>
            exists segments, ops :: Legal(r, segments, ops) && Flatten(segments, ops) == tokens
  {
    FlattenSegments(r, tokens);
    hide Segments, Operators, Flatten;
    if Acceptable(r, tokens) {
      SegmentsAreBare(r, tokens);
      assert Legal(r, Segments(r, tokens), Operators(r, tokens));
    }
    if segments, ops :| Legal(r, segments, ops) && Flatten(segments, ops) == tokens {
      ReadingIsUnique(r, segments, ops);
      LegalTokens(r, segments, ops);
    }
  }

  lemma {:induction false} LegalTokens(r: Rules, segments: seq<Command>, ops: seq<string>)
    requires |segments| == |ops| + 1
    requires forall i :: 0 <= i < |segments| ==> Bare(r, segments[i])
    requires forall i :: 0 <= i < |ops| ==> r.Joins(ops[i])
    ensures forall i :: 0 <= i < |Flatten(segments, ops)| ==> !r.Blocks(Flatten(segments, ops)[i])
    decreases |ops|
  {
    if ops != [] {
      var n := |ops|;
      LegalTokens(r, segments[..n], ops[..n - 1]);
      assert Bare(r, segments[n]);
    }
  }

  /** Reading on never changes the commands already closed. */
  lemma {:induction false} ClosedStay(r: Rules, tokens: seq<string>, i: nat)
    requires i <= |tokens|
    ensures var s, t := Segments(r, tokens[..i]), Segments(r, tokens);
            |s| <= |t| && forall k :: 0 <= k < |s| - 1 ==> s[k] == t[k]
    ensures var s, t := Segments(r, tokens[..i]), Segments(r, tokens);
            i < |tokens| && r.Joins(tokens[i]) ==> |s| < |t| && s[|s| - 1] == t[|s| - 1]
    decreases |tokens|
  {
    if i == |tokens| {
      assert tokens[..i] == tokens;
    } else {
      var front := tokens[..|tokens| - 1];
      assert front[..i] == tokens[..i];
      ClosedStay(r, front, i);
      if i == |front| { assert front[..i] == front; }
    }
  }

  /** With fewer than 64 tokens the limit of 32 commands refuses nothing. */
  lemma {:induction false} LimitNeverBinds(r: Rules, tokens: seq<string>)
    requires |tokens| < MAX_TOKENS && forall i :: 0 <= i < |Segments(r, tokens)| ==> Segments(r, tokens)[i] != []
    ensures |Segments(r, tokens)| <= MAX_COMMANDS
  {
    FlattenSegments(r, tokens);
    hide Segments, Operators;
    TokensNeeded(Segments(r, tokens), Operators(r, tokens));
  }

  lemma {:induction false} TokensNeeded(segments: seq<Command>, ops: seq<string>)
    requires |segments| == |ops| + 1 && forall i :: 0 <= i < |segments| ==> segments[i] != []
    ensures |Flatten(segments, ops)| >= 2 * |segments| - 1
    decreases |ops|
  {
    if ops != [] {
      TokensNeeded(segments[..|ops|], ops[..|ops| - 1]);
    }
  }

  /** The tables the validators fill: where each command starts, how long it is, and the
      operator before it. */
  datatype Table = Table(starts: seq<int>, counts: seq<int>, operators: seq<Option<string>>)
  {
    predicate Sized() { |starts| == |counts| == |operators| == MAX_COMMANDS }
  }

  /** The first `n` commands and the operators so far are those of the text. */
  ghost predicate Records(t: Table, tokens: seq<string>, n: nat, segments: seq<Command>, ops: seq<string>)
  {
    t.Sized() && n <= MAX_COMMANDS && n <= |segments| && |ops| < MAX_COMMANDS &&
    (forall k :: 0 <= k < n ==>
       0 <= t.starts[k] <= t.starts[k] + t.counts[k] <= |tokens| &&
       segments[k] == tokens[t.starts[k]..t.starts[k] + t.counts[k]]) &&
    (forall k :: 1 <= k <= |ops| ==> t.operators[k] == Some(ops[k - 1])) &&
    t.operators[0] == None
  }

  /** The scan stands before token `i`: `n` commands are closed, the next began at `start`. */
  ghost predicate Scanned(r: Rules, tokens: seq<string>, i: nat, n: nat, start: nat, t: Table)
  {
    start <= i <= |tokens| && n < MAX_COMMANDS && |Segments(r, tokens[..i])| == n + 1 &&
    Segments(r, tokens[..i])[n] == tokens[start..i] &&
    (forall k :: 0 <= k < i ==> !r.Blocks(tokens[k])) &&
    (forall k :: 0 <= k < n ==> Good(r, Segments(r, tokens[..i])[k])) &&
    Records(t, tokens, n, Segments(r, tokens[..i]), Operators(r, tokens[..i]))
  }

  lemma ScanStart(r: Rules, tokens: seq<string>, t: Table)
    requires t.Sized() && t.operators[0] == None
    ensures Scanned(r, tokens, 0, 0, 0, t)
  {
    assert tokens[..0] == [];
  }

  lemma PlainToken(r: Rules, tokens: seq<string>, i: nat)
    requires i < |tokens| && !r.Joins(tokens[i])
    ensures var s := Segments(r, tokens[..i]);
            Segments(r, tokens[..i + 1]) == s[..|s| - 1] + [s[|s| - 1] + [tokens[i]]]
    ensures Operators(r, tokens[..i + 1]) == Operators(r, tokens[..i])
  {
    assert tokens[..i + 1][..i] == tokens[..i];
  }

  lemma ScanPlain(r: Rules, tokens: seq<string>, i: nat, n: nat, start: nat, t: Table)
    requires Scanned(r, tokens, i, n, start, t) && i < |tokens| && !r.Joins(tokens[i]) && !r.Blocks(tokens[i])
    ensures Scanned(r, tokens, i + 1, n, start, t)
  {
    hide Rules.Joins, Rules.Blocks, Good, Segments, Operators, Records;
    PlainToken(r, tokens, i);
    assert tokens[start..i + 1] == tokens[start..i] + [tokens[i]];
    SameRecords(t, tokens, n, Segments(r, tokens[..i]), Segments(r, tokens[..i + 1]), Operators(r, tokens[..i]));
  }

  lemma SameRecords(t: Table, tokens: seq<string>, n: nat, segments: seq<Command>, longer: seq<Command>, ops: seq<string>)
    requires Records(t, tokens, n, segments, ops) && n <= |longer| && forall k :: 0 <= k < n ==> longer[k] == segments[k]
    ensures Records(t, tokens, n, longer, ops)
  {
  }

  lemma JoinToken(r: Rules, tokens: seq<string>, i: nat)
    requires i < |tokens| && r.Joins(tokens[i])
    ensures Segments(r, tokens[..i + 1]) == Segments(r, tokens[..i]) + [[]]
    ensures Operators(r, tokens[..i + 1]) == Operators(r, tokens[..i]) + [tokens[i]]
  {
    hide Rules.Joins;
    assert tokens[..i + 1][..i] == tokens[..i];
  }

  lemma MoreRecords(t: Table, t': Table, tokens: seq<string>, n: nat, start: nat, i: nat,
                    segments: seq<Command>, ops: seq<string>, op: string)
    requires Records(t, tokens, n, segments, ops) && n + 1 < MAX_COMMANDS && |segments| == n + 1 && |ops| == n
    requires start <= i <= |tokens| && segments[n] == tokens[start..i]
    requires t' == Table(t.starts[n := start], t.counts[n := i - start], t.operators[n + 1 := Some(op)])
    ensures Records(t', tokens, n + 1, segments + [[]], ops + [op])
  {
  }

  /** An operator closes a good command and opens the next. */
  lemma ScanJoin(r: Rules, tokens: seq<string>, i: nat, n: nat, start: nat, t: Table, t': Table)
    requires Scanned(r, tokens, i, n, start, t) && i < |tokens| && r.Joins(tokens[i])
    requires Good(r, tokens[start..i]) && n + 1 < MAX_COMMANDS
    requires t.Sized()
    requires t' == Table(t.starts[n := start], t.counts[n := i - start], t.operators[n + 1 := Some(tokens[i])])
    ensures Scanned(r, tokens, i + 1, n + 1, i + 1, t')
  {
    hide Rules.Joins, Good, Records, Segments, Operators;
    JoinToken(r, tokens, i);
    MoreRecords(t, t', tokens, n, start, i, Segments(r, tokens[..i]), Operators(r, tokens[..i]), tokens[i]);
    assert tokens[i + 1..i + 1] == [];
  }

  lemma ScanEnd(r: Rules, tokens: seq<string>, n: nat, start: nat, t: Table, t': Table)
    requires Scanned(r, tokens, |tokens|, n, start, t) && Good(r, tokens[start..])
    requires t' == Table(t.starts[n := start], t.counts[n := |tokens| - start], t.operators)
    ensures Acceptable(r, tokens) && |Segments(r, tokens)| == n + 1
    ensures Records(t', tokens, n + 1, Segments(r, tokens), Operators(r, tokens))
  {
    hide Rules.Blocks;
    assert tokens[..|tokens|] == tokens;
  }

  /** A bad command, or one too many, is bad however the text goes on. */
  lemma ScanFails(r: Rules, tokens: seq<string>, i: nat, n: nat, start: nat, t: Table)
    requires Scanned(r, tokens, i, n, start, t) && (i < |tokens| ==> r.Joins(tokens[i]))
    requires !Good(r, tokens[start..i]) || (i < |tokens| && n + 1 >= MAX_COMMANDS)
    ensures !Acceptable(r, tokens)
  {
    hide Rules.Joins, Rules.Blocks;
    ClosedStay(r, tokens, i);
    if i == |tokens| { assert tokens[..i] == tokens; }
  }

  method Validate(r: Rules, tokens: seq<string>, starts: array<int>, counts: array<int>,
                  operators: array<Option<string>>) returns (n: nat)
    requires starts.Length == counts.Length == operators.Length == MAX_COMMANDS && starts != counts
    modifies starts, counts, operators
    ensures n > 0 <==> Acceptable(r, tokens)
    ensures n > 0 ==>
      n == |Segments(r, tokens)| &&
      Records(Table(starts[..], counts[..], operators[..]), tokens, n, Segments(r, tokens), Operators(r, tokens))
  {
    hide Segments, Operators, Acceptable, Scanned, Records, Rules.Joins;
    n := 0;
    var start := 0;
    operators[0] := None;
    ScanStart(r, tokens, Table(starts[..], counts[..], operators[..]));
    var i := 0;
    while true
      invariant 0 <= start <= i <= |tokens| && n < MAX_COMMANDS
      invariant Scanned(r, tokens, i, n, start, Table(starts[..], counts[..], operators[..]))
      decreases |tokens| - i
    {
      ghost var t := Table(starts[..], counts[..], operators[..]);
      var atEnd := i == |tokens|;
      var atAllowed := !atEnd && r.Joins(tokens[i]);
      if !atEnd && r.isOperator(tokens[i]) && !atAllowed {
        BlockedFails(r, tokens, i);
        return 0;
      }
      if !atEnd && !atAllowed {
        ScanPlain(r, tokens, i, n, start, t);
        i := i + 1;
        continue;
      }
      if i == start || !r.allows(tokens[start..i]) {
        ScanFails(r, tokens, i, n, start, t);
        return 0;
      }
      starts[n] := start;
      counts[n] := i - start;
      if atEnd {
        assert tokens[start..] == tokens[start..i];
        ScanEnd(r, tokens, n, start, t, Table(starts[..], counts[..], operators[..]));
        n := n + 1;
        return;
      }
      if n + 1 >= MAX_COMMANDS {
        ScanFails(r, tokens, i, n, start, t);
        return 0;
      }
      operators[n + 1] := Some(tokens[i]);
      ScanJoin(r, tokens, i, n, start, t, Table(starts[..], counts[..], operators[..]));
      n := n + 1;
      i := i + 1;
      start := i;
    }
  }

  lemma BlockedFails(r: Rules, tokens: seq<string>, i: nat)
    requires i < |tokens| && r.Blocks(tokens[i])
    ensures !Acceptable(r, tokens)
  {
    hide Rules.Blocks;
  }
}
