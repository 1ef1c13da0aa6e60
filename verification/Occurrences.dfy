/** Occurrences of one string in another: the leftmost non-overlapping scan, its optimality,
    and the pieces between its matches. */
module Occurrences {
  import opened Words
  import opened Wrappers

  /** `p` occurs in `s` at index `i`. */
  ghost predicate At(s: seq<byte>, p: seq<byte>, i: int)
  {
    0 <= i && i + |p| <= |s| && s[i..i + |p|] == p
  }

  /** The leftmost occurrence at or after `from`: what `strstr` finds. */
  function Find(s: seq<byte>, p: seq<byte>, from: nat): (r: Option<nat>)
    requires from <= |s|
    ensures r.None? ==> forall i :: from <= i ==> !At(s, p, i)
    ensures r.Some? ==> from <= r.value && At(s, p, r.value) && forall i :: from <= i < r.value ==> !At(s, p, i)
    decreases |s| - from
  {
    if from + |p| > |s| then None
    else if s[from..from + |p|] == p then Some(from)
    else if from == |s| then None
    else Find(s, p, from + 1)
  }

  lemma Found(s: seq<byte>, p: seq<byte>, from: nat)
    requires from <= |s|
    ensures var r := Find(s, p, from);
            (r.None? ==> forall i: int :: from <= i ==> !At(s, p, i)) &&
            (r.Some? ==> from <= r.value && r.value + |p| <= |s| && s[r.value..r.value + |p|] == p &&
                         At(s, p, r.value) && forall i: int :: from <= i < r.value ==> !At(s, p, i))
  {
  }

  /** The matches of the scan that goes on behind each match. */
  function Matches(s: seq<byte>, p: seq<byte>, from: nat): seq<nat>
    requires |p| > 0 && from <= |s|
    decreases |s| - from
  {
    match Find(s, p, from)
    case None => []
    case Some(m) => [m] + Matches(s, p, m + |p|)
  }

  /** Pairwise disjoint occurrences. */
  ghost predicate Separate(s: seq<byte>, p: seq<byte>, from: nat, places: set<nat>)
  {
    (forall i :: i in places ==> from <= i && At(s, p, i)) &&
    (forall i, j :: i in places && j in places && i < j ==> i + |p| <= j)
  }

  /** The scan finds as many as any choice of pairwise disjoint occurrences. */
  lemma {:induction false} GreedyIsMaximum(s: seq<byte>, p: seq<byte>, from: nat, places: set<nat>)
    requires |p| > 0 && from <= |s| && Separate(s, p, from, places)
    ensures |places| <= |Matches(s, p, from)|
    decreases |s| - from
  {
    match Find(s, p, from)
    case None =>
      forall i: nat ensures i !in places {
        assert from <= i ==> !At(s, p, i);
      }
      assert places == {};
    case Some(m) =>
      var later := set i | i in places && m + |p| <= i;
      GreedyIsMaximum(s, p, m + |p|, later);
      OneInWindow(s, p, from, m, places, later);
  }

  /** Of disjoint occurrences, at most one begins before the first match ends. */
  lemma OneInWindow(s: seq<byte>, p: seq<byte>, from: nat, m: nat, places: set<nat>, later: set<nat>)
    requires |p| > 0 && from <= |s| && Separate(s, p, from, places) && Find(s, p, from) == Some(m)
    requires later == set i | i in places && m + |p| <= i
    ensures |places| <= |later| + 1
  {
    hide At;
    Found(s, p, from);
    var early := places - later;
    assert places == later + early;
    if early != {} {
      var x :| x in early;
      forall y | y in early ensures y == x {
        assert At(s, p, y) && At(s, p, x);
        assert m <= y < m + |p| && m <= x < m + |p|;
      }
      assert early == {x};
    }
  }

  /** Disjoint occurrences from left to right. */
  ghost predicate InOrder(s: seq<byte>, p: seq<byte>, from: nat, ms: seq<nat>)
  {
    (forall i :: 0 <= i < |ms| ==> from <= ms[i] && At(s, p, ms[i])) &&
    (forall i, j :: 0 <= i < j < |ms| ==> ms[i] + |p| <= ms[j])
  }

  lemma InOrderCons(s: seq<byte>, p: seq<byte>, from: nat, m: nat, rest: seq<nat>)
    requires from <= m && At(s, p, m) && InOrder(s, p, m + |p|, rest)
    ensures InOrder(s, p, from, [m] + rest)
  {
    hide At;
    var ms := [m] + rest;
    forall i | 0 <= i < |ms| ensures from <= ms[i] && At(s, p, ms[i]) {
      assert ms[i] == if i == 0 then m else rest[i - 1];
    }
    forall i, j | 0 <= i < j < |ms| ensures ms[i] + |p| <= ms[j] {
      assert ms[j] == rest[j - 1] && ms[i] == if i == 0 then m else rest[i - 1];
    }
  }

  /** And its matches are themselves such a choice, so it finds the maximum. */
  lemma {:induction false} MatchesAreSeparate(s: seq<byte>, p: seq<byte>, from: nat)
    requires |p| > 0 && from <= |s|
    ensures InOrder(s, p, from, Matches(s, p, from))
    decreases |s| - from
  {
    hide InOrder, At;
    Found(s, p, from);
    match Find(s, p, from)
    case None => InOrderNil(s, p, from);
    case Some(m) =>
      MatchesAreSeparate(s, p, m + |p|);
      InOrderCons(s, p, from, m, Matches(s, p, m + |p|));
  }

  lemma InOrderNil(s: seq<byte>, p: seq<byte>, from: nat)
    ensures InOrder(s, p, from, [])
  {
  }

  /** The text between the matches. */
  function Pieces(s: seq<byte>, p: seq<byte>, from: nat): (ps: seq<seq<byte>>)
    requires |p| > 0 && from <= |s|
    ensures |ps| == |Matches(s, p, from)| + 1
    decreases |s| - from
  {
    match Find(s, p, from)
    case None => [s[from..]]
    case Some(m) => [s[from..m]] + Pieces(s, p, m + |p|)
  }

  /** Pieces with a separator between each two. */
  function Join(ps: seq<seq<byte>>, sep: seq<byte>): seq<byte>
  {
    if ps == [] then [] else if |ps| == 1 then ps[0] else ps[0] + sep + Join(ps[1..], sep)
  }

  /** The pieces and the string they were cut at give back the text. */
  lemma {:induction false} JoinPieces(s: seq<byte>, p: seq<byte>, from: nat)
    requires |p| > 0 && from <= |s|
    ensures Join(Pieces(s, p, from), p) == s[from..]
    decreases |s| - from
  {
    hide At, Join, Find;
    Found(s, p, from);
    match Find(s, p, from)
    case None => JoinOne(s[from..], p);
    case Some(m) =>
      var rest := Pieces(s, p, m + |p|);
      JoinPieces(s, p, m + |p|);
      JoinCons(s[from..m], rest, p);
      Reassemble(s, from, m, m + |p|);
  }

  lemma JoinOne(piece: seq<byte>, sep: seq<byte>)
    ensures Join([piece], sep) == piece
  {
  }

  lemma JoinCons(piece: seq<byte>, rest: seq<seq<byte>>, sep: seq<byte>)
    requires rest != []
    ensures Join([piece] + rest, sep) == piece + sep + Join(rest, sep)
  {
    assert ([piece] + rest)[1..] == rest;
  }

  lemma Reassemble(s: seq<byte>, a: nat, b: nat, c: nat)
    requires a <= b <= c <= |s|
    ensures s[a..b] + s[b..c] + s[c..] == s[a..]
  {
  }

  ghost predicate Absent(s: seq<byte>, p: seq<byte>) { forall x: int :: !At(s, p, x) }

  /** A leftmost split: the separator first occurs right behind each piece, and not at all
      in the last. */
  ghost predicate Leftmost(ps: seq<seq<byte>>, p: seq<byte>)
  {
    ps != [] &&
    (forall i, x: nat :: 0 <= i < |ps| - 1 && x < |ps[i]| ==> !At(ps[i] + p, p, x)) &&
    Absent(ps[|ps| - 1], p)
  }

  /** Occurrences in a stretch of the text are occurrences of the text. */
  lemma AtInSlice(s: seq<byte>, p: seq<byte>, lo: nat, hi: nat, x: int)
    requires lo <= hi <= |s|
    ensures At(s[lo..hi], p, x) <==> 0 <= x && lo + x + |p| <= hi && At(s, p, lo + x)
  {
    if 0 <= x && lo + x + |p| <= hi {
      SubSlice(s, lo, hi, x, x + |p|);
    }
  }

  lemma LeftmostCons(piece: seq<byte>, rest: seq<seq<byte>>, p: seq<byte>)
    requires Leftmost(rest, p) && forall x: nat :: x < |piece| ==> !At(piece + p, p, x)
    ensures Leftmost([piece] + rest, p)
  {
    hide At, Absent;
    var ps := [piece] + rest;
    assert ps[|ps| - 1] == rest[|rest| - 1];
    forall i, x: nat | 0 <= i < |ps| - 1 && x < |ps[i]| ensures !At(ps[i] + p, p, x) {
      assert ps[i] == if i == 0 then piece else rest[i - 1];
    }
  }

  lemma LeftmostOne(s: seq<byte>, p: seq<byte>, from: nat)
    requires from <= |s| && forall i: int :: from <= i ==> !At(s, p, i)
    ensures Leftmost([s[from..]], p)
  {
    forall x: int ensures !At(s[from..], p, x) { AtInSlice(s, p, from, |s|, x); }
  }

  lemma LeftmostPiece(s: seq<byte>, p: seq<byte>, from: nat, m: nat)
    requires from <= m && At(s, p, m) && forall i: int :: from <= i < m ==> !At(s, p, i)
    ensures forall x: nat :: x < |s[from..m]| ==> !At(s[from..m] + p, p, x)
  {
    var piece := s[from..m];
    assert piece + p == s[from..m + |p|];
    forall x: nat | x < |piece| ensures !At(piece + p, p, x) { AtInSlice(s, p, from, m + |p|, x); }
  }

  lemma {:induction false} PiecesAreLeftmost(s: seq<byte>, p: seq<byte>, from: nat)
    requires |p| > 0 && from <= |s|
    ensures Leftmost(Pieces(s, p, from), p)
    decreases |s| - from
  {
    hide Leftmost, At, Find;
    Found(s, p, from);
    match Find(s, p, from)
    case None => LeftmostOne(s, p, from);
    case Some(m) =>
      PiecesAreLeftmost(s, p, m + |p|);
      LeftmostPiece(s, p, from, m);
      LeftmostCons(s[from..m], Pieces(s, p, m + |p|), p);
  }

  /** There is only one leftmost split of a text. */
  lemma {:induction false} LeftmostIsUnique(s: seq<byte>, p: seq<byte>, from: nat, ps: seq<seq<byte>>)
    requires |p| > 0 && from <= |s| && Leftmost(ps, p) && Join(ps, p) == s[from..]
    ensures ps == Pieces(s, p, from)
    decreases |ps|
  {
    hide At, Find, Join, Leftmost;
    LeftmostIsNotEmpty(ps, p);
    if |ps| == 1 {
      JoinOne(ps[0], p);
      assert ps == [ps[0]];
      LastPiece(s, p, from, ps);
    } else {
      assert ps == [ps[0]] + ps[1..];
      JoinCons(ps[0], ps[1..], p);
      LeftmostHead(ps, p);
      FirstMatch(s, p, from, ps[0], Join(ps[1..], p));
      LeftmostTail(ps, p);
      LeftmostIsUnique(s, p, from + |ps[0]| + |p|, ps[1..]);
    }
  }

  lemma LeftmostIsNotEmpty(ps: seq<seq<byte>>, p: seq<byte>)
    requires Leftmost(ps, p)
    ensures ps != []
  {
  }

  lemma LeftmostHead(ps: seq<seq<byte>>, p: seq<byte>)
    requires Leftmost(ps, p) && |ps| > 1
    ensures forall x: nat :: x < |ps[0]| ==> !At(ps[0] + p, p, x)
  {
    hide At, Absent;
  }

  lemma LastPiece(s: seq<byte>, p: seq<byte>, from: nat, ps: seq<seq<byte>>)
    requires |p| > 0 && from <= |s| && Leftmost(ps, p) && ps == [s[from..]]
    ensures Find(s, p, from) == None
  {
    hide At, Find;
    Found(s, p, from);
    assert ps[|ps| - 1] == s[from..] == s[from..|s|];
    if Find(s, p, from).Some? {
      var m := Find(s, p, from).value;
      AtInSlice(s, p, from, |s|, m - from);
    }
  }

  lemma LeftmostTail(ps: seq<seq<byte>>, p: seq<byte>)
    requires Leftmost(ps, p) && |ps| > 1
    ensures Leftmost(ps[1..], p)
  {
    hide At, Absent;
    var rest := ps[1..];
    assert rest[|rest| - 1] == ps[|ps| - 1];
    forall i, x: nat | 0 <= i < |rest| - 1 && x < |rest[i]| ensures !At(rest[i] + p, p, x) {
      assert rest[i] == ps[i + 1];
    }
  }

  lemma FirstMatch(s: seq<byte>, p: seq<byte>, from: nat, piece: seq<byte>, tail: seq<byte>)
    requires |p| > 0 && from <= |s| && piece + p + tail == s[from..]
    requires forall x: nat :: x < |piece| ==> !At(piece + p, p, x)
    ensures var m := from + |piece|;
            Find(s, p, from) == Some(m) && s[from..m] == piece && m + |p| <= |s| && s[m + |p|..] == tail
  {
    var m, end := from + |piece|, from + |piece| + |p|;
    var whole := s[from..];
    assert whole[..|piece|] == piece && whole[|piece|..|piece| + |p|] == p && whole[|piece| + |p|..] == tail;
    assert s[from..m] == piece && s[m..end] == p && s[end..] == tail;
    assert s[from..end] == piece + p;
    forall i | from <= i < m ensures !At(s, p, i) {
      AtInSlice(s, p, from, end, i - from);
    }
    assert At(s, p, m);
  }

  /** A proper prefix that is also a suffix. */
  ghost predicate HasBorder(p: seq<byte>)
  {
    exists k :: 0 < k < |p| && IsBorder(p, k)
  }

  ghost predicate IsBorder(p: seq<byte>, k: nat)
    requires k <= |p|
  {
    p[..k] == p[|p| - k..]
  }

  ghost predicate OnlyOne(s: seq<byte>, p: seq<byte>)
  {
    forall i, j :: At(s, p, i) && At(s, p, j) ==> i == j
  }

  /** Overlapping occurrences make a border. */
  lemma OverlapIsBorder(s: seq<byte>, p: seq<byte>, i: int, j: int)
    requires At(s, p, i) && At(s, p, j) && i < j < i + |p|
    ensures HasBorder(p)
  {
    var k := i + |p| - j;
    assert p[..k] == s[j..j + |p|][..k] == s[j..i + |p|];
    assert p[|p| - k..] == s[i..i + |p|][|p| - k..] == s[j..i + |p|];
    assert IsBorder(p, k);
  }

  /** Without a border, one match means one occurrence. */
  lemma CountOneIsUnique(s: seq<byte>, p: seq<byte>)
    requires |p| > 0 && !HasBorder(p) && |Matches(s, p, 0)| == 1
    ensures OnlyOne(s, p)
  {
    forall i, j | At(s, p, i) && At(s, p, j) ensures i == j {
      if i < j { TwoAreCounted(s, p, i, j); }
      if j < i { TwoAreCounted(s, p, j, i); }
    }
  }

  lemma TwoAreCounted(s: seq<byte>, p: seq<byte>, i: nat, j: nat)
    requires |p| > 0 && !HasBorder(p) && At(s, p, i) && At(s, p, j) && i < j
    ensures |Matches(s, p, 0)| >= 2
  {
    if j < i + |p| {
      OverlapIsBorder(s, p, i, j);
    } else {
      GreedyIsMaximum(s, p, 0, {i, j});
    }
  }

  /** With a border, there is a text with one match and two occurrences. */
  lemma BorderedTwice(p: seq<byte>, k: nat) returns (s: seq<byte>)
    requires 0 < k < |p| && IsBorder(p, k)
    ensures |Matches(s, p, 0)| == 1 && At(s, p, 0) && At(s, p, |p| - k)
    ensures forall b :: b in s ==> b in p
  {
    s := p + p[k..];
    assert s[..|p|] == p;
    assert s[|p| - k..] == p[|p| - k..] + p[k..] == p[..k] + p[k..] == p;
    assert At(s, p, 0);
    assert Find(s, p, 0) == Some(0);
    assert Find(s, p, |p|) == None;
  }

  /** So a count of one means a unique occurrence, whatever the text, exactly for the
      strings without a border. */
  lemma CountMeansUnique(p: seq<byte>)
    requires |p| > 0
    ensures (forall s :: |Matches(s, p, 0)| == 1 ==> OnlyOne(s, p)) <==> !HasBorder(p)
  {
    if HasBorder(p) {
      var k :| 0 < k < |p| && IsBorder(p, k);
      var s := BorderedTwice(p, k);
      assert !OnlyOne(s, p);
    } else {
      forall s | |Matches(s, p, 0)| == 1 ensures OnlyOne(s, p) { CountOneIsUnique(s, p); }
    }
  }
}
