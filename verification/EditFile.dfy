/** The string replacement of the edit tool: a counting pass, an exactly sized buffer, and a
    replacing pass over the same matches. */
module EditFile {
  import opened Words
  import opened Wrappers
  import opened Occurrences

  const SIZE_LIMIT := 8 * 1024 * 1024

  /** A C string: no NUL inside. */
  type CString = s: seq<byte> | 0 !in s

  /** What C sees of a buffer: the bytes before its first NUL. */
  function CStr(raw: seq<byte>): (s: CString)
    ensures s <= raw && (|s| < |raw| ==> raw[|s|] == 0)
  {
    if raw == [] || raw[0] == 0 then [] else [raw[0]] + CStr(raw[1..])
  }

  /** The file as the workspace reports it; the size and the bytes are read at different
      times. No content stands for a failed read. */
  datatype File = File(present: bool, size: int, content: Option<seq<byte>>)

  datatype EditError =
    | MissingPath
    | MissingOld
    | Blocked
    | CannotOpen
    | TooLarge
    | NotFound
    | Ambiguous(count: nat)
    | OutOfMemory

  datatype Request = Request(
    path: Option<CString>, oldText: Option<CString>, newText: Option<CString>, all: bool)

  function NewText(q: Request): CString { if q.newText.None? then [] else q.newText.value }

  /** The text with every match replaced. */
  function Replaced(s: seq<byte>, o: seq<byte>, n: seq<byte>): seq<byte>
    requires |o| > 0
  {
    Join(Pieces(s, o, 0), n)
  }

  predicate Named(text: Option<CString>) { text.Some? && text.value != [] }

  /** The text an edit writes, or why it writes none. */
  function Edited(q: Request, blocked: bool, file: File, memory: bool): Result<seq<byte>, EditError>
  {
    if !Named(q.path) then Err(MissingPath)
    else if !Named(q.oldText) then Err(MissingOld)
    else if blocked then Err(Blocked)
    else if !file.present then Err(CannotOpen)
    else if file.size >= SIZE_LIMIT then Err(TooLarge)
    else if file.content.None? then Err(CannotOpen)
    else
      var s, o := CStr(file.content.value), q.oldText.value;
      var count := |Matches(s, o, 0)|;
      if count == 0 then Err(NotFound)
      else if count > 1 && !q.all then Err(Ambiguous(count))
      else if !memory then Err(OutOfMemory)
      else Ok(Replaced(s, o, NewText(q)))
  }

  /** The counting pass. */
  method CountMatches(s: seq<byte>, o: seq<byte>) returns (count: nat)
    requires |o| > 0
    ensures count == |Matches(s, o, 0)|
  {
    hide At, Find;
    count := 0;
    var p := 0;
    var m := Find(s, o, p);
    while m.Some?
      invariant p <= |s| && m == Find(s, o, p)
      invariant count + |Matches(s, o, p)| == |Matches(s, o, 0)|
      decreases |s| - p
    {
      Found(s, o, p);
      count := count + 1;
      p := m.value + |o|;
      m := Find(s, o, p);
    }
  }

  lemma OneMore(k: nat, n: nat)
    ensures (k + 1) * n == k * n + n
  {
  }

  /** What replacing does to the length: each match trades one length for the other. */
  lemma {:induction false} ReplacedLength(s: seq<byte>, o: seq<byte>, n: seq<byte>, from: nat)
    requires |o| > 0 && from <= |s|
    ensures var k := |Matches(s, o, from)|;
            |Join(Pieces(s, o, from), n)| == |s| - from + k * |n| - k * |o|
    decreases |s| - from
  {
    hide At, Join, Find;
    Found(s, o, from);
    match Find(s, o, from)
    case None => JoinOne(s[from..], n);
    case Some(m) =>
      ReplacedLength(s, o, n, m + |o|);
      JoinCons(s[from..m], Pieces(s, o, m + |o|), n);
      OneMore(|Matches(s, o, m + |o|)|, |n|);
      OneMore(|Matches(s, o, m + |o|)|, |o|);
  }

  /** Arithmetic on `size_t`. */
  function Wrap(x: int): (r: int)
    ensures 0 <= r < TWO64
  {
    x % TWO64
  }

  lemma WrapIs(x: int) returns (q: int)
    ensures Wrap(x) == x - q * TWO64
  {
    q := x / TWO64;
  }

  /** Whatever wraps on the way, the result is the true size when that is representable. */
  lemma SizeIsExact(length: nat, gain: nat, loss: nat)
    requires 0 <= length + gain - loss && length + gain - loss + 1 < TWO64
    ensures Wrap(Wrap(Wrap(length + Wrap(gain)) - Wrap(loss)) + 1) == length + gain - loss + 1
  {
    var a := WrapIs(gain);
    var b := WrapIs(loss);
    var c := WrapIs(length + Wrap(gain));
    var d := WrapIs(Wrap(length + Wrap(gain)) - Wrap(loss));
    var e := WrapIs(Wrap(Wrap(length + Wrap(gain)) - Wrap(loss)) + 1);
    Multiple(length + gain - loss + 1, a, b, c, d, e);
  }

  lemma Multiple(x: nat, a: int, b: int, c: int, d: int, e: int)
    requires x < TWO64 && 0 <= x - a * TWO64 + b * TWO64 - c * TWO64 - d * TWO64 - e * TWO64 < TWO64
    ensures x - a * TWO64 + b * TWO64 - c * TWO64 - d * TWO64 - e * TWO64 == x
  {
  }

  /** Copies bytes behind what is already written. */
  method CopyIn(out: array<byte>, at: nat, data: seq<byte>)
    requires at + |data| <= out.Length
    modifies out
    ensures out[..at + |data|] == old(out[..at]) + data
  {
    ghost var before := out[..at];
    for i := 0 to |data|
      invariant out[..at + i] == before + data[..i]
    {
      out[at + i] := data[i];
    }
    assert data[..|data|] == data;
  }

  /** The replacing pass, into a buffer of the size computed beforehand: it is filled to its
      last byte, and that byte is the terminator. */
  method ReplaceMatches(s: seq<byte>, o: seq<byte>, n: seq<byte>, reps: nat) returns (out: array<byte>)
    requires |o| > 0 && reps == |Matches(s, o, 0)| && |Replaced(s, o, n)| + 1 < TWO64
    ensures out[..] == Replaced(s, o, n) + [0]
  {
    hide At, Find, Join, Wrap, Pieces, Matches;
    ReplacedLength(s, o, n, 0);
    SizeIsExact(|s|, reps * |n|, reps * |o|);
    var size := Wrap(Wrap(Wrap(|s| + Wrap(reps * |n|)) - Wrap(reps * |o|)) + 1);
    out := new byte[size];
    FillMatches(out, s, o, n, reps);
  }

  /** The text still to be written when the scan stands at `src`. */
  ghost predicate Written(done: seq<byte>, s: seq<byte>, o: seq<byte>, n: seq<byte>, src: nat)
    requires |o| > 0
  {
    src <= |s| && done + Join(Pieces(s, o, src), n) == Replaced(s, o, n)
  }

  lemma WrittenStart(s: seq<byte>, o: seq<byte>, n: seq<byte>)
    requires |o| > 0
    ensures Written([], s, o, n, 0)
  {
    hide Join, Pieces;
    assert [] + Join(Pieces(s, o, 0), n) == Join(Pieces(s, o, 0), n);
  }

  /** One match: its prefix and the new string. */
  lemma WrittenMatch(done: seq<byte>, s: seq<byte>, o: seq<byte>, n: seq<byte>, src: nat, m: nat)
    requires |o| > 0 && Written(done, s, o, n, src) && Find(s, o, src) == Some(m)
    ensures src <= m && m + |o| <= |s|
    ensures Written(done + s[src..m] + n, s, o, n, m + |o|)
    ensures |Matches(s, o, src)| == |Matches(s, o, m + |o|)| + 1
    ensures |done| + (m - src) + |n| <= |Replaced(s, o, n)|
  {
    hide At, Join, Find, Replaced;
    Found(s, o, src);
    var rest := Pieces(s, o, m + |o|);
    JoinCons(s[src..m], rest, n);
    var tail := Join(rest, n);
    assert done + (s[src..m] + n + tail) == done + s[src..m] + n + tail;
  }

  lemma WrittenEnd(done: seq<byte>, s: seq<byte>, o: seq<byte>, n: seq<byte>, src: nat)
    requires |o| > 0 && Written(done, s, o, n, src) && |Matches(s, o, src)| == 0
    ensures done + s[src..] == Replaced(s, o, n)
  {
    hide At, Find, Join, Replaced;
    JoinOne(s[src..], n);
  }

  method FillMatches(out: array<byte>, s: seq<byte>, o: seq<byte>, n: seq<byte>, reps: nat)
    requires |o| > 0 && reps == |Matches(s, o, 0)| && out.Length == |Replaced(s, o, n)| + 1
    modifies out
    ensures out[..] == Replaced(s, o, n) + [0]
  {
    hide At, Find, Join, Replaced, Pieces, Written;
    var dst: nat, src: nat, done: nat := 0, 0, 0;
    WrittenStart(s, o, n);
    assert out[..0] == [];
    while done < reps && Find(s, o, src).Some?
      invariant dst <= out.Length && src <= |s|
      invariant Written(out[..dst], s, o, n, src)
      invariant done + |Matches(s, o, src)| == reps
      decreases reps - done
    {
      var m := Find(s, o, src).value;
      WrittenMatch(out[..dst], s, o, n, src, m);
      CopyIn(out, dst, s[src..m]);
      dst := dst + (m - src);
      CopyIn(out, dst, n);
      dst := dst + |n|;
      src := m + |o|;
      done := done + 1;
    }
    WrittenEnd(out[..dst], s, o, n, src);
    CopyIn(out, dst, s[src..]);
    dst := dst + (|s| - src);
    out[dst] := 0;
  }

  /** The output of the edit fits the address space. */
  ghost predicate Addressable(q: Request, file: File)
  {
    Named(q.oldText) && file.content.Some? ==>
      |Replaced(CStr(file.content.value), q.oldText.value, NewText(q))| + 1 < TWO64
  }

  /** The edit names a path and an old string, and the file can be read whole. */
  predicate Readable(q: Request, blocked: bool, file: File)
  {
    Named(q.path) && Named(q.oldText) && !blocked && file.present && file.size < 8388608 && file.content.Some?
  }

  method Edit(q: Request, blocked: bool, file: File, memory: bool) returns (r: Result<seq<byte>, EditError>)
    requires Addressable(q, file)
    ensures r == Edited(q, blocked, file, memory)
    ensures Readable(q, blocked, file) && memory ==> EditIs(q, CStr(file.content.value), r)
    ensures r.Ok? ==> Readable(q, blocked, file) && memory
  {
    hide Replaced, Matches, EditIs;
    if Readable(q, blocked, file) {
      EditMeans(q, file);
    }
    if !Named(q.path) {
      return Err(MissingPath);
    }
    if !Named(q.oldText) {
      return Err(MissingOld);
    }
    if blocked {
      return Err(Blocked);
    }
    if !file.present {
      return Err(CannotOpen);
    }
    if file.size >= SIZE_LIMIT {
      return Err(TooLarge);
    }
    if file.content.None? {
      return Err(CannotOpen);
    }
    var s, o := CStr(file.content.value), q.oldText.value;
    var count := CountMatches(s, o);
    if count == 0 {
      return Err(NotFound);
    }
    if count > 1 && !q.all {
      return Err(Ambiguous(count));
    }
    var reps := if q.all then count else 1;
    if !memory {
      return Err(OutOfMemory);
    }
    var out := ReplaceMatches(s, o, NewText(q), reps);
    r := Ok(out[..out.Length - 1]);
  }

  /** What a successful edit did: it cut the text at the leftmost split by the old string,
      the only such split there is, and joined the pieces with the new one. */
  lemma EditReplacesPieces(q: Request, blocked: bool, file: File, memory: bool, ps: seq<seq<byte>>)
    requires Edited(q, blocked, file, memory).Ok?
    requires Leftmost(ps, q.oldText.value) && Join(ps, q.oldText.value) == CStr(file.content.value)
    ensures Edited(q, blocked, file, memory) == Ok(Join(ps, NewText(q)))
    ensures |ps| >= 2 && (|ps| == 2 || q.all)
  {
    hide Leftmost, Join;
    var s := CStr(file.content.value);
    assert s[0..] == s;
    LeftmostIsUnique(s, q.oldText.value, 0, ps);
  }

  /** What an edit comes to, by the leftmost split of the text at the old string. With one piece
      there is no match; with two there is one, and it is replaced; with more there are several,
      and all are replaced or, without `replace_all`, the edit is refused with their number. */
  ghost predicate EditIs(q: Request, text: seq<byte>, r: Result<seq<byte>, EditError>)
    requires Named(q.oldText)
  {
    var replacement := match q.newText case Some(n) => n case None => [];
    forall ps :: Leftmost(ps, q.oldText.value) && Join(ps, q.oldText.value) == text ==>
      (|ps| == 1 ==> r == Err(NotFound)) &&
      (|ps| == 2 || (|ps| > 2 && q.all) ==> r == Ok(Join(ps, replacement))) &&
      (|ps| > 2 && !q.all ==> r == Err(Ambiguous(|ps| - 1)))
  }

  lemma EditMeans(q: Request, file: File)
    requires Readable(q, false, file)
    ensures EditIs(q, CStr(file.content.value), Edited(q, false, file, true))
  {
    hide Leftmost, Join, Pieces, Matches;
    var s, o := CStr(file.content.value), q.oldText.value;
    forall ps | Leftmost(ps, o) && Join(ps, o) == s ensures ps == Pieces(s, o, 0) && |ps| > 0 {
      assert s[0..] == s;
      LeftmostIsUnique(s, o, 0, ps);
    }
  }

  /** When there is no reading the file, why. */
  lemma UnreadableIs(q: Request, blocked: bool, file: File, memory: bool)
    ensures var r := Edited(q, blocked, file, memory);
            (r == Err(MissingPath) <==> !Named(q.path)) &&
            (r == Err(MissingOld) <==> Named(q.path) && !Named(q.oldText)) &&
            (r == Err(Blocked) <==> Named(q.path) && Named(q.oldText) && blocked) &&
            (r == Err(TooLarge) <==>
               Named(q.path) && Named(q.oldText) && !blocked && file.present && 8388608 <= file.size) &&
            (Readable(q, blocked, file) ==> r != Err(CannotOpen)) &&
            (!Readable(q, blocked, file) ==> r.Err? && r.error !in {NotFound, OutOfMemory} && !r.error.Ambiguous?)
  {
    hide Matches, Replaced;
  }

  /** The split that `EditIs` speaks of exists, and is the only one. */
  lemma SplitExists(q: Request, text: seq<byte>)
    requires Named(q.oldText)
    ensures exists ps :: Leftmost(ps, q.oldText.value) && Join(ps, q.oldText.value) == text
  {
    hide Leftmost, Join, Pieces;
    PiecesExist(text, q.oldText.value);
  }

  lemma PiecesExist(s: seq<byte>, o: seq<byte>)
    requires |o| > 0
    ensures Leftmost(Pieces(s, o, 0), o) && Join(Pieces(s, o, 0), o) == s
  {
    hide Leftmost, Join, Pieces;
    PiecesAreLeftmost(s, o, 0);
    JoinPieces(s, o, 0);
    assert s[0..] == s;
  }

  lemma {:induction false} JoinHasNoNul(ps: seq<seq<byte>>, sep: seq<byte>)
    requires 0 !in sep
    ensures 0 in Join(ps, sep) <==> exists i :: 0 <= i < |ps| && 0 in ps[i]
  {
    if |ps| > 1 {
      JoinHasNoNul(ps[1..], sep);
      if i :| 0 <= i < |ps| && 0 in ps[i] {
        if i > 0 { assert 0 in ps[1..][i - 1]; }
      }
      if 0 in Join(ps[1..], sep) {
        var i :| 0 <= i < |ps[1..]| && 0 in ps[1..][i];
        assert 0 in ps[i + 1];
      }
    } else if |ps| == 1 {
      if 0 in ps[0] { assert 0 in ps[0]; }
    }
  }

  /** The output is the whole file with pieces rejoined exactly when the file holds no NUL:
      everything from the first NUL on is lost, and nothing else ever is. */
  lemma EditKeepsFileIff(raw: seq<byte>, o: CString, n: CString)
    requires o != []
    ensures (exists ps :: Join(ps, o) == raw && Join(ps, n) == Replaced(CStr(raw), o, n)) <==> 0 !in raw
  {
    hide Join, Pieces;
    var s := CStr(raw);
    PiecesExist(s, o);
    JoinHasNoNul(Pieces(s, o, 0), o);
    JoinHasNoNul(Pieces(s, o, 0), n);
    if 0 !in raw {
      assert s == raw;
    } else if ps :| Join(ps, o) == raw && Join(ps, n) == Replaced(s, o, n) {
      JoinHasNoNul(ps, o);
      JoinHasNoNul(ps, n);
      assert false;
    }
  }

  /** Without `replace_all`, and with nothing else in the way, an edit goes ahead exactly when
      the scan counts one match. For an old string without a border that is exactly when it
      occurs once; for any other, `CountMeansUnique` says some text betrays it. */
  lemma PlainEditIff(q: Request, file: File)
    requires Named(q.path) && Named(q.oldText) && file.present && file.size < SIZE_LIMIT && file.content.Some? && !q.all
    ensures var s, o := CStr(file.content.value), q.oldText.value;
            Edited(q, false, file, true).Ok? <==> |Matches(s, o, 0)| == 1
    ensures var s, o := CStr(file.content.value), q.oldText.value;
            !HasBorder(o) ==>
              (Edited(q, false, file, true).Ok? <==> (exists i :: At(s, o, i)) && OnlyOne(s, o))
  {
    var s, o := CStr(file.content.value), q.oldText.value;
    if !HasBorder(o) {
      hide HasBorder, OnlyOne;
      if |Matches(s, o, 0)| == 1 {
        CountOneIsUnique(s, o);
        Found(s, o, 0);
      } else {
        NotOne(s, o);
      }
    }
  }

  lemma NotOne(s: seq<byte>, o: seq<byte>)
    requires |o| > 0 && |Matches(s, o, 0)| != 1
    ensures !((exists i :: At(s, o, i)) && OnlyOne(s, o))
  {
    hide Find;
    Found(s, o, 0);
    var ms := Matches(s, o, 0);
    MatchesAreSeparate(s, o, 0);
    if |ms| > 1 {
      assert At(s, o, ms[0]) && At(s, o, ms[1]) && ms[0] != ms[1];
    } else {
      forall i: int ensures !At(s, o, i) { assert 0 <= i ==> !At(s, o, i); }
    }
  }
}
