/** Fixed-width unsigned words, their wrapping arithmetic, and the little-endian
    byte encoding shared by the ring header, the frame header and the envelope. */
module Words {
  type byte = x: int | 0 <= x < 0x100
  type u16 = x: int | 0 <= x < 0x1_0000
  type u32 = x: int | 0 <= x < 0x1_0000_0000
  type u64 = x: int | 0 <= x < 0x1_0000_0000_0000_0000

  const TWO32: int := 0x1_0000_0000
  const TWO64: int := 0x1_0000_0000_0000_0000

  /** Unsigned 64-bit addition and subtraction, wrapping. */
  function Add64(a: u64, b: u64): u64 { if a + b < TWO64 then a + b else a + b - TWO64 }

  function Sub64(a: u64, b: u64): u64 { if a >= b then a - b else a - b + TWO64 }

  /** Conversion of a length to a 32-bit word, dropping the high bits. */
  function ToU32(n: int): u32 { n % TWO32 }

  /** 256 to the power of a byte count. */
  function Span(width: nat): (n: nat)
    ensures n > 0
  {
    if width == 0 then 1 else 0x100 * Span(width - 1)
  }

  /** The low `width` bytes of `n`, least significant first. */
  function Put(n: nat, width: nat): (s: seq<byte>)
    ensures |s| == width
  {
    if width == 0 then [] else [n % 0x100] + Put(n / 0x100, width - 1)
  }

  /** The number a little-endian byte string stands for. */
  function Get(s: seq<byte>): (n: nat)
  {
    if |s| == 0 then 0 else s[0] + 0x100 * Get(s[1..])
  }

  lemma {:induction false} GetPut(n: nat, width: nat)
    requires n < Span(width)
    ensures Get(Put(n, width)) == n
  {
    if width > 0 {
      assert n / 0x100 < Span(width - 1);
      GetPut(n / 0x100, width - 1);
      assert Put(n, width)[1..] == Put(n / 0x100, width - 1);
    }
  }

  lemma {:induction false} GetBound(s: seq<byte>)
    ensures Get(s) < Span(|s|)
  {
    if |s| > 0 {
      GetBound(s[1..]);
    }
  }

  lemma {:induction false} PutGet(s: seq<byte>)
    ensures Put(Get(s), |s|) == s
  {
    if |s| > 0 {
      var n := Get(s);
      assert n % 0x100 == s[0] && n / 0x100 == Get(s[1..]);
      PutGet(s[1..]);
    }
  }

  lemma Spans()
    ensures Span(2) == 0x1_0000 && Span(4) == TWO32 && Span(8) == TWO64
  {
    assert Span(1) == 0x100;
    assert Span(3) == 0x100 * Span(2);
    assert Span(5) == 0x100 * Span(4);
    assert Span(6) == 0x100 * Span(5);
    assert Span(7) == 0x100 * Span(6);
  }

  /** Little-endian reads at a byte offset. */
  function U16At(b: seq<byte>, off: nat): u16
    requires off + 2 <= |b|
  {
    Spans(); GetBound(b[off..off + 2]); Get(b[off..off + 2])
  }

  function U32At(b: seq<byte>, off: nat): u32
    requires off + 4 <= |b|
  {
    Spans(); GetBound(b[off..off + 4]); Get(b[off..off + 4])
  }

  function U64At(b: seq<byte>, off: nat): u64
    requires off + 8 <= |b|
  {
    Spans(); GetBound(b[off..off + 8]); Get(b[off..off + 8])
  }

  /** The words are little-endian. */
  lemma {:induction false} LittleEndian(b: seq<byte>, off: nat, width: nat, i: nat)
    requires off + width <= |b| && i < width
    ensures Get(b[off..off + width]) / Span(i) % 0x100 == b[off + i]
    decreases i
  {
    var s := b[off..off + width];
    if i == 0 {
      assert Span(0) == 1 && s[0] == b[off];
    } else {
      LittleEndian(b, off + 1, width - 1, i - 1);
      assert s[1..] == b[off + 1..off + width];
      Shifted(s[0], Get(s[1..]), Span(i - 1));
    }
  }

  lemma Shifted(low: byte, high: nat, span: nat)
    requires span > 0
    ensures (low + 0x100 * high) / (0x100 * span) == high / span
  {
    var n, q, r := low + 0x100 * high, high / span, high % span;
    assert high == q * span + r;
    Regroup(q, span);
    assert n == q * (0x100 * span) + (low + 0x100 * r);
    QuotientIs(n, 0x100 * span, q, low + 0x100 * r);
  }

  lemma Regroup(q: nat, span: nat)
    ensures 0x100 * (q * span) == q * (0x100 * span)
  {
  }

  lemma QuotientIs(n: int, m: int, q: int, r: int)
    requires m > 0 && 0 <= r < m && n == q * m + r
    ensures n / m == q
  {
    var d := n / m - q;
    assert m * d == r - n % m;
    assert d >= 1 ==> m * d >= m;
    assert d <= -1 ==> m * d <= -m;
  }

  /** The wrapping sums are those of arithmetic modulo 2^64, and narrowing is modulo 2^32. */
  lemma WrapsModulo(a: u64, b: u64)
    ensures Add64(a, b) == (a + b) % 0x1_0000_0000_0000_0000
    ensures Sub64(a, b) == (a - b) % 0x1_0000_0000_0000_0000
    ensures ToU32(a) == a % 0x1_0000_0000
  {
  }

  /** Re-encoding a word that was read gives its bytes. */
  lemma Bytes16(b: seq<byte>, off: nat)
    requires off + 2 <= |b|
    ensures Put(U16At(b, off), 2) == b[off..off + 2]
  {
    PutGet(b[off..off + 2]);
  }

  lemma Bytes32(b: seq<byte>, off: nat)
    requires off + 4 <= |b|
    ensures Put(U32At(b, off), 4) == b[off..off + 4]
  {
    PutGet(b[off..off + 4]);
  }

  lemma Bytes64(b: seq<byte>, off: nat)
    requires off + 8 <= |b|
    ensures Put(U64At(b, off), 8) == b[off..off + 8]
  {
    PutGet(b[off..off + 8]);
  }

  /** `b` with the bytes from `off` on replaced by `v`. */
  function Splice(b: seq<byte>, off: nat, v: seq<byte>): (r: seq<byte>)
    requires off + |v| <= |b|
    ensures |r| == |b|
    ensures r[off..off + |v|] == v
    ensures forall i :: 0 <= i < |b| && (i < off || off + |v| <= i) ==> r[i] == b[i]
  {
    b[..off] + v + b[off + |v|..]
  }

  lemma SameBytes(u: seq<byte>, v: seq<byte>)
    requires |u| == |v| && forall k :: 0 <= k < |u| ==> u[k] == v[k]
    ensures u == v
  {
  }

  /** Two adjacent replacements are one. */
  lemma SpliceAppend(b: seq<byte>, off: nat, v: seq<byte>, w: seq<byte>)
    requires off + |v| + |w| <= |b|
    ensures Splice(Splice(b, off, v), off + |v|, w) == Splice(b, off, v + w)
  {
    var once, twice := Splice(b, off, v + w), Splice(Splice(b, off, v), off + |v|, w);
    assert forall k :: 0 <= k < |v| + |w| ==> once[off + k] == (v + w)[k];
    forall k | 0 <= k < |b| ensures twice[k] == once[k] {
      if off <= k < off + |v| + |w| {
        assert once[k] == (v + w)[k - off];
        if k < off + |v| {
          assert twice[k] == Splice(b, off, v)[k] == v[k - off];
        } else {
          assert twice[k] == w[k - off - |v|];
        }
      }
    }
    SameBytes(once, twice);
  }

  lemma SpliceThree(b: seq<byte>, off: nat, u: seq<byte>, v: seq<byte>, w: seq<byte>)
    requires off + |u| + |v| + |w| <= |b|
    ensures Splice(Splice(Splice(b, off, u), off + |u|, v), off + |u| + |v|, w) == Splice(b, off, u + v + w)
  {
    SpliceAppend(b, off, u, v);
    SpliceAppend(b, off, u + v, w);
  }

  /** A replacement hides what was underneath. */
  lemma SpliceOver(b: seq<byte>, c: seq<byte>, off: nat, v: seq<byte>)
    requires off + |v| <= |b| == |c|
    requires forall i :: 0 <= i < |b| && (i < off || off + |v| <= i) ==> b[i] == c[i]
    ensures Splice(b, off, v) == Splice(c, off, v)
  {
    var x, y := Splice(b, off, v), Splice(c, off, v);
    forall k | 0 <= k < |b| ensures x[k] == y[k] {
      if off <= k < off + |v| { assert x[k] == v[k - off] == y[k]; }
    }
    SameBytes(x, y);
  }

  /** Strings that equal adjacent slices join to the slice over all of them. */
  lemma Join2(b: seq<byte>, i: nat, j: nat, k: nat, x: seq<byte>, y: seq<byte>)
    requires i <= j <= k <= |b| && x == b[i..j] && y == b[j..k]
    ensures x + y == b[i..k]
  {
    Adjacent(b, i, j, k);
  }

  lemma Join3(b: seq<byte>, i: nat, j: nat, k: nat, l: nat, x: seq<byte>, y: seq<byte>, z: seq<byte>)
    requires i <= j <= k <= l <= |b| && x == b[i..j] && y == b[j..k] && z == b[k..l]
    ensures x + y + z == b[i..l]
  {
    Join2(b, i, j, k, x, y);
    Join2(b, i, k, l, x + y, z);
  }

  /** A slice of a slice. */
  lemma SubSlice(b: seq<byte>, i: nat, j: nat, x: nat, y: nat)
    requires i <= j <= |b| && x <= y <= j - i
    ensures b[i..j][x..y] == b[i + x..i + y]
  {
    var u, v := b[i..j][x..y], b[i + x..i + y];
    assert |u| == |v|;
    assert forall k :: 0 <= k < |u| ==> u[k] == v[k];
  }

  /** Adjacent slices. */
  lemma Adjacent(b: seq<byte>, i: nat, j: nat, k: nat)
    requires i <= j <= k <= |b|
    ensures b[i..k] == b[i..j] + b[j..k]
  {
    var u, v := b[i..k], b[i..j] + b[j..k];
    assert |u| == |v|;
    assert forall n :: 0 <= n < |u| ==> u[n] == v[n];
  }

  /** The two parts of a slice that is a concatenation. */
  lemma Split2(b: seq<byte>, i: nat, x: seq<byte>, y: seq<byte>)
    requires i + |x| + |y| <= |b| && b[i..i + |x| + |y|] == x + y
    ensures b[i..i + |x|] == x && b[i + |x|..i + |x| + |y|] == y
  {
    var m := i + |x| + |y|;
    SubSlice(b, i, m, 0, |x|);
    SubSlice(b, i, m, |x|, |x| + |y|);
    assert (x + y)[0..|x|] == x && (x + y)[|x|..|x| + |y|] == y;
  }

  lemma Split3(b: seq<byte>, i: nat, x: seq<byte>, y: seq<byte>, z: seq<byte>)
    requires i + |x| + |y| + |z| <= |b| && b[i..i + |x| + |y| + |z|] == x + y + z
    ensures b[i..i + |x|] == x && b[i + |x|..i + |x| + |y|] == y
    ensures b[i + |x| + |y|..i + |x| + |y| + |z|] == z
  {
    Split2(b, i, x + y, z);
    Split2(b, i, x, y);
  }

  /** Writes `v` as `width` little-endian bytes at `off`. */
  method Store(b: array<byte>, off: nat, v: nat, width: nat)
    requires off + width <= b.Length
    modifies b
    ensures b[..] == Splice(old(b[..]), off, Put(v, width))
  {
    ghost var whole, before := Put(v, width), b[..];
    var rest, i := v, 0;
    while i < width
      invariant 0 <= i <= width
      invariant whole[i..] == Put(rest, width - i)
      invariant forall j :: 0 <= j < i ==> b[off + j] == whole[j]
      invariant forall j :: 0 <= j < b.Length && (j < off || off + i <= j) ==> b[j] == before[j]
    {
      assert whole[i] == whole[i..][0];
      assert whole[i + 1..] == whole[i..][1..];
      b[off + i] := rest % 0x100;
      rest := rest / 0x100;
      i := i + 1;
    }
    assert b[..] == Splice(before, off, whole);
  }
}

/** Bitwise conjunction of unbounded naturals, as the ring uses it: to test for a
    power of two and to reduce an index. */
module Bits {
  function And(a: nat, b: nat): nat
  {
    if a == 0 || b == 0 then 0
    else (if a % 2 == 1 && b % 2 == 1 then 1 else 0) + 2 * And(a / 2, b / 2)
  }

  /** Bitwise disjunction. */
  function Or(a: nat, b: nat): int { a + b - And(a, b) }

  function Pow2(k: nat): (n: nat)
    ensures n > 0
  {
    if k == 0 then 1 else 2 * Pow2(k - 1)
  }

  ghost predicate IsPow2(n: nat) { exists k: nat :: n == Pow2(k) }

  /** `index & (2^k - 1)` is the remainder by 2^k. */
  lemma {:induction false} AndMask(x: nat, k: nat)
    ensures And(x, Pow2(k) - 1) == x % Pow2(k)
  {
    if k == 0 {
      assert x % Pow2(0) == 0;
    } else {
      hide And;
      AndMask(x / 2, k - 1);
      AndMaskStep(x, Pow2(k - 1));
    }
  }

  lemma AndMaskStep(x: nat, h: nat)
    requires h > 0 && And(x / 2, h - 1) == (x / 2) % h
    ensures And(x, 2 * h - 1) == x % (2 * h)
  {
    hide And;
    AndOdd(x, h - 1);
    DoubleRemainder(x, h);
  }

  lemma AndOdd(x: nat, m: nat)
    ensures And(x, 2 * m + 1) == x % 2 + 2 * And(x / 2, m)
  {
    if x > 0 { assert (2 * m + 1) / 2 == m && (2 * m + 1) % 2 == 1; }
  }

  lemma DoubleRemainder(x: nat, h: nat)
    requires h > 0
    ensures x % (2 * h) == x % 2 + 2 * ((x / 2) % h)
  {
    var q, r := x / 2 / h, x / 2 % h;
    assert x == (2 * h) * q + (2 * r + x % 2);
    RemainderIs(x, 2 * h, q, 2 * r + x % 2);
  }

  lemma RemainderIs(x: int, m: int, q: int, r: int)
    requires m > 0 && x == m * q + r && 0 <= r < m
    ensures x % m == r && x / m == q
  {
    var d := x / m - q;
    assert m * d == r - x % m;
    assert d >= 1 ==> m * d >= m;
    assert d <= -1 ==> m * d <= -m;
  }

  /** The test `n & (n-1) == 0` accepts exactly the powers of two among the positive numbers. */
  lemma {:induction false} Pow2Test(n: nat)
    requires n > 0
    ensures And(n, n - 1) == 0 <==> IsPow2(n)
  {
    if n == 1 {
      assert n == Pow2(0);
    } else if n % 2 == 1 {
      assert And(n, n - 1) == 2 * And(n / 2, n / 2);
      AndSelf(n / 2);
      forall k: nat ensures n != Pow2(k) { if k > 0 { assert Pow2(k) % 2 == 0; } }
    } else {
      var h := n / 2;
      assert (n - 1) / 2 == h - 1;
      assert And(n, n - 1) == 2 * And(h, h - 1);
      Pow2Test(h);
      if IsPow2(h) {
        var k: nat :| h == Pow2(k);
        assert n == Pow2(k + 1);
      }
      if IsPow2(n) {
        var k: nat :| n == Pow2(k);
        assert k > 0 && h == Pow2(k - 1);
      }
    }
  }

  lemma {:induction false} AndSelf(n: nat)
    ensures And(n, n) == n
  {
    if n > 0 { AndSelf(n / 2); }
  }

  /** A smaller power of two divides a larger one. */
  lemma {:induction false} Pow2Divides(j: nat, k: nat)
    requires j <= k
    ensures Pow2(k) % Pow2(j) == 0
  {
    if j < k {
      Pow2Divides(j, k - 1);
      var m := Pow2(j);
      var q := Pow2(k - 1) / m;
      assert Pow2(k) == m * (2 * q) + 0;
      RemainderIs(Pow2(k), m, 2 * q, 0);
    } else {
      RemainderIs(Pow2(k), Pow2(k), 1, 0);
    }
  }

  lemma {:induction false} Pow2Mono(j: nat, k: nat)
    requires j < k
    ensures 2 * Pow2(j) <= Pow2(k)
  {
    if j + 1 < k { Pow2Mono(j, k - 1); }
  }
}
