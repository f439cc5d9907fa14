/** Bytes, fixed-size disk blocks and the little-endian words laid over them. */
module Bytes {

  type Byte = b: int | 0 <= b < 256

  const BLOCK_SIZE: nat := 512

  type Block = s: seq<Byte> | |s| == BLOCK_SIZE witness seq(BLOCK_SIZE, _ => 0)

  function Zeros(n: nat): (s: seq<Byte>)
    ensures |s| == n
  {
    seq(n, _ => 0)
  }

  function Pow256(w: nat): (p: nat)
    ensures p > 0
  {
    if w == 0 then 1 else 256 * Pow256(w - 1)
  }

  /** The number a little-endian machine reads from `s`. */
  function LeValue(s: seq<Byte>): nat
  {
    if s == [] then 0 else s[0] + 256 * LeValue(s[1..])
  }

  /** The `w` low-order bytes of `v`, as a little-endian machine stores them. */
  function LeBytes(v: nat, w: nat): (s: seq<Byte>)
    ensures |s| == w
  {
    if w == 0 then [] else [v % 256] + LeBytes(v / 256, w - 1)
  }

  lemma {:induction false} LeRoundTrip(v: nat, w: nat)
    requires v < Pow256(w)
    ensures LeValue(LeBytes(v, w)) == v
  {
    if w != 0 {
      LeRoundTrip(v / 256, w - 1);
      assert LeBytes(v, w)[1..] == LeBytes(v / 256, w - 1);
    }
  }

  lemma {:induction false} LeBound(s: seq<Byte>)
    ensures LeValue(s) < Pow256(|s|)
  {
    if s != [] {
      LeBound(s[1..]);
    }
  }

  lemma {:induction false} LeZeros(n: nat)
    ensures LeValue(Zeros(n)) == 0
  {
    if n != 0 {
      LeZeros(n - 1);
      assert Zeros(n)[1..] == Zeros(n - 1);
    }
  }

  /** Byte `k` of a stored number is its `k`-th digit to base 256. */
  lemma {:induction false} LeBytesAt(v: nat, w: nat, k: nat)
    requires k < w
    ensures LeBytes(v, w)[k] == v / Pow256(k) % 256
  {
    if k > 0 {
      LeBytesAt(v / 256, w - 1, k - 1);
      DivTwice(v, 256, Pow256(k - 1));
    }
  }

  lemma DivTwice(v: nat, a: nat, b: nat)
    requires a > 0 && b > 0
    ensures a * b > 0 && v / a / b == v / (a * b)
  {
    var x, r := v / a, v % a;
    var q, r' := x / b, x % b;
    MulParts(a, b, q, r');
    DivUnique(v, a * b, q, a * r' + r);
  }

  lemma MulParts(a: nat, b: nat, q: nat, r: nat)
    requires a > 0 && b > 0 && r < b
    ensures a * b > 0 && a * (b * q + r) == a * b * q + a * r && a * r + a <= a * b
  {
    assert a * r + a == a * (r + 1);
    MulMono(a, r + 1, b);
    assert a * (b * q + r) == a * (b * q) + a * r;
    assert a * (b * q) == a * b * q;
  }

  lemma MulMono(a: nat, x: nat, y: nat)
    requires x <= y
    ensures a * x <= a * y
  {
  }

  lemma DivUnique(v: nat, n: nat, q: nat, r: nat)
    requires n > 0 && v == n * q + r && r < n
    ensures v / n == q
  {
    var p, s := v / n, v % n;
    assert v == n * p + s;
    NotLess(n, p, s, q, r);
    NotLess(n, q, r, p, s);
  }

  lemma NotLess(n: nat, p: nat, s: nat, q: nat, r: nat)
    requires n * p + s == n * q + r && s < n
    ensures q <= p
  {
    if p < q {
      MulMono(n, p + 1, q);
    }
  }

  /** Number `v` stands at `off`, in `w` bytes, low-order byte first. */
  ghost predicate StoredAt(s: seq<Byte>, off: nat, w: nat, v: nat) {
    off + w <= |s| && forall k :: 0 <= k < w ==> s[off + k] == v / Pow256(k) % 256
  }

  lemma LeStored(a: seq<Byte>, v: nat, w: nat, b: seq<Byte>)
    ensures StoredAt(a + LeBytes(v, w) + b, |a|, w, v)
  {
    var s := a + LeBytes(v, w) + b;
    forall k | 0 <= k < w
      ensures s[|a| + k] == v / Pow256(k) % 256
    {
      LeBytesAt(v, w, k);
      assert s[|a| + k] == LeBytes(v, w)[k];
    }
  }

  lemma StoredBefore(s: seq<Byte>, b: seq<Byte>, off: nat, w: nat, v: nat)
    requires StoredAt(s, off, w, v)
    ensures StoredAt(s + b, off, w, v)
  {
    forall k | 0 <= k < w
      ensures (s + b)[off + k] == v / Pow256(k) % 256
    {
      assert (s + b)[off + k] == s[off + k];
    }
  }

  lemma StoredBehind(a: seq<Byte>, s: seq<Byte>, off: nat, w: nat, v: nat)
    requires StoredAt(s, off, w, v)
    ensures StoredAt(a + s, |a| + off, w, v)
  {
    forall k | 0 <= k < w
      ensures (a + s)[|a| + off + k] == v / Pow256(k) % 256
    {
      assert (a + s)[|a| + off + k] == s[off + k];
    }
  }

  /** Word `i` of a byte array read as an array of `w`-byte words. */
  function GetWord(s: seq<Byte>, w: nat, i: nat): nat
    requires i * w + w <= |s|
  {
    LeValue(s[i * w..i * w + w])
  }

  /** The byte array after storing `v` in word `i`. */
  function PutWord(s: seq<Byte>, w: nat, i: nat, v: nat): (r: seq<Byte>)
    requires i * w + w <= |s|
    ensures |r| == |s|
  {
    s[..i * w] + LeBytes(v, w) + s[i * w + w..]
  }

  lemma WordsDoNotOverlap(w: nat, i: nat, j: nat)
    requires i < j
    ensures i * w + w <= j * w
  {
    assert j * w == i * w + w + (j - i - 1) * w;
  }

  /** A stored word reads back, and every other word keeps its value. */
  lemma GetPut(s: seq<Byte>, w: nat, i: nat, v: nat, j: nat)
    requires i * w + w <= |s| && j * w + w <= |s|
    requires v < Pow256(w)
    ensures GetWord(PutWord(s, w, i, v), w, j) == if j == i then v else GetWord(s, w, j)
  {
    var r := PutWord(s, w, i, v);
    if j == i {
      assert r[i * w..i * w + w] == LeBytes(v, w);
      LeRoundTrip(v, w);
    } else if j < i {
      WordsDoNotOverlap(w, j, i);
      assert r[j * w..j * w + w] == s[j * w..j * w + w];
    } else {
      WordsDoNotOverlap(w, i, j);
      assert r[j * w..j * w + w] == s[j * w..j * w + w];
    }
  }

  lemma GetZero(n: nat, w: nat, i: nat)
    requires i * w + w <= n
    ensures GetWord(Zeros(n), w, i) == 0
  {
    assert Zeros(n)[i * w..i * w + w] == Zeros(w);
    LeZeros(w);
  }

  /** An array of `w`-byte words laid out in memory. */
  function WordBytes(ws: seq<nat>, w: nat): (s: seq<Byte>)
    ensures |s| == |ws| * w
  {
    if ws == [] then [] else LeBytes(ws[0], w) + WordBytes(ws[1..], w)
  }

  lemma SliceOfTail(a: seq<Byte>, b: seq<Byte>, x: nat, y: nat)
    requires x <= y <= |b|
    ensures (a + b)[|a| + x..|a| + y] == b[x..y]
  {
  }

  lemma StepBack(i: nat, w: nat)
    requires i > 0
    ensures i * w >= w && i * w - w == (i - 1) * w
  {
  }

  lemma {:induction false} WordBytesAt(ws: seq<nat>, w: nat, i: nat, off: nat)
    requires i < |ws| && ws[i] < Pow256(w) && off == i * w
    ensures off + w <= |WordBytes(ws, w)|
    ensures LeValue(WordBytes(ws, w)[off..off + w]) == ws[i]
  {
    if i == 0 {
      assert WordBytes(ws, w)[off..off + w] == LeBytes(ws[0], w);
      LeRoundTrip(ws[0], w);
    } else {
      StepBack(i, w);
      WordBytesAt(ws[1..], w, i - 1, off - w);
      SliceOfTail(LeBytes(ws[0], w), WordBytes(ws[1..], w), off - w, off);
    }
  }

  /** Word `i` of an array stands at byte `i * w`. */
  lemma {:induction false} WordsStored(ws: seq<nat>, w: nat, i: nat, off: nat)
    requires i < |ws| && off == i * w
    ensures StoredAt(WordBytes(ws, w), off, w, ws[i])
  {
    var head, tail := LeBytes(ws[0], w), WordBytes(ws[1..], w);
    assert WordBytes(ws, w) == head + tail;
    if i == 0 {
      LeStored([], ws[0], w, tail);
      assert [] + head + tail == head + tail;
    } else {
      StepBack(i, w);
      WordsStored(ws[1..], w, i - 1, off - w);
      StoredBehind(head, tail, off - w, w, ws[i]);
    }
  }

  lemma {:induction false} GetWordBytes(ws: seq<nat>, w: nat, i: nat)
    requires i < |ws| && ws[i] < Pow256(w)
    ensures i * w + w <= |WordBytes(ws, w)|
    ensures GetWord(WordBytes(ws, w), w, i) == ws[i]
  {
    WordBytesAt(ws, w, i, i * w);
  }
}
