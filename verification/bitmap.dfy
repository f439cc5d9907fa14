/** The on-disk free map: one bit a block, packed in the bytes of the bitmap blocks. */
module Bitmap {
  import opened Common
  import opened Bytes

  const BIT_PER_BLOCK: nat := 4096

  /** Bit `k` of a byte, counted from the low-order end. */
  predicate ByteBit(b: nat, k: nat) {
    if k == 0 then b % 2 == 1 else ByteBit(b / 2, k - 1)
  }

  /** The byte with bit `k` set or cleared. */
  function WithBit(b: nat, k: nat, on: bool): nat {
    if k == 0 then b - b % 2 + (if on then 1 else 0) else 2 * WithBit(b / 2, k - 1, on) + b % 2
  }

  lemma {:induction false} WithBitSize(b: nat, k: nat, on: bool, n: nat)
    requires k < n && b < Pow2(n)
    ensures WithBit(b, k, on) < Pow2(n)
  {
    var p := Pow2(n - 1);
    assert Pow2(n) == 2 * p;
    if k > 0 {
      WithBitSize(b / 2, k - 1, on, n - 1);
      var c := WithBit(b / 2, k - 1, on);
      assert WithBit(b, k, on) == 2 * c + b % 2 && c < p;
    }
  }

  lemma {:induction false} WithBitOk(b: nat, k: nat, on: bool, j: nat)
    ensures ByteBit(WithBit(b, k, on), j) == if j == k then on else ByteBit(b, j)
  {
    if k > 0 && j > 0 {
      WithBitOk(b / 2, k - 1, on, j - 1);
    }
  }

  predicate BlockBit(s: Block, j: nat)
    requires j < BIT_PER_BLOCK
  {
    ByteBit(s[j / 8], j % 8)
  }

  function PutBit(s: Block, j: nat, on: bool): Block
    requires j < BIT_PER_BLOCK
  {
    assert Pow2(8) == 256 by { assert Pow2(4) == 16; }
    WithBitSize(s[j / 8], j % 8, on, 8);
    s[j / 8 := WithBit(s[j / 8], j % 8, on)]
  }

  /** Bit `j` of a block is the bit of weight `2^(j % 8)` of byte `j / 8`. */
  lemma BitLayout(s: Block, j: nat)
    requires j < BIT_PER_BLOCK
    ensures BlockBit(s, j) <==> s[j / 8] / Pow2(j % 8) % 2 == 1
  {
    BitWeight(s[j / 8], j % 8);
  }

  lemma {:induction false} BitWeight(b: nat, k: nat)
    ensures ByteBit(b, k) <==> b / Pow2(k) % 2 == 1
  {
    if k > 0 {
      BitWeight(b / 2, k - 1);
      DivTwice(b, 2, Pow2(k - 1));
    }
  }

  /** Setting or clearing one bit changes no other. */
  lemma PutBitOk(s: Block, j: nat, on: bool, i: nat)
    requires j < BIT_PER_BLOCK && i < BIT_PER_BLOCK
    ensures BlockBit(PutBit(s, j, on), i) == if i == j then on else BlockBit(s, i)
  {
    if i / 8 == j / 8 {
      WithBitOk(s[j / 8], j % 8, on, i % 8);
    }
  }
}
