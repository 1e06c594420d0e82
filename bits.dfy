/** Bit patterns of Java `int`s, as the simulator uses them: a row number packs the
    0/1 input cells (input i is bit i) and a truth-table word packs the 0/1 output
    cells (output i is bit i).  A word is kept as the unsigned value of its 32-bit
    pattern, so a word whose bit 31 is set (a negative `int` in Java) is simply a
    number at or above 2^31. */
module Bits {

  const WordBits := 32

  function Pow2(k: nat): (r: nat)
    ensures r >= 1
  {
    if k == 0 then 1 else 2 * Pow2(k - 1)
  }

  /** Bit i of v, counting from the least significant bit. */
  function Bit(v: nat, i: nat): (b: nat)
    ensures b <= 1
  {
    if i == 0 then v % 2 else Bit(v / 2, i - 1)
  }

  /** Java's `(v >> i) & 1` on an `int`: the shift distance is taken modulo 32. */
  function ShiftBit(v: nat, i: nat): (b: nat)
    ensures b <= 1
  {
    Bit(v, i % WordBits)
  }

  /** Below 32 a shift distance is not reduced. */
  lemma ShiftLow(i: nat)
    requires i < WordBits
    ensures i % WordBits == i
  {
  }

  /** Java's `v |= 1 << j` on an `int`: the shift distance is taken modulo 32. */
  function SetBit(v: nat, j: nat): nat
  {
    var p := j % WordBits;
    if Bit(v, p) == 1 then v else v + Pow2(p)
  }

  predicate IsBit(x: int) {
    x == 0 || x == 1
  }

  predicate AllBits(s: seq<int>) {
    forall i :: 0 <= i < |s| ==> IsBit(s[i])
  }

  /** The number whose bit i is cell i. */
  function Pack(s: seq<int>): (v: nat)
    requires AllBits(s)
    ensures v < Pow2(|s|)
  {
    if s == [] then 0 else s[0] + 2 * Pack(s[1..])
  }

  /** The n cells holding bits 0 .. n-1 of v. */
  function Unpack(v: nat, n: nat): (s: seq<int>)
    ensures |s| == n && AllBits(s)
    ensures forall i :: 0 <= i < n ==> s[i] == Bit(v, i)
  {
    if n == 0 then [] else [v % 2] + Unpack(v / 2, n - 1)
  }

  lemma {:induction false} BitOfPack(s: seq<int>, i: nat)
    requires AllBits(s) && i < |s|
    ensures Bit(Pack(s), i) == s[i]
  {
    if i > 0 {
      assert Pack(s) / 2 == Pack(s[1..]);
      BitOfPack(s[1..], i - 1);
    }
  }

  /** Unpacking a packed row gives back the cells. */
  lemma UnpackPack(s: seq<int>)
    requires AllBits(s)
    ensures Unpack(Pack(s), |s|) == s
  {
    forall i | 0 <= i < |s| ensures Unpack(Pack(s), |s|)[i] == s[i] {
      BitOfPack(s, i);
    }
  }

  /** Packing the first n bits of a number below 2^n gives back the number. */
  lemma {:induction false} PackUnpack(v: nat, n: nat)
    requires v < Pow2(n)
    ensures Pack(Unpack(v, n)) == v
  {
    if n > 0 {
      PackUnpack(v / 2, n - 1);
      assert Unpack(v, n)[1..] == Unpack(v / 2, n - 1);
    }
  }

  /** Bits at or above position j of a number below 2^j are clear. */
  lemma {:induction false} BitAbove(v: nat, j: nat)
    requires v < Pow2(j)
    ensures Bit(v, j) == 0
  {
    if j > 0 {
      BitAbove(v / 2, j - 1);
    }
  }

  /** Appending a cell adds its bit at the next position. */
  lemma {:induction false} PackSnoc(s: seq<int>, b: int)
    requires AllBits(s) && IsBit(b)
    ensures AllBits(s + [b]) && Pack(s + [b]) == Pack(s) + b * Pow2(|s|)
  {
    if s != [] {
      assert (s + [b])[1..] == s[1..] + [b];
      PackSnoc(s[1..], b);
    }
  }

  /** Setting bit j (below 32) of the packing of j cells appends a 1 cell. */
  lemma SetBitSnoc(s: seq<int>)
    requires AllBits(s) && |s| < WordBits
    ensures SetBit(Pack(s), |s|) == Pack(s + [1])
  {
    ShiftLow(|s|);
    BitAbove(Pack(s), |s|);
    assert SetBit(Pack(s), |s|) == Pack(s) + Pow2(|s|);
    PackSnoc(s, 1);
  }
}
