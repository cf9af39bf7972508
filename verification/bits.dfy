/** Byte-level arithmetic shared by every driver version: reading single bits
    the way the drivers do (`(x >> i) & 1`), the bit reversal used for a
    panel mounted upside down, and the population count that reversal keeps. */
module Bits {

  /** A value held in the frame buffer (a `bytearray`) or put on the 8-line data bus. */
  type Byte = x: int | 0 <= x < 256

  function Pow2(n: nat): (r: nat)
    ensures r >= 1
  {
    if n == 0 then 1 else 2 * Pow2(n - 1)
  }

  /** Bit `i` of `x`: `(x >> i) & 1 == 1`. Python's `>>` floors on negative
      values, and so does `/` by a positive divisor here. */
  predicate Bit(x: int, i: nat)
    decreases i
  {
    if i == 0 then x % 2 == 1 else Bit(x / 2, i - 1)
  }

  /** The lowest `n` bits of `x`, least significant first: the levels that
      bit-by-bit output puts on lines 0 .. n-1. */
  function BitsOf(x: int, n: nat): (s: seq<bool>)
    ensures |s| == n
    ensures forall i :: 0 <= i < n ==> s[i] == Bit(x, i)
    decreases n
  {
    if n == 0 then [] else [x % 2 == 1] + BitsOf(x / 2, n - 1)
  }

  /** The number a sequence of bits (least significant first) stands for. */
  function Value(s: seq<bool>): (v: nat)
    ensures v < Pow2(|s|)
  {
    if |s| == 0 then 0 else (if s[0] then 1 else 0) + 2 * Value(s[1..])
  }

  function Reverse<T>(s: seq<T>): (r: seq<T>)
    ensures |r| == |s|
    ensures forall i :: 0 <= i < |s| ==> r[i] == s[|s| - 1 - i]
  {
    if |s| == 0 then [] else Reverse(s[1..]) + [s[0]]
  }

  /** Number of set bits in `s`. */
  function Ones(s: seq<bool>): nat
  {
    if |s| == 0 then 0 else (if s[0] then 1 else 0) + Ones(s[1..])
  }

  /** Population count of a byte. */
  function PopCount(b: Byte): nat
  {
    Ones(BitsOf(b, 8))
  }

  /** `_reverse_bits`: bit `i` of the input becomes bit `7 - i` of the result.
      The driver ORs distinct powers of two into `result`, so the OR is a sum. */
  function ReverseBits(b: Byte): Byte
  {
    (if Bit(b, 0) then 128 else 0) + (if Bit(b, 1) then 64 else 0) +
    (if Bit(b, 2) then 32 else 0) + (if Bit(b, 3) then 16 else 0) +
    (if Bit(b, 4) then 8 else 0) + (if Bit(b, 5) then 4 else 0) +
    (if Bit(b, 6) then 2 else 0) + (if Bit(b, 7) then 1 else 0)
  }

  /** Writing the bits of a value below 2^n and reading them back gives the value. */
  lemma {:induction false} ValueOfBits(x: int, n: nat)
    requires 0 <= x < Pow2(n)
    ensures Value(BitsOf(x, n)) == x
  {
    if n > 0 {
      var s := BitsOf(x, n);
      assert s[1..] == BitsOf(x / 2, n - 1);
      ValueOfBits(x / 2, n - 1);
    }
  }

  /** Reading a bit sequence as a number and writing it back gives the sequence. */
  lemma {:induction false} BitsOfValue(s: seq<bool>)
    ensures BitsOf(Value(s), |s|) == s
  {
    if |s| > 0 {
      var v := Value(s);
      var b := if s[0] then 1 else 0;
      assert v == b + 2 * Value(s[1..]);
      assert v % 2 == b && v / 2 == Value(s[1..]);
      BitsOfValue(s[1..]);
      assert BitsOf(v, |s|) == [s[0]] + s[1..];
    }
  }

  /** Expands `Value` for the eight bits of a byte. */
  lemma ValueOfEight(s: seq<bool>)
    requires |s| == 8
    ensures Value(s) ==
      (if s[0] then 1 else 0) + (if s[1] then 2 else 0) +
      (if s[2] then 4 else 0) + (if s[3] then 8 else 0) +
      (if s[4] then 16 else 0) + (if s[5] then 32 else 0) +
      (if s[6] then 64 else 0) + (if s[7] then 128 else 0)
  {
    assert s[7..][1..] == [];
    assert Value(s[7..]) == (if s[7] then 1 else 0);
    assert s[6..][1..] == s[7..];
    assert Value(s[6..]) == (if s[6] then 1 else 0) + 2 * Value(s[7..]);
    assert s[5..][1..] == s[6..];
    assert Value(s[5..]) == (if s[5] then 1 else 0) + 2 * Value(s[6..]);
    assert s[4..][1..] == s[5..];
    assert Value(s[4..]) == (if s[4] then 1 else 0) + 2 * Value(s[5..]);
    assert s[3..][1..] == s[4..];
    assert Value(s[3..]) == (if s[3] then 1 else 0) + 2 * Value(s[4..]);
    assert s[2..][1..] == s[3..];
    assert Value(s[2..]) == (if s[2] then 1 else 0) + 2 * Value(s[3..]);
    assert s[1..][1..] == s[2..];
    assert Value(s[1..]) == (if s[1] then 1 else 0) + 2 * Value(s[2..]);
  }

  /** `_reverse_bits` reads the eight bits of its input in the opposite order. */
  lemma ReverseBitsIsReversal(b: Byte)
    ensures ReverseBits(b) == Value(Reverse(BitsOf(b, 8)))
  {
    ValueOfEight(Reverse(BitsOf(b, 8)));
  }

  /** The bits of `_reverse_bits(b)`, lowest first, are those of `b`, highest first. */
  lemma ReverseBitsBits(b: Byte)
    ensures BitsOf(ReverseBits(b), 8) == Reverse(BitsOf(b, 8))
    ensures forall i :: 0 <= i < 8 ==> Bit(ReverseBits(b), i) == Bit(b, 7 - i)
  {
    ReverseBitsIsReversal(b);
    BitsOfValue(Reverse(BitsOf(b, 8)));
  }

  /** Reversing twice restores the byte. */
  lemma ReverseBitsInvolution(b: Byte)
    ensures ReverseBits(ReverseBits(b)) == b
  {
    var r := ReverseBits(b);
    ReverseBitsBits(b);
    ReverseBitsIsReversal(r);
    assert Reverse(Reverse(BitsOf(b, 8))) == BitsOf(b, 8);
    ValueOfBits(b, 8);
  }

  lemma {:induction false} OnesAppend(a: seq<bool>, b: seq<bool>)
    ensures Ones(a + b) == Ones(a) + Ones(b)
  {
    if |a| == 0 {
      assert a + b == b;
    } else {
      assert (a + b)[0] == a[0];
      assert (a + b)[1..] == a[1..] + b;
      OnesAppend(a[1..], b);
    }
  }

  lemma {:induction false} OnesReverse(s: seq<bool>)
    ensures Ones(Reverse(s)) == Ones(s)
  {
    if |s| > 0 {
      OnesReverse(s[1..]);
      OnesAppend(Reverse(s[1..]), [s[0]]);
    }
  }

  /** Reversal moves bits but neither sets nor clears any. */
  lemma ReverseBitsPopCount(b: Byte)
    ensures PopCount(ReverseBits(b)) == PopCount(b)
  {
    ReverseBitsBits(b);
    OnesReverse(BitsOf(b, 8));
  }

  /** The worked example of the driver's doc comment, and the all-dark byte. */
  lemma ReverseBitsExamples()
    ensures ReverseBits(0x47) == 0xE2
    ensures ReverseBits(0) == 0
    ensures ReverseBits(0xFF) == 0xFF
  {
  }
}
