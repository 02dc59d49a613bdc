/** Bit strings, most significant bit first, and the numbers and bytes they stand for. */
module Bits {
  import opened Numbers

  type bits = seq<bool>

  type byte = x: int | 0 <= x < 256

  /** The low length bits of a code. */
  function CodeBits(code: nat, length: nat): (r: bits)
    ensures |r| == length
  {
    if length == 0 then [] else CodeBits(code / 2, length - 1) + [code % 2 == 1]
  }

  function Value(b: bits): nat {
    if b == [] then 0 else 2 * Value(b[..|b| - 1]) + (if b[|b| - 1] then 1 else 0)
  }

  lemma ValueNext(b: bits, x: bool)
    ensures Value(b + [x]) == 2 * Value(b) + (if x then 1 else 0)
  {
    assert (b + [x])[..|b|] == b;
  }

  /** x shifted right by n bits. */
  function ShiftRight(x: nat, n: nat): nat {
    if n == 0 then x else ShiftRight(x / 2, n - 1)
  }

  predicate BitOf(x: nat, n: nat) {
    ShiftRight(x, n) % 2 == 1
  }

  lemma {:induction false} ValueOfCode(code: nat, length: nat)
    requires code < Pow2(length)
    ensures Value(CodeBits(code, length)) == code
  {
    if length > 0 {
      ValueOfCode(code / 2, length - 1);
      var b := CodeBits(code, length);
      assert b[..|b| - 1] == CodeBits(code / 2, length - 1);
    }
  }

  lemma {:induction false} CodeOfValue(b: bits)
    ensures Value(b) < Pow2(|b|)
    ensures CodeBits(Value(b), |b|) == b
  {
    if b != [] {
      CodeOfValue(b[..|b| - 1]);
      assert b == b[..|b| - 1] + [b[|b| - 1]];
    }
  }

  lemma {:induction false} ValueConcat(a: bits, b: bits)
    ensures Value(a + b) == Shift(Value(a), |b|) + Value(b)
  {
    if b == [] {
      assert a + b == a;
    } else {
      assert (a + b)[..|a + b| - 1] == a + b[..|b| - 1];
      ValueConcat(a, b[..|b| - 1]);
    }
  }

  lemma {:induction false} CodeBitAt(code: nat, length: nat, j: nat, n: nat)
    requires j < length && j + n == length - 1
    ensures CodeBits(code, length)[j] == BitOf(code, n)
  {
    if n > 0 {
      CodeBitAt(code / 2, length - 1, j, n - 1);
    }
  }

  /** x | (1 << n). */
  function OrBit(x: nat, n: nat): nat {
    if BitOf(x, n) then x else x + Pow2(n)
  }

  lemma {:induction false} OrBitSets(x: nat, length: nat, n: nat, j: nat)
    requires j < length && j + n == length - 1
    ensures CodeBits(OrBit(x, n), length) == CodeBits(x, length)[j := true]
  {
    CodeBitAt(x, length, j, n);
    if n == 0 {
      assert x % 2 == 0 ==> (x + 1) / 2 == x / 2;
    } else {
      OrBitHalf(x, n);
      assert BitOf(x, n) == BitOf(x / 2, n - 1);
      OrBitSets(x / 2, length - 1, n - 1, j);
    }
  }

  lemma {:induction false} OrBitFits(x: nat, length: nat, n: nat)
    requires n < length && x < Pow2(length)
    ensures OrBit(x, n) < Pow2(length)
  {
    if n > 0 {
      OrBitFits(x / 2, length - 1, n - 1);
      OrBitHalf(x, n);
    }
  }

  lemma OrBitHalf(x: nat, n: nat)
    requires n > 0
    ensures OrBit(x, n) / 2 == OrBit(x / 2, n - 1) && OrBit(x, n) % 2 == x % 2
  {
    assert BitOf(x, n) == BitOf(x / 2, n - 1);
  }

  /** x | y. */
  function Or(x: nat, y: nat): nat
    decreases x + y
  {
    if x == 0 then y else if y == 0 then x
    else 2 * Or(x / 2, y / 2) + (if x % 2 == 1 || y % 2 == 1 then 1 else 0)
  }

  /** Numbers with no bit in common are added. */
  lemma {:induction false} OrDisjoint(x: nat, y: nat, n: nat)
    requires x < Pow2(n)
    ensures Or(x, Shift(y, n)) == x + Shift(y, n)
  {
    if n > 0 && x > 0 && Shift(y, n) > 0 {
      OrDisjoint(x / 2, y, n - 1);
      assert Shift(y, n) / 2 == Shift(y, n - 1);
    }
  }

  function Zeros(n: nat): (r: bits)
    ensures |r| == n && forall i :: 0 <= i < n ==> !r[i]
  {
    seq(n, _ => false)
  }

  lemma {:induction false} ZeroBits(length: nat)
    ensures CodeBits(0, length) == Zeros(length)
  {
    if length > 0 {
      ZeroBits(length - 1);
    }
  }

  /** The bits of a buffer, byte by byte. */
  function BytesBits(s: seq<byte>): (r: bits)
    ensures |r| == 8 * |s|
  {
    if s == [] then [] else BytesBits(s[..|s| - 1]) + CodeBits(s[|s| - 1], 8)
  }

  lemma BytesBitsAppend(s: seq<byte>, x: byte)
    ensures BytesBits(s + [x]) == BytesBits(s) + CodeBits(x, 8)
  {
    assert (s + [x])[..|s|] == s;
  }

  /** Bit i of a buffer, most significant bit of each byte first. */
  predicate BitAt(s: seq<byte>, i: nat)
    requires i < 8 * |s|
  {
    BitOf(s[i / 8], 7 - i % 8)
  }

  lemma {:induction false} BytesBitsAt(s: seq<byte>, i: nat)
    requires i < 8 * |s|
    ensures BytesBits(s)[i] == BitAt(s, i)
  {
    var k := |s| - 1;
    if i >= 8 * k {
      CodeBitAt(s[k], 8, i - 8 * k, 7 - (i - 8 * k));
    } else {
      BytesBitsAt(s[..k], i);
    }
  }
}
