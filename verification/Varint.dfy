/** Compact integers in source/codec/pif_encoding.c: zigzag codes and base-128 varints, as the Protocol Buffers
    encoding document has them under "Signed Integers" and "Base 128 Varints". */
module Varint {
  import opened Bits
  import opened Numbers
  import opened Options
  import opened Seqs
  import opened Words

  const WORD: nat := 0x1_0000_0000

  // ---------------------------------------------------------------- zigzag

  /** x ^ 0xFFFFFFFF, or x ^ 0. */
  function XorMask(x: uint32, ones: bool): uint32 {
    if ones then WORD - 1 - x else x
  }

  function Unsigned(x: int32): uint32 {
    if x < 0 then x + WORD else x
  }

  function Signed(x: uint32): int32 {
    if x < 0x8000_0000 then x else x - WORD
  }

  function ZigzagEncode(value: int32): uint32 {
    XorMask(2 * Unsigned(value) % WORD, value < 0)
  }

  function ZigzagDecode(value: uint32): int32 {
    Signed(XorMask(value / 2, value % 2 == 1))
  }

  /** A bijection, that gives the smaller codes to the smaller magnitudes. */
  lemma ZigzagRoundTrip(value: int32, code: uint32)
    ensures ZigzagDecode(ZigzagEncode(value)) == value
    ensures ZigzagEncode(ZigzagDecode(code)) == code
  {
  }

  /** The values from 0 on get the even codes in order, the negative ones from -1 down the odd codes. */
  lemma ZigzagSign(value: int32)
    ensures ZigzagEncode(value) % 2 == 1 <==> value < 0
    ensures ZigzagEncode(value) == if value < 0 then -2 * value - 1 else 2 * value
  {
  }

  lemma ZigzagKeepsOrder(a: int32, b: int32)
    ensures Abs(a) < Abs(b) ==> ZigzagEncode(a) < ZigzagEncode(b)
    ensures ZigzagEncode(a) <= 2 * Abs(a)
  {
  }

  // ---------------------------------------------------------------- varints

  /** Seven bits a byte, the low ones first, and bit 7 set on every byte but the last. */
  function Varint(value: nat): (r: seq<byte>)
    ensures r != []
  {
    if value < 128 then [value as byte] else [(value % 128 + 128) as byte] + Varint(value / 128)
  }

  /** Largest value, plus one, that still fits in 32 bits from byte i of a varint on. */
  function Room(i: nat): nat {
    if i == 0 then WORD else if i == 1 then 0x200_0000 else if i == 2 then 0x4_0000 else if i == 3 then 0x800
    else if i == 4 then 0x10 else 0
  }

  /** The value and the length of the varint at the front of s, of which this is byte i. */
  function Read(s: seq<byte>, i: nat): (r: Option<(nat, nat)>)
    ensures r.Some? ==> 1 <= r.value.1 <= |s| && r.value.0 < Room(i)
    decreases |s|
  {
    if i >= 5 || s == [] || (i == 4 && s[0] >= 0x10) then None
    else if s[0] < 0x80 then Some((s[0] as nat, 1))
    else
      match Read(s[1..], i + 1)
      case None => None
      case Some((v, n)) => Some((s[0] as nat - 128 + 128 * v, n + 1))
  }

  lemma {:induction false} ReadVarint(value: nat, rest: seq<byte>, i: nat)
    requires value < Room(i)
    ensures Read(Varint(value) + rest, i) == Some((value, |Varint(value)|))
    decreases value
  {
    var s := Varint(value) + rest;
    if value >= 128 {
      ReadVarint(value / 128, rest, i + 1);
      assert s[1..] == Varint(value / 128) + rest;
    }
  }

  /** Every 32-bit value comes back, whatever follows it, from at most five bytes. */
  lemma VarintRoundTrip(value: uint32, rest: seq<byte>)
    ensures Read(Varint(value) + rest, 0) == Some((value, |Varint(value)|))
    ensures |Varint(value)| <= 5
  {
    ReadVarint(value, rest, 0);
    VarintLength(value, 0);
  }

  lemma {:induction false} VarintLength(value: nat, i: nat)
    requires value < Room(i)
    ensures |Varint(value)| <= 5 - i
    decreases value
  {
    if value >= 128 {
      VarintLength(value / 128, i + 1);
    }
  }

  lemma {:induction false} ZeroValue(s: seq<byte>, i: nat)
    requires Read(s, i).Some? && Read(s, i).value.0 == 0
    ensures s[Read(s, i).value.1 - 1] == 0
    decreases |s|
  {
    if s[0] >= 0x80 {
      ZeroValue(s[1..], i + 1);
    }
  }

  /** The bytes read are those the encoder writes for the value exactly if they carry no empty last group. */
  lemma {:induction false} ReadIsCanonical(s: seq<byte>, i: nat)
    requires Read(s, i).Some?
    ensures var (v, n) := Read(s, i).value; Varint(v) == s[..n] <==> n == 1 || s[n - 1] != 0
    decreases |s|
  {
    var (v, n) := Read(s, i).value;
    if s[0] >= 0x80 {
      var rest := s[1..];
      var (w, m) := Read(rest, i + 1).value;
      ReadIsCanonical(rest, i + 1);
      assert s[..n] == [s[0]] + rest[..m];
      if w == 0 {
        ZeroValue(rest, i + 1);
        assert Varint(v)[0] != s[0];
      } else {
        assert v % 128 + 128 == s[0] as nat && v / 128 == w;
        assert Varint(v)[1..] == Varint(w) && s[..n][1..] == rest[..m];
      }
    } else {
      assert s[..1] == [s[0]];
    }
  }

  method UvarintEncode(value: uint32, buffer: array<byte>, size: nat) returns (count: nat)
    requires size <= buffer.Length
    modifies buffer
    ensures count == if |Varint(value)| <= size then |Varint(value)| else 0
    ensures count > 0 ==> buffer[..count] == Varint(value)
    ensures buffer[size..] == old(buffer[size..])
  {
    hide Varint;
    var rest: nat := value;
    count := 0;
    Units(Varint(value));
    assert buffer[..0] == [];
    while true
      invariant count <= size && Varint(value) == buffer[..count] + Varint(rest)
      invariant buffer[size..] == old(buffer[size..])
      decreases rest
    {
      VarintStep(rest);
      if count >= size {
        return 0;
      }
      ghost var before, all := buffer[..count], rest;
      buffer[count] := rest % 128;
      rest := rest / 128;
      if rest != 0 {
        MoreBit(buffer[count]);
        buffer[count] := Or(buffer[count], 0x80);
      }
      count := count + 1;
      assert buffer[..count] == before + [buffer[count - 1]];
      if rest == 0 {
        return;
      }
      Assoc(before, [buffer[count - 1]], Varint(rest));
    }
  }

  /** The bit that says that more bytes follow is free in a group of seven bits. */
  lemma MoreBit(x: nat)
    requires x < 128
    ensures Or(x, 0x80) == x + 0x80
  {
    assert Pow2(7) == 128 && Shift(1, 7) == 128;
    OrDisjoint(x, 1, 7);
  }

  lemma VarintStep(value: nat)
    ensures Varint(value) != []
    ensures value < 128 ==> Varint(value) == [value as byte]
    ensures value >= 128 ==> Varint(value) == [(value % 128 + 128) as byte] + Varint(value / 128)
  {
  }

  /** The value gathered from the first i bytes, and what the rest adds. */
  function Gathered(value: nat, i: nat, bits: nat, rest: Option<(nat, nat)>): Option<(nat, nat)> {
    match rest
    case None => None
    case Some((v, n)) => Some((value + Shift(v, bits), i + n))
  }

  lemma NothingGathered(r: Option<(nat, nat)>)
    ensures Gathered(0, 0, 0, r) == r && Pow2(0) == 1
  {
  }

  lemma GatherNext(value: nat, i: nat, bits: nat, s: seq<byte>, more: nat)
    requires s != [] && s[0] >= 0x80 && Read(s, i) == (match Read(s[1..], i + 1)
                                                        case None => None
                                                        case Some((v, n)) => Some((s[0] as nat - 128 + 128 * v, n + 1)))
    requires more == bits + 7
    ensures Gathered(value, i, bits, Read(s, i))
            == Gathered(value + Shift(s[0] as nat - 128, bits), i + 1, more, Read(s[1..], i + 1))
  {
    if Read(s[1..], i + 1).Some? {
      var v := Read(s[1..], i + 1).value.0;
      ShiftSum(s[0] as nat - 128, 128 * v, bits);
      assert Shift(v, 0) == v;
      assert Shift(v, 2) == 4 * Shift(v, 0);
      assert Shift(v, 4) == 4 * Shift(v, 2);
      assert Shift(v, 6) == 4 * Shift(v, 4);
      assert Shift(v, 7) == 2 * Shift(v, 6);
      ShiftShift(v, 7, bits, more);
    }
  }

  lemma GroupFits(value: nat, group: nat, bits: nat, more: nat)
    requires value < Pow2(bits) && group < 128 && more == bits + 7
    ensures value + Shift(group, bits) < Pow2(more)
  {
    assert Pow2(7) == 128;
    ShiftSum(group, 1, bits);
    ShiftPow2(0, bits, bits);
    ShiftPow2(7, bits, more);
    ShiftCompare(group + 1, 128, bits);
  }

  /** None stands for the answer 0, which leaves *p_value alone. */
  method UvarintDecode(s: seq<byte>) returns (r: Option<(nat, nat)>)
    ensures r == Read(s, 0)
    ensures r.Some? ==> r.value.0 < WORD && r.value.1 <= 5
  {
    hide Or, Shift, Pow2;
    var value: nat := 0;
    var i: nat := 0;
    assert s[0..] == s;
    NothingGathered(Read(s, 0));
    while i < 5 && i < |s|
      invariant i <= 5 && i <= |s| && value < Pow2(7 * i)
      invariant Read(s, 0) == Gathered(value, i, 7 * i, Read(s[i..], i))
    {
      if i == 4 && s[i] >= 0x10 {
        return None;
      }
      assert s[i..][1..] == s[i + 1..];
      OrDisjoint(value, s[i] % 128, 7 * i);
      if s[i] < 0x80 {
        return Some((Or(value, Shift(s[i] % 128, 7 * i)), i + 1));
      }
      GatherNext(value, i, 7 * i, s[i..], 7 * (i + 1));
      GroupFits(value, s[i] % 128, 7 * i, 7 * (i + 1));
      value := Or(value, Shift(s[i] % 128, 7 * i));
      i := i + 1;
    }
    r := None;
  }
}
