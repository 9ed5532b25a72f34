/** The integer encoding of copilot-fork/src/util/common/variableLengthQuantity.ts: the 32-bit pattern of
    a signed integer, seven bits a byte, low bits first, the high bit set on every byte but the last
    (unsigned LEB128, section 7.6 of DWARF 5).

    Bit patterns are numbers below 2^32.  Masking with 0x7f is the remainder by 128, an unsigned shift
    by 7 to the right is division by 128, and setting the clear bit 0x80 adds 128. */
module VariableLengthQuantity {

  import opened Wrappers

  type Byte = x: int | 0 <= x < 0x100

  type Bits = x: int | 0 <= x < 0x1_0000_0000

  // ---- Operations on bit patterns ----

  predicate IsInt32(i: int) { -0x8000_0000 <= i < 0x8000_0000 }

  function ToBits(i: int): Bits
    requires IsInt32(i)
  {
    if i < 0 then i + 0x1_0000_0000 else i
  }

  function FromBits(bits: Bits): int {
    if bits < 0x8000_0000 then bits else bits - 0x1_0000_0000
  }

  function Or(a: nat, b: nat): nat {
    if a == 0 then b
    else 2 * Or(a / 2, b / 2) + if a % 2 == 1 || b % 2 == 1 then 1 else 0
  }

  /** x with zero bits put behind it. */
  function Times2(x: nat, zeros: nat): nat {
    if zeros == 0 then x else 2 * Times2(x, zeros - 1)
  }

  /** A shift takes its amount modulo 32 and drops the bits beyond 32. */
  function ShiftLeft(bits: Bits, amount: nat): Bits {
    Times2(bits, amount % 32) % 0x1_0000_0000
  }

  lemma {:induction false} OrBelow(a: nat, b: nat, width: nat)
    requires a < Times2(1, width) && b < Times2(1, width)
    ensures Or(a, b) < Times2(1, width)
    decreases width
  {
    if width > 0 && a > 0 {
      OrBelow(a / 2, b / 2, width - 1);
    }
  }

  function BitOr(a: Bits, b: Bits): Bits {
    Width32();
    OrBelow(a, b, 32);
    Or(a, b)
  }

  lemma {:induction false} Width32()
    ensures Times2(1, 32) == 0x1_0000_0000
  {
    Times2Seven(1, 25);
    Times2Seven(0x80, 18);
    Times2Seven(0x4000, 11);
    Times2Seven(0x20_0000, 4);
    assert Times2(0x1000_0000, 2) == 0x4000_0000;
  }

  lemma {:induction false} Times2Seven(x: nat, zeros: nat)
    ensures Times2(x, zeros + 7) == Times2(128 * x, zeros)
  {
    Times2Times2(x, 7, zeros);
    assert Times2(x, 1) == 2 * x && Times2(x, 2) == 4 * x && Times2(x, 3) == 8 * x;
    assert Times2(x, 4) == 16 * x && Times2(x, 5) == 32 * x && Times2(x, 6) == 64 * x;
  }

  lemma {:induction false} Times2Times2(x: nat, a: nat, b: nat)
    ensures Times2(Times2(x, a), b) == Times2(x, a + b)
  {
    if b > 0 { Times2Times2(x, a, b - 1); }
  }

  /** Bits that do not meet add up. */
  lemma {:induction false} OrDisjoint(a: nat, x: nat, zeros: nat)
    requires a < Times2(1, zeros)
    ensures Or(a, Times2(x, zeros)) == a + Times2(x, zeros)
    decreases zeros
  {
    if a > 0 {
      OrDisjoint(a / 2, x, zeros - 1);
    }
  }

  lemma {:induction false} Times2Plus(x: nat, y: nat, zeros: nat)
    ensures Times2(x, zeros) + Times2(y, zeros) == Times2(x + y, zeros)
    decreases zeros
  {
    if zeros > 0 { Times2Plus(x, y, zeros - 1); }
  }

  // ---- The bytes of a bit pattern ----

  function Encoded(bits: Bits): (bytes: seq<Byte>)
    ensures |bytes| > 0
    decreases bits
  {
    if bits / 128 == 0 then [bits % 128] else [bits % 128 + 128] + Encoded(bits / 128)
  }

  predicate More(byte: Byte) { byte >= 128 }

  /** Beyond the end of the buffer no bits are read. */
  function ReadUInt8(buffer: seq<Byte>, offset: nat): Byte {
    if offset < |buffer| then buffer[offset] else 0
  }

  function Accumulate(result: Bits, byte: Byte, consumed: nat): Bits {
    BitOr(result, ShiftLeft(byte % 128, consumed * 7))
  }

  /** What the reading loop returns when it has consumed some bytes already. */
  function ReadOn(buffer: seq<Byte>, offset: nat, consumed: nat, result: Bits): (Bits, nat)
    decreases |buffer| - (offset + consumed)
  {
    var byte := ReadUInt8(buffer, offset + consumed);
    if More(byte) then ReadOn(buffer, offset, consumed + 1, Accumulate(result, byte, consumed))
    else (Accumulate(result, byte, consumed), consumed + 1)
  }

  predicate EncodedAt(buffer: seq<Byte>, at: nat, bits: Bits) {
    at + |Encoded(bits)| <= |buffer| && buffer[at..at + |Encoded(bits)|] == Encoded(bits)
  }

  lemma {:induction false} Times2Monotone(x: nat, y: nat, zeros: nat)
    requires x <= y
    ensures Times2(x, zeros) <= Times2(y, zeros)
  {
    if zeros > 0 { Times2Monotone(x, y, zeros - 1); }
  }

  /** The low seven bits of what is left go behind the bits read so far. */
  lemma {:induction false} AccumulateAdds(bits: Bits, byte: Byte, result: Bits, consumed: nat)
    requires consumed <= 4 && byte % 128 == bits % 128
    requires result < Times2(1, 7 * consumed) && Times2(bits, 7 * consumed) < 0x1_0000_0000
    ensures Accumulate(result, byte, consumed) == result + Times2(bits % 128, 7 * consumed)
    ensures result + Times2(bits, 7 * consumed)
        == result + Times2(bits % 128, 7 * consumed) + Times2(bits / 128, 7 * (consumed + 1))
    ensures result + Times2(bits % 128, 7 * consumed) < Times2(1, 7 * (consumed + 1))
  {
    hide Times2, Or;
    var zeros := 7 * consumed;
    var low := bits % 128;
    Times2Monotone(low, bits, zeros);
    OrDisjoint(result, low, zeros);
    Times2Seven(bits / 128, zeros);
    Times2Plus(low, 128 * (bits / 128), zeros);
    Times2Seven(1, zeros);
    Times2Monotone(low + 1, 128, zeros);
    Times2Plus(low, 1, zeros);
  }

  lemma {:induction false} ReadsEncoded(buffer: seq<Byte>, offset: nat, consumed: nat, result: Bits, bits: Bits)
    requires EncodedAt(buffer, offset + consumed, bits)
    requires result < Times2(1, 7 * consumed) && Times2(bits, 7 * consumed) < 0x1_0000_0000
    requires consumed <= 4
    ensures ReadOn(buffer, offset, consumed, result)
        == (result + Times2(bits, 7 * consumed), consumed + |Encoded(bits)|)
    decreases bits
  {
    hide Accumulate, Times2;
    var at := offset + consumed;
    assert buffer[at] == buffer[at..at + |Encoded(bits)|][0] == Encoded(bits)[0];
    AccumulateAdds(bits, buffer[at], result, consumed);
    if bits / 128 > 0 {
      assert Encoded(bits / 128) == Encoded(bits)[1..] == buffer[at + 1..at + |Encoded(bits)|];
      FewerLeft(bits / 128, consumed + 1);
      ReadsEncoded(buffer, offset, consumed + 1, Accumulate(result, buffer[at], consumed), bits / 128);
    } else {
      NoneLeft(7 * (consumed + 1));
    }
  }

  lemma {:induction false} NoneLeft(zeros: nat)
    ensures Times2(0, zeros) == 0
  {
    if zeros > 0 { NoneLeft(zeros - 1); }
  }

  lemma {:induction false} FewerLeft(bits: nat, consumed: nat)
    requires bits > 0 && Times2(bits, 7 * consumed) < 0x1_0000_0000
    ensures consumed <= 4
  {
    hide Times2;
    if consumed > 4 {
      Times2Monotone(1, bits, 7 * consumed);
      Times2Times2(1, 32, 7 * consumed - 32);
      Width32();
      Times2Grows(0x1_0000_0000, 7 * consumed - 32);
    }
  }

  lemma {:induction false} Times2Grows(x: nat, zeros: nat)
    ensures x <= Times2(x, zeros)
  {
    if zeros > 0 { Times2Grows(x, zeros - 1); }
  }

  /** How many bytes are written: one to five, by how many groups of seven bits the pattern needs. */
  lemma {:induction false} EncodedSize(bits: Bits)
    ensures |Encoded(bits)| ==
      if bits < 0x80 then 1 else if bits < 0x4000 then 2 else if bits < 0x20_0000 then 3
          else if bits < 0x1000_0000 then 4 else 5
    decreases bits
  {
    if bits / 128 > 0 {
      EncodedSize(bits / 128);
    }
  }

  /** Reading back what was written, wherever it stands in a buffer. */
  lemma {:induction false} WrittenIsRead(i: int, before: seq<Byte>, after: seq<Byte>)
    requires IsInt32(i)
    ensures var bytes := Encoded(ToBits(i));
      && 1 <= |bytes| <= 5
      && ReadOn(before + bytes + after, |before|, 0, 0).1 == |bytes|
      && FromBits(ReadOn(before + bytes + after, |before|, 0, 0).0) == i
  {
    hide ReadOn, Encoded;
    EncodedSize(ToBits(i));
    ReadsEncoded(before + Encoded(ToBits(i)) + after, |before|, 0, 0, ToBits(i));
  }

  // ---- The format, byte by byte ----

  /** Groups of seven bits, the lowest first. */
  function Sum(bytes: seq<Byte>): nat {
    if bytes == [] then 0 else bytes[0] % 128 + 128 * Sum(bytes[1..])
  }

  /** The high bit tells that another byte follows. */
  predicate Continued(bytes: seq<Byte>) {
    && bytes != [] && bytes[|bytes| - 1] < 128
    && forall k :: 0 <= k < |bytes| - 1 ==> bytes[k] >= 128
  }

  lemma {:induction false} EncodedSums(bits: Bits)
    ensures Continued(Encoded(bits)) && Sum(Encoded(bits)) == bits
    ensures |Encoded(bits)| > 1 ==> Encoded(bits)[|Encoded(bits)| - 1] > 0
    decreases bits
  {
    if bits / 128 > 0 {
      EncodedSums(bits / 128);
      assert Encoded(bits)[1..] == Encoded(bits / 128);
    }
  }

  /** What is written: the two's complement pattern of the integer, seven bits a byte, the lowest first, in as few
      bytes as hold it. */
  lemma {:induction false} WrittenLowBitsFirst(i: int)
    requires -0x8000_0000 <= i < 0x8000_0000
    ensures var bytes := Encoded(ToBits(i));
      && Continued(bytes) && Sum(bytes) == (if i < 0 then i + 0x1_0000_0000 else i)
      && (|bytes| > 1 ==> bytes[|bytes| - 1] > 0)
  {
    EncodedSums(ToBits(i));
  }

  /** In front of the 32nd bit nothing is cut off. */
  lemma {:induction false} AccumulateEarly(result: Bits, byte: Byte, consumed: nat)
    requires consumed <= 3 && result < Times2(1, 7 * consumed)
    ensures Accumulate(result, byte, consumed) == result + Times2(byte % 128, 7 * consumed)
    ensures result + Times2(byte % 128, 7 * consumed) < Times2(1, 7 * (consumed + 1)) <= 0x1000_0000
  {
    hide Times2, Or;
    Times2Monotone(byte % 128, 128, 7 * consumed);
    Times2Seven(1, 7 * consumed);
    Powers();
    AccumulateAdds(byte % 128, byte, result, consumed);
  }

  lemma {:induction false} Powers()
    ensures Times2(1, 0) == 1 && Times2(1, 7) == 0x80 && Times2(1, 14) == 0x4000 && Times2(1, 21) == 0x20_0000
    ensures Times2(1, 28) == 0x1000_0000
  {
    Times2Seven(1, 0);
    Times2Seven(1, 7);
    Times2Seven(1, 14);
    Times2Seven(1, 21);
    Times2Seven(0x80, 0);
    Times2Seven(0x80, 7);
    Times2Seven(0x80, 14);
    Times2Seven(0x4000, 0);
    Times2Seven(0x4000, 7);
    Times2Seven(0x20_0000, 0);
  }

  lemma {:induction false} Times28(x: nat)
    ensures Times2(x, 28) == 0x1000_0000 * x
  {
    Times2Seven(x, 21);
    Times2Seven(128 * x, 14);
    Times2Seven(0x4000 * x, 7);
    Times2Seven(0x20_0000 * x, 0);
  }

  lemma {:induction false} FourBits(result: nat, x: nat)
    requires result < 0x1000_0000
    ensures (result + 0x1000_0000 * x) % 0x1_0000_0000 == result + 0x1000_0000 * (x % 16)
  {
    assert result + 0x1000_0000 * x == 0x1_0000_0000 * (x / 16) + (result + 0x1000_0000 * (x % 16));
  }

  /** Of the fifth byte only four bits are left. */
  lemma {:induction false} AccumulateLast(result: Bits, byte: Byte)
    requires result < 0x1000_0000
    ensures Accumulate(result, byte, 4) == (result + 0x1000_0000 * (byte % 128)) % 0x1_0000_0000
  {
    hide Times2, Or;
    var x := byte % 128;
    Times28(x);
    Times28(x % 16);
    Times28(1);
    FourBits(result, x);
    FourBits(0, x);
    OrDisjoint(result, x % 16, 28);
  }

  lemma {:induction false} ReadsSum(buffer: seq<Byte>, offset: nat, consumed: nat, result: Bits, bytes: seq<Byte>)
    requires Continued(bytes) && consumed + |bytes| <= 5 && result < Times2(1, 7 * consumed)
    requires offset + consumed + |bytes| <= |buffer| && buffer[offset + consumed..][..|bytes|] == bytes
    ensures ReadOn(buffer, offset, consumed, result).1 == consumed + |bytes|
    ensures ReadOn(buffer, offset, consumed, result).0
        == (result + Times2(Sum(bytes), 7 * consumed)) % 0x1_0000_0000
    decreases |bytes|
  {
    hide Accumulate, Times2;
    var byte, rest := bytes[0], bytes[1..];
    assert buffer[offset + consumed] == buffer[offset + consumed..][..|bytes|][0] == byte;
    if consumed == 4 {
      Times28(1);
      Times28(Sum(bytes));
      AccumulateLast(result, byte);
      assert rest == [];
    } else {
      AccumulateEarly(result, byte, consumed);
      Times2Seven(Sum(rest), 7 * consumed);
      Times2Plus(byte % 128, 128 * Sum(rest), 7 * consumed);
      if rest == [] {
        NoneLeft(7 * consumed);
      } else {
        assert buffer[offset + consumed + 1..][..|rest|] == rest;
        ReadsSum(buffer, offset, consumed + 1, Accumulate(result, byte, consumed), rest);
      }
    }
  }

  /** What is read from up to five bytes, also where fewer would have done: their seven bits each, the lowest first,
      cut off to 32 bits and taken as a signed integer. */
  lemma {:induction false} ReadLowBitsFirst(before: seq<Byte>, bytes: seq<Byte>, after: seq<Byte>)
    requires Continued(bytes) && |bytes| <= 5
    ensures var (bits, consumed) := ReadOn(before + bytes + after, |before|, 0, 0);
      var sum := Sum(bytes) % 0x1_0000_0000;
      consumed == |bytes| && FromBits(bits) == if sum < 0x8000_0000 then sum else sum - 0x1_0000_0000
  {
    hide ReadOn;
    var buffer := before + bytes + after;
    assert buffer[|before|..][..|bytes|] == bytes;
    ReadsSum(buffer, |before|, 0, 0, bytes);
  }

  /** Beyond the fifth byte shifts start again: the seven bits of a sixth byte come to stand at the fourth bit. */
  lemma {:induction false} SixthByteWraps(byte: Byte)
    requires byte < 128
    ensures ReadOn([128, 128, 128, 128, 128, byte], 0, 0, 0) == (8 * byte, 6)
  {
    var buffer := [128, 128, 128, 128, 128, byte];
    hide Or, BitOr;
    NoBits();
    assert Times2(byte, 1) == 2 * byte && Times2(byte, 2) == 4 * byte && Times2(byte, 3) == 8 * byte;
    OrDisjoint(0, byte, 3);
    assert Accumulate(0, byte, 5) == 8 * byte;
    assert ReadOn(buffer, 0, 5, 0) == (8 * byte, 6);
    assert ReadOn(buffer, 0, 4, 0) == (8 * byte, 6);
    assert ReadOn(buffer, 0, 3, 0) == (8 * byte, 6);
    assert ReadOn(buffer, 0, 2, 0) == (8 * byte, 6);
    assert ReadOn(buffer, 0, 1, 0) == (8 * byte, 6);
  }

  lemma {:induction false} NoBits()
    ensures forall consumed: nat :: Accumulate(0, 128, consumed) == 0
  {
    forall consumed: nat ensures Accumulate(0, 128, consumed) == 0 {
      NoneLeft(consumed * 7 % 32);
    }
  }

  // ---- Lists of integers, one behind the other ----

  predicate AllInt32(values: seq<int>) { forall k :: 0 <= k < |values| ==> IsInt32(values[k]) }

  function EncodedAll(values: seq<int>): seq<Byte>
    requires AllInt32(values)
  {
    if values == [] then [] else Encoded(ToBits(values[0])) + EncodedAll(values[1..])
  }

  /** Reads that many integers, each where the one before it ended; and where the last one ends. */
  function ReadAll(buffer: seq<Byte>, offset: nat, count: nat): (seq<int>, nat)
    decreases count
  {
    if count == 0 then ([], offset)
    else
      var (bits, consumed) := ReadOn(buffer, offset, 0, 0);
      var (values, end) := ReadAll(buffer, offset + consumed, count - 1);
      ([FromBits(bits)] + values, end)
  }

  lemma {:induction false} WrittenAreRead(values: seq<int>, before: seq<Byte>, after: seq<Byte>)
    requires AllInt32(values)
    ensures ReadAll(before + EncodedAll(values) + after, |before|, |values|) == (values, |before + EncodedAll(values)|)
    decreases |values|
  {
    hide ToBits, FromBits, ReadOn, Encoded;
    if values != [] {
      var bytes, rest := Encoded(ToBits(values[0])), EncodedAll(values[1..]);
      WrittenIsRead(values[0], before, rest + after);
      assert before + bytes + (rest + after) == before + EncodedAll(values) + after;
      WrittenAreRead(values[1..], before + bytes, after);
      assert before + bytes + rest + after == before + EncodedAll(values) + after;
      assert before + bytes + rest == before + EncodedAll(values);
      assert values == [values[0]] + values[1..];
    }
  }

  // ---- The two loops ----

  method ReadVariableLengthQuantity(buffer: seq<Byte>, offset: nat) returns (value: int, consumed: nat)
    ensures consumed == ReadOn(buffer, offset, 0, 0).1 && value == FromBits(ReadOn(buffer, offset, 0, 0).0)
    ensures forall k :: offset <= k < offset + consumed - 1 ==> More(ReadUInt8(buffer, k))
    ensures consumed >= 1 && !More(ReadUInt8(buffer, offset + consumed - 1))
  {
    hide Accumulate, FromBits;
    consumed := 0;
    var byte := ReadUInt8(buffer, offset + consumed);
    var result := Accumulate(0, byte, consumed);
    consumed := consumed + 1;
    while More(byte)
      invariant consumed >= 1 && byte == ReadUInt8(buffer, offset + consumed - 1)
      invariant ReadOn(buffer, offset, 0, 0)
          == if More(byte) then ReadOn(buffer, offset, consumed, result) else (result, consumed)
      invariant forall k :: offset <= k < offset + consumed - 1 ==> More(ReadUInt8(buffer, k))
      decreases |buffer| + 1 - (offset + consumed)
    {
      byte := ReadUInt8(buffer, offset + consumed);
      result := Accumulate(result, byte, consumed);
      consumed := consumed + 1;
    }
    value := FromBits(result);
  }

  method WriteVariableLengthQuantity(i: int) returns (r: Result<seq<Byte>>)
    ensures !IsInt32(i) ==> r.Error?
    ensures IsInt32(i) ==> r == Ok(Encoded(ToBits(i))) && 1 <= |r.value| <= 5
  {
    if !IsInt32(i) {
      return Error("not an int32");
    }
    EncodedSize(ToBits(i));
    var bits := ToBits(i);
    var byte: Byte := bits % 128;
    bits := bits / 128;
    if bits != 0 {
      byte := byte + 128;
    }
    var result := [byte];
    while bits != 0
      invariant 0 <= bits < 0x1_0000_0000
      invariant Encoded(ToBits(i)) == if bits == 0 then result else result + Encoded(bits)
    {
      byte := bits % 128;
      bits := bits / 128;
      if bits != 0 {
        byte := byte + 128;
      }
      result := result + [byte];
    }
    r := Ok(result);
  }
}
