// The table-driven CRC-32 that guards log fragments and table blocks. Models src/crc32.cpp:50-66.
module Crc32 {
  import opened Types

  const Polynomial: bv32 := 0xEDB8_8320
  const Ones: bv32 := 0xFFFF_FFFF

  // A byte in a 32-bit register, built from its bits.
  function ToBv(b: byte): bv32 {
    Bits(b, 8)
  }

  function Bits(b: nat, n: nat): bv32 {
    if n == 0 then 0 else AddBit(b % 2 == 1, Bits(b / 2, n - 1))
  }

  function AddBit(low: bool, x: bv32): bv32 {
    (if low then 1 else 0) | (x << 1)
  }

  function Xor(x: bv32, y: bv32): bv32 { x ^ y }
  function Low(x: bv32): bv32 { x & 0xFF }
  function Down(x: bv32): bv32 { x >> 8 }
  function Up(x: bv32): bv32 { x << 8 }

  // x fits in n bytes.
  predicate FitsIn(x: bv32, n: nat) {
    match n
    case 0 => x == 0
    case 1 => x & 0xFF == x
    case 2 => x & 0xFFFF == x
    case 3 => x & 0x00FF_FFFF == x
    case _ => true
  }

  // ---------------------------------------------------------------- the reference: bit by bit

  // One step of reflected polynomial division (section 8 of RFC 1952): shift out the low bit.
  function Shift(c: bv32): bv32 {
    if c & 1 == 1 then Polynomial ^ (c >> 1) else c >> 1
  }

  function ShiftTimes(c: bv32, n: nat): bv32 {
    if n == 0 then c else Shift(ShiftTimes(c, n - 1))
  }

  // Divide by one more message byte: its bits enter at the low end, low bit first.
  function Divide(r: bv32, b: byte): bv32 {
    ShiftTimes(Xor(r, ToBv(b)), 8)
  }

  function Remainder(r: bv32, data: Bytes): bv32 {
    if data == [] then r else Divide(Remainder(r, data[..|data| - 1]), data[|data| - 1])
  }

  // The checksum: all ones in, complement out.
  function Crc(data: Bytes, initial: bv32): bv32 {
    Xor(Remainder(Xor(initial, Ones), data), Ones)
  }

  // The checksum of a whole body as the number that is stored beside it.
  function Checksum(data: Bytes): uint32 {
    NumberFits(Crc(data, 0));
    Crc(data, 0) as int
  }

  // ---------------------------------------------------------------- numbers and bit vectors

  lemma {:induction false} NumberFits(v: bv32)
    ensures 0 <= v as int < 0x1_0000_0000
  {
  }

  lemma {:induction false} NumberRoundTrip(v: bv32)
    ensures (v as int) as bv32 == v
  {
  }

  // The low n bits.
  function Mask(n: nat): bv32 {
    if n == 0 then 0 else AddBit(true, Mask(n - 1))
  }

  predicate Under(x: bv32, mask: bv32) {
    x & mask == x
  }

  predicate Within(x: bv32, n: nat) {
    Under(x, Mask(n))
  }

  lemma {:induction false} NothingWithin()
    ensures Within(0, 0)
  {
  }

  lemma {:induction false} AddBitFits(low: bool, x: bv32, n: nat)
    requires Within(x, n)
    ensures Within(AddBit(low, x), n + 1)
  {
  }

  lemma {:induction false} BitsFit(b: nat, n: nat)
    ensures Within(Bits(b, n), n)
  {
    hide AddBit, Within;
    if n == 0 {
      NothingWithin();
    } else {
      BitsFit(b / 2, n - 1);
      AddBitFits(b % 2 == 1, Bits(b / 2, n - 1), n - 1);
    }
  }

  lemma {:induction false} WiderMask(m: bv32, n: bv32)
    requires Under(m, n)
    ensures Under(AddBit(true, m), AddBit(true, n))
  {
  }

  lemma {:induction false} NothingUnder(mask: bv32)
    ensures Under(0, mask)
  {
  }

  lemma {:induction false} MasksNest(n: nat, k: nat)
    ensures Under(Mask(n), Mask(n + k))
  {
    hide AddBit, Under;
    if n == 0 {
      NothingUnder(Mask(k));
    } else {
      MasksNest(n - 1, k);
      WiderMask(Mask(n - 1), Mask(n + k - 1));
    }
  }

  lemma {:induction false} MaskValues()
    ensures Mask(8) == 0xFF && Mask(24) == 0xFF_FFFF && Mask(31) == 0x7FFF_FFFF
  {
    assert Mask(2) == 3;
    assert Mask(4) == 0xF;
    assert Mask(6) == 0x3F;
    assert Mask(8) == 0xFF;
    assert Mask(10) == 0x3FF;
    assert Mask(12) == 0xFFF;
    assert Mask(14) == 0x3FFF;
    assert Mask(16) == 0xFFFF;
    assert Mask(18) == 0x3_FFFF;
    assert Mask(20) == 0xF_FFFF;
    assert Mask(22) == 0x3F_FFFF;
    assert Mask(24) == 0xFF_FFFF;
    assert Mask(26) == 0x3FF_FFFF;
    assert Mask(28) == 0xFFF_FFFF;
    assert Mask(30) == 0x3FFF_FFFF;
  }

  lemma {:induction false} UnderTransitive(x: bv32, m: bv32, n: bv32)
    requires Under(x, m) && Under(m, n)
    ensures Under(x, n)
  {
  }

  // Below 32 bits nothing is shifted out.
  lemma {:induction false} BelowTop(x: bv32, n: nat)
    requires n < 32 && Within(x, n)
    ensures Under(x, 0x7FFF_FFFF)
  {
    hide AddBit, Mask, Under;
    MasksNest(n, 31 - n);
    MaskValues();
    UnderTransitive(x, Mask(n), Mask(31));
  }

  lemma {:induction false} SameTopBit(p: bool, q: bool, x: bv32, y: bv32)
    requires Under(x, 0x7FFF_FFFF) && Under(y, 0x7FFF_FFFF) && AddBit(p, x) == AddBit(q, y)
    ensures p == q && x == y
  {
  }

  lemma {:induction false} SameBit(p: bool, q: bool, x: bv32, y: bv32, n: nat)
    requires n < 32 && Within(x, n) && Within(y, n) && AddBit(p, x) == AddBit(q, y)
    ensures p == q && x == y
  {
    hide AddBit, Within;
    BelowTop(x, n);
    BelowTop(y, n);
    SameTopBit(p, q, x, y);
  }

  lemma {:induction false} BitsAgree(a: nat, b: nat, n: nat)
    requires n <= 32 && a < Pow2(n) && b < Pow2(n) && Bits(a, n) == Bits(b, n)
    ensures a == b
  {
    hide AddBit, Within;
    if n > 0 {
      BitsFit(a / 2, n - 1);
      BitsFit(b / 2, n - 1);
      SameBit(a % 2 == 1, b % 2 == 1, Bits(a / 2, n - 1), Bits(b / 2, n - 1), n - 1);
      BitsAgree(a / 2, b / 2, n - 1);
    }
  }

  lemma {:induction false} ByteFits(b: byte)
    ensures FitsIn(ToBv(b), 1)
  {
    hide Bits, Mask;
    BitsFit(b, 8);
    MaskValues();
  }

  lemma {:induction false} BytesAgree(a: byte, b: byte)
    requires ToBv(a) == ToBv(b)
    ensures a == b
  {
    assert Pow2(4) == 16 by { assert Pow2(2) == 4; }
    assert Pow2(6) == 64;
    BitsAgree(a, b, 8);
  }

  // ---------------------------------------------------------------- the division is linear and reversible

  lemma {:induction false} XorLaws(p: bv32, x: bv32, y: bv32)
    ensures (p ^ x) ^ (p ^ y) == x ^ y
    ensures (p ^ x) ^ y == p ^ (x ^ y)
    ensures x ^ (p ^ y) == p ^ (x ^ y)
  {
  }

  lemma {:induction false} ShiftLinear(x: bv32, y: bv32)
    ensures Shift(x ^ y) == Shift(x) ^ Shift(y)
  {
    assert ((x ^ y) & 1 == 1) == ((x & 1 == 1) != (y & 1 == 1));
    assert (x ^ y) >> 1 == (x >> 1) ^ (y >> 1);
    XorLaws(Polynomial, x >> 1, y >> 1);
  }

  lemma {:induction false} ShiftOfXor(x: bv32, y: bv32)
    ensures Shift(Xor(x, y)) == Xor(Shift(x), Shift(y))
  {
    hide Shift;
    ShiftLinear(x, y);
  }

  lemma {:induction false} ShiftReversible(x: bv32, y: bv32)
    requires Shift(x) == Shift(y)
    ensures x == y
  {
  }

  lemma {:induction false} ShiftTimesLinear(x: bv32, y: bv32, n: nat)
    ensures ShiftTimes(Xor(x, y), n) == Xor(ShiftTimes(x, n), ShiftTimes(y, n))
  {
    hide Shift, Xor;
    if n > 0 {
      ShiftTimesLinear(x, y, n - 1);
      ShiftOfXor(ShiftTimes(x, n - 1), ShiftTimes(y, n - 1));
    }
  }

  lemma {:induction false} ShiftTimesReversible(x: bv32, y: bv32, n: nat)
    requires ShiftTimes(x, n) == ShiftTimes(y, n)
    ensures x == y
  {
    hide Shift;
    if n > 0 {
      ShiftReversible(ShiftTimes(x, n - 1), ShiftTimes(y, n - 1));
      ShiftTimesReversible(x, y, n - 1);
    }
  }

  // A register whose low byte is clear just moves down.
  lemma {:induction false} ClearByteMoves(x: bv32)
    requires Low(x) == 0
    ensures ShiftTimes(x, 8) == Down(x)
  {
    hide Shift, Low, Down;
    EightSteps(x);
    ClearBits(x);
  }

  lemma {:induction false} EightSteps(c: bv32)
    ensures ShiftTimes(c, 8) == Shift(Shift(Shift(Shift(Shift(Shift(Shift(Shift(c))))))))
  {
    hide Shift;
    assert ShiftTimes(c, 1) == Shift(c);
    assert ShiftTimes(c, 2) == Shift(Shift(c));
    assert ShiftTimes(c, 3) == Shift(Shift(Shift(c)));
    assert ShiftTimes(c, 4) == Shift(Shift(Shift(Shift(c))));
    assert ShiftTimes(c, 5) == Shift(ShiftTimes(c, 4));
    assert ShiftTimes(c, 6) == Shift(Shift(ShiftTimes(c, 4)));
    assert ShiftTimes(c, 7) == Shift(Shift(Shift(ShiftTimes(c, 4))));
  }

  lemma {:induction false} ClearBits(x: bv32)
    requires Low(x) == 0
    ensures Shift(Shift(Shift(Shift(Shift(Shift(Shift(Shift(x)))))))) == Down(x)
  {
  }

  // ---------------------------------------------------------------- the table-driven loop

  lemma {:induction false} SplitLowByte(x: bv32)
    ensures x == Xor(Low(x), x & 0xFFFF_FF00)
    ensures Low(x & 0xFFFF_FF00) == 0
    ensures Down(x & 0xFFFF_FF00) == Down(x)
  {
  }

  lemma {:induction false} LowByteOnly(r: bv32, x: bv32)
    requires FitsIn(x, 1)
    ensures Down(Xor(r, x)) == Down(r)
  {
  }

  // One table lookup does the work of eight division steps.
  lemma {:induction false} LookupDivides(r: bv32, b: byte)
    ensures Divide(r, b) == Xor(ShiftTimes(Low(Xor(r, ToBv(b))), 8), Down(r))
  {
    hide ShiftTimes, Xor, Low, Down, ToBv, FitsIn;
    var x := Xor(r, ToBv(b));
    var high := x & 0xFFFF_FF00;
    SplitLowByte(x);
    ShiftTimesLinear(Low(x), high, 8);
    ClearByteMoves(high);
    ByteFits(b);
    LowByteOnly(r, ToBv(b));
  }

  lemma {:induction false} LowByteIndex(x: bv32)
    ensures 0 <= Low(x) as int < 256
    ensures (Low(x) as int) as bv32 == Low(x)
  {
    NumberRoundTrip(x & 0xFF);
  }

  method MakeTable() returns (table: array<bv32>)
    ensures fresh(table) && table.Length == 256
    ensures forall i: int :: 0 <= i < 256 ==> table[i] == ShiftTimes(i as bv32, 8)
  {
    hide Shift;
    table := new bv32[256];
    for i := 0 to 256
      invariant forall k: int :: 0 <= k < i ==> table[k] == ShiftTimes(k as bv32, 8)
    {
      var c := ShiftByte(i as bv32);
      table[i] := c;
    }
  }

  // The inner loop: one table entry.
  method ShiftByte(first: bv32) returns (c: bv32)
    ensures c == ShiftTimes(first, 8)
  {
    c := first;
    for j := 0 to 8
      invariant c == ShiftTimes(first, j)
    {
      if c & 1 == 1 {
        c := Polynomial ^ (c >> 1);
      } else {
        c := c >> 1;
      }
    }
  }

  // Crc32(data, len, crc).
  method Compute(data: Bytes, crc: bv32) returns (result: bv32)
    ensures result == Crc(data, crc)
  {
    hide ShiftTimes, Divide, ToBv, Low, Down, Xor;
    var table := MakeTable();
    var r := Xor(crc, Ones);
    for i := 0 to |data|
      invariant r == Remainder(Xor(crc, Ones), data[..i])
      modifies {}
    {
      LookupDivides(r, data[i]);
      var low := Low(Xor(r, ToBv(data[i])));
      LowByteIndex(Xor(r, ToBv(data[i])));
      assert table[low as int] == ShiftTimes(low, 8);
      r := Xor(table[low as int], Down(r));
      assert data[..i + 1][..i] == data[..i];
    }
    assert data[..|data|] == data;
    result := Xor(r, Ones);
  }

  // ---------------------------------------------------------------- chaining

  lemma {:induction false} RemainderConcat(r: bv32, a: Bytes, b: Bytes)
    ensures Remainder(r, a + b) == Remainder(Remainder(r, a), b)
  {
    hide Divide;
    if b == [] {
      assert a + b == a;
    } else {
      RemainderConcat(r, a, b[..|b| - 1]);
      assert (a + b)[..|a + b| - 1] == a + b[..|b| - 1];
    }
  }

  lemma {:induction false} XorTwice(x: bv32, y: bv32)
    ensures Xor(Xor(x, y), y) == x
  {
  }

  // Checksumming in pieces: the checksum so far is the initial value of the next piece.
  lemma {:induction false} CrcConcat(a: Bytes, b: Bytes, initial: bv32)
    ensures Crc(a + b, initial) == Crc(b, Crc(a, initial))
  {
    hide Remainder, Xor;
    RemainderConcat(Xor(initial, Ones), a, b);
    XorTwice(Remainder(Xor(initial, Ones), a), Ones);
  }

  // ---------------------------------------------------------------- the residue

  // The low n bits of b below the bits of x.
  function AddBits(b: nat, n: nat, x: bv32): bv32 {
    if n == 0 then x else AddBit(b % 2 == 1, AddBits(b / 2, n - 1, x))
  }

  lemma {:induction false} EvenNumber(x: bv32)
    requires x & 0x7FFF_FFFF == x
    ensures (0 | (x << 1)) as int == 2 * (x as int)
  {
  }

  lemma {:induction false} OddNumber(x: bv32)
    requires x & 0x7FFF_FFFF == x
    ensures (1 | (x << 1)) as int == 2 * (x as int) + 1
  {
  }

  lemma {:induction false} AddBitDoubles(low: bool, x: bv32)
    requires Under(x, 0x7FFF_FFFF)
    ensures AddBit(low, x) as int == 2 * (x as int) + if low then 1 else 0
  {
    if low {
      OddNumber(x);
    } else {
      EvenNumber(x);
    }
  }

  lemma {:induction false} DoubledSum(b: nat, p: int, v: int)
    ensures 2 * (b / 2 + p * v) + b % 2 == b + (2 * p) * v
  {
  }

  lemma {:induction false} AddBitsNumber(b: nat, n: nat, x: bv32, k: nat)
    requires n + k <= 32 && Within(x, k) && b < Pow2(n)
    ensures AddBits(b, n, x) as int == b + Pow2(n) * (x as int) && Within(AddBits(b, n, x), n + k)
  {
    hide AddBit, Within, Under, Mask;
    if n > 0 {
      var y := AddBits(b / 2, n - 1, x);
      AddBitsNumber(b / 2, n - 1, x, k);
      BelowTop(y, n - 1 + k);
      AddBitDoubles(b % 2 == 1, y);
      AddBitFits(b % 2 == 1, y, n - 1 + k);
      DoubledSum(b, Pow2(n - 1), x as int);
    }
  }

  lemma {:induction false} AddByteNumber(b: byte, x: bv32, k: nat)
    requires k <= 24 && Within(x, k)
    ensures AddBits(b, 8, x) as int == b + 256 * (x as int) && Within(AddBits(b, 8, x), k + 8)
  {
    hide AddBits, Within;
    assert Pow2(8) == 256 by { assert Pow2(4) == 16; assert Pow2(6) == 64; }
    AddBitsNumber(b, 8, x, k);
  }

  function DoubleTimes(x: bv32, n: nat): bv32 {
    if n == 0 then x else AddBit(false, DoubleTimes(x, n - 1))
  }

  lemma {:induction false} AddBitToXor(low: bool, x: bv32, y: bv32)
    ensures AddBit(low, Xor(x, y)) == Xor(AddBit(low, x), AddBit(false, y))
  {
  }

  lemma {:induction false} ZeroXor(x: bv32)
    ensures Xor(0, x) == x
  {
  }

  lemma {:induction false} AddBitsIsXor(b: nat, n: nat, x: bv32)
    ensures AddBits(b, n, x) == Xor(Bits(b, n), DoubleTimes(x, n))
  {
    hide AddBit, Xor;
    if n == 0 {
      ZeroXor(x);
    } else {
      AddBitsIsXor(b / 2, n - 1, x);
      AddBitToXor(b % 2 == 1, Bits(b / 2, n - 1), DoubleTimes(x, n - 1));
    }
  }

  lemma {:induction false} EightDoublings(x: bv32)
    ensures DoubleTimes(x, 8) == Up(x)
  {
    hide Up, AddBit;
    assert DoubleTimes(x, 1) == AddBit(false, x);
    assert DoubleTimes(x, 2) == AddBit(false, AddBit(false, x));
    assert DoubleTimes(x, 4) == AddBit(false, AddBit(false, DoubleTimes(x, 2)));
    assert DoubleTimes(x, 6) == AddBit(false, AddBit(false, DoubleTimes(x, 4)));
    DoubledBits(x);
  }

  lemma {:induction false} DoubledBits(x: bv32)
    ensures AddBit(false, AddBit(false, AddBit(false, AddBit(false, AddBit(false, AddBit(false, AddBit(false,
              AddBit(false, x)))))))) == Up(x)
  {
  }

  // The register that holds four bytes, the first of them lowest.
  function Word(w: Bytes): bv32
    requires |w| == 4
  {
    AddBits(w[0], 8, AddBits(w[1], 8, AddBits(w[2], 8, AddBits(w[3], 8, 0))))
  }

  // The number that four bytes hold, the first of them lowest.
  function Number(w: Bytes): int
    requires |w| == 4
  {
    (w[0] as int) + 0x100 * (w[1] as int) + 0x1_0000 * (w[2] as int) + 0x100_0000 * (w[3] as int)
  }

  lemma {:induction false} WordNumber(w: Bytes)
    requires |w| == 4
    ensures Word(w) as int == Number(w)
  {
    hide AddBits, Within;
    NothingWithin();
    AddByteNumber(w[3], 0, 0);
    AddByteNumber(w[2], AddBits(w[3], 8, 0), 8);
    AddByteNumber(w[1], AddBits(w[2], 8, AddBits(w[3], 8, 0)), 16);
    AddByteNumber(w[0], AddBits(w[1], 8, AddBits(w[2], 8, AddBits(w[3], 8, 0))), 24);
  }

  lemma {:induction false} ShiftTimesAdds(c: bv32, m: nat, n: nat)
    ensures ShiftTimes(ShiftTimes(c, m), n) == ShiftTimes(c, m + n)
  {
    hide Shift;
    if n > 0 {
      ShiftTimesAdds(c, m, n - 1);
    }
  }

  // Dividing by a byte now or, moved up, together with the register before it is the same.
  lemma {:induction false} DivideLater(r: bv32, b: byte, x: bv32, n: nat)
    requires FitsIn(x, 3)
    ensures ShiftTimes(Xor(Divide(r, b), x), n) == ShiftTimes(Xor(r, AddBits(b, 8, x)), 8 + n)
  {
    hide ShiftTimes, Xor, Up, Down, Low, FitsIn, AddBits, ToBv, DoubleTimes;
    var y := Xor(r, ToBv(b));
    AddBitsIsXor(b, 8, x);
    EightDoublings(x);
    ToBvIsBits(b);
    XorGroups(r, ToBv(b), Up(x));
    ShiftTimesLinear(y, Up(x), 8);
    UpThenDown(x);
    UpClears(x);
    ClearByteMoves(Up(x));
    ShiftTimesAdds(Xor(y, Up(x)), 8, n);
  }

  lemma {:induction false} ToBvIsBits(b: byte)
    ensures ToBv(b) == Bits(b, 8)
  {
  }

  lemma {:induction false} WithinFits(x: bv32)
    ensures Within(x, 24) ==> FitsIn(x, 3)
  {
    hide Mask;
    MaskValues();
  }

  // Four bytes are divided by as one register.
  lemma {:induction false} RemainderOfWord(r: bv32, w: Bytes)
    requires |w| == 4
    ensures Remainder(r, w) == ShiftTimes(Xor(r, Word(w)), 32)
  {
    hide ShiftTimes, Xor, AddBits, Within, FitsIn, Divide;
    var x3 := AddBits(w[3], 8, 0);
    var x2 := AddBits(w[2], 8, x3);
    var x1 := AddBits(w[1], 8, x2);
    WordFits(w);
    var r1 := Divide(r, w[0]);
    var r2 := Divide(r1, w[1]);
    var r3 := Divide(r2, w[2]);
    RemainderSteps(r, w);
    XorNothing(Divide(r3, w[3]));
    DivideLater(r3, w[3], 0, 0);
    DivideLater(r2, w[2], x3, 8);
    DivideLater(r1, w[1], x2, 16);
    DivideLater(r, w[0], x1, 24);
    NoShift(Xor(Divide(r3, w[3]), 0));
  }

  lemma {:induction false} NoShift(c: bv32)
    ensures ShiftTimes(c, 0) == c
  {
  }

  lemma {:induction false} XorNothing(x: bv32)
    ensures Xor(x, 0) == x
  {
  }

  lemma {:induction false} RemainderSteps(r: bv32, w: Bytes)
    requires |w| == 4
    ensures Remainder(r, w) == Divide(Divide(Divide(Divide(r, w[0]), w[1]), w[2]), w[3])
  {
    hide Divide;
    RemainderFirst(r, w);
    RemainderFirst(Divide(r, w[0]), w[1..]);
    RemainderFirst(Divide(Divide(r, w[0]), w[1]), w[1..][1..]);
    RemainderFirst(Divide(Divide(Divide(r, w[0]), w[1]), w[2]), w[1..][1..][1..]);
    assert w[1..][1..][1..][1..] == [];
  }

  lemma {:induction false} WordFits(w: Bytes)
    requires |w| == 4
    ensures FitsIn(0, 3) && FitsIn(AddBits(w[3], 8, 0), 3) && FitsIn(AddBits(w[2], 8, AddBits(w[3], 8, 0)), 3)
            && FitsIn(AddBits(w[1], 8, AddBits(w[2], 8, AddBits(w[3], 8, 0))), 3)
  {
    hide AddBits, Within, FitsIn;
    NothingWithin();
    WidenTo24(0, 0);
    AddByteNumber(w[3], 0, 0);
    WidenTo24(AddBits(w[3], 8, 0), 8);
    AddByteNumber(w[2], AddBits(w[3], 8, 0), 8);
    WidenTo24(AddBits(w[2], 8, AddBits(w[3], 8, 0)), 16);
    AddByteNumber(w[1], AddBits(w[2], 8, AddBits(w[3], 8, 0)), 16);
    WidenTo24(AddBits(w[1], 8, AddBits(w[2], 8, AddBits(w[3], 8, 0))), 24);
  }

  lemma {:induction false} WidenTo24(x: bv32, n: nat)
    requires n <= 24 && Within(x, n)
    ensures FitsIn(x, 3)
  {
    hide Mask, Under, FitsIn;
    MasksNest(n, 24 - n);
    UnderTransitive(x, Mask(n), Mask(24));
    WithinFits(x);
  }

  lemma {:induction false} OnesShifted()
    ensures ShiftTimes(Ones, 32) == 0xDEBB_20E3
  {
    hide Shift;
    EightSteps(Ones);
    FirstEight();
    EightSteps(0x2DFD_1072);
    SecondEight();
    EightSteps(0xBE26_ED00);
    ThirdEight();
    EightSteps(0x00BE_26ED);
    FourthEight();
    ShiftTimesAdds(Ones, 8, 8);
    ShiftTimesAdds(Ones, 16, 8);
    ShiftTimesAdds(Ones, 24, 8);
  }

  lemma {:induction false} FirstEight()
    ensures Shift(Shift(Shift(Shift(Shift(Shift(Shift(Shift(Ones)))))))) == 0x2DFD_1072
  {
  }

  lemma {:induction false} SecondEight()
    ensures Shift(Shift(Shift(Shift(Shift(Shift(Shift(Shift(0x2DFD_1072)))))))) == 0xBE26_ED00
  {
  }

  lemma {:induction false} ThirdEight()
    ensures Shift(Shift(Shift(Shift(Shift(Shift(Shift(Shift(0xBE26_ED00)))))))) == 0x00BE_26ED
  {
  }

  lemma {:induction false} FourthEight()
    ensures Shift(Shift(Shift(Shift(Shift(Shift(Shift(Shift(0x00BE_26ED)))))))) == 0xDEBB_20E3
  {
  }

  lemma {:induction false} WithComplement(r: bv32)
    ensures Xor(r, Xor(r, 0xFFFF_FFFF)) == 0xFFFF_FFFF && Xor(0xDEBB_20E3, 0xFFFF_FFFF) == 0x2144_DF1C
  {
  }

  lemma {:induction false} SameNumber(v: bv32, w: bv32)
    requires v as int == w as int
    ensures v == w
  {
    NumberRoundTrip(v);
    NumberRoundTrip(w);
  }

  // The residue of CRC-32: a body followed by its own checksum, low byte first, always has the same checksum. And the
  // checksum of nothing is 0.
  lemma {:induction false} Residue(body: Bytes, stored: Bytes)
    requires |stored| == 4
    requires Number(stored) == Checksum(body)
    ensures Checksum(body + stored) == 0x2144_DF1C
    ensures Checksum([]) == 0
  {
    hide Remainder, Xor, ShiftTimes, Word;
    var r := Remainder(Xor(0, Ones), body);
    WordNumber(stored);
    SameNumber(Word(stored), Crc(body, 0));
    RemainderConcat(Xor(0, Ones), body, stored);
    RemainderOfWord(r, stored);
    WithComplement(r);
    OnesShifted();
    ChecksumOfNothing();
  }

  lemma {:induction false} ChecksumOfNothing()
    ensures Checksum([]) == 0
  {
    ZeroXor(Ones);
    XorTwice(0, Ones);
  }

  // ---------------------------------------------------------------- damage inside four bytes is always seen

  lemma {:induction false} SameSuffix(x: bv32, y: bv32, s: Bytes)
    requires Remainder(x, s) == Remainder(y, s)
    ensures x == y
  {
    hide ShiftTimes, Xor, ToBv;
    if s != [] {
      var b := ToBv(s[|s| - 1]);
      var p, q := Remainder(x, s[..|s| - 1]), Remainder(y, s[..|s| - 1]);
      ShiftTimesReversible(Xor(p, b), Xor(q, b), 8);
      XorTwice(p, b);
      XorTwice(q, b);
      SameSuffix(x, y, s[..|s| - 1]);
    }
  }

  lemma {:induction false} RemainderFirst(r: bv32, data: Bytes)
    requires data != []
    ensures Remainder(r, data) == Remainder(Divide(r, data[0]), data[1..])
  {
    hide Divide;
    assert data == [data[0]] + data[1..];
    RemainderConcat(r, [data[0]], data[1..]);
    assert [data[0]][..0] == [];
  }

  lemma {:induction false} UpThenDown(d: bv32)
    requires FitsIn(d, 3)
    ensures Down(Up(d)) == d
  {
    hide Up, Down, FitsIn;
    DropTop(d);
    KeepLow(d);
  }

  lemma {:induction false} DropTop(d: bv32)
    ensures Down(Up(d)) == d & 0x00FF_FFFF
  {
  }

  lemma {:induction false} KeepLow(d: bv32)
    requires FitsIn(d, 3)
    ensures d & 0x00FF_FFFF == d
  {
  }

  lemma {:induction false} UpClears(d: bv32)
    ensures Low(Up(d)) == 0
  {
  }

  // One step backwards: registers that now differ by d < 2^24 came from registers that differed by 256 d.
  lemma {:induction false} StepBack(x: bv32, y: bv32, d: bv32)
    requires Xor(ShiftTimes(x, 8), ShiftTimes(y, 8)) == d && FitsIn(d, 3)
    ensures Xor(x, y) == Up(d)
  {
    hide ShiftTimes, Xor, Up, Down, Low, FitsIn;
    ShiftTimesLinear(x, y, 8);
    UpThenDown(d);
    UpClears(d);
    ClearByteMoves(Up(d));
    ShiftTimesReversible(Xor(x, y), Up(d), 8);
  }

  lemma {:induction false} DifferenceGrows(x: bv32, y: bv32, a: bv32, b: bv32, d: bv32, n: nat)
    requires n < 4 && FitsIn(d, n) && FitsIn(a, 1) && FitsIn(b, 1)
    requires Xor(Xor(x, a), Xor(y, b)) == Up(d)
    ensures FitsIn(Xor(x, y), n + 1)
    ensures x == y ==> a == b && d == 0
  {
    hide FitsIn, Xor, Up;
    var change := Xor(a, b);
    XorPairs(x, a, y, b);
    ByteChange(a, b);
    FitsInThree(d, n);
    GrowsByte(Xor(x, y), change, d, n);
    if x == y {
      EqualFits(x);
      NoChange(Xor(x, y), change, d);
      XorZero(a, b);
    }
  }

  lemma {:induction false} XorPairs(x: bv32, a: bv32, y: bv32, b: bv32)
    ensures Xor(Xor(x, a), Xor(y, b)) == Xor(Xor(x, y), Xor(a, b))
  {
    hide Xor;
    var yb := Xor(y, b);
    XorMoves(x, a, yb);                 // (x a) yb = (x yb) a
    XorMoves(x, y, b);                  // x yb = (x y) b
    XorMoves(Xor(x, y), a, b);          // ((x y) b) a = (x y) (a b)
  }

  lemma {:induction false} XorMoves(x: bv32, y: bv32, z: bv32)
    ensures Xor(Xor(x, y), z) == Xor(x, Xor(y, z))
    ensures Xor(Xor(x, y), z) == Xor(Xor(x, z), y)
  {
    hide Xor;
    XorGroups(x, y, z);
    XorSwaps(y, z);
    XorGroups(x, z, y);
  }

  lemma {:induction false} XorGroups(x: bv32, y: bv32, z: bv32)
    ensures Xor(Xor(x, y), z) == Xor(x, Xor(y, z))
  {
  }

  lemma {:induction false} XorSwaps(x: bv32, y: bv32)
    ensures Xor(x, y) == Xor(y, x)
  {
  }

  lemma {:induction false} ByteChange(a: bv32, b: bv32)
    requires FitsIn(a, 1) && FitsIn(b, 1)
    ensures FitsIn(Xor(a, b), 1)
  {
  }

  lemma {:induction false} GrowsByte(x: bv32, change: bv32, d: bv32, n: nat)
    requires n < 4 && FitsIn(d, n) && FitsIn(change, 1) && Xor(x, change) == Up(d)
    ensures FitsIn(x, n + 1)
  {
    match n { case 0 => case 1 => case 2 => case _ => }
  }

  lemma {:induction false} NoChange(x: bv32, change: bv32, d: bv32)
    requires FitsIn(x, 0) && FitsIn(change, 1) && FitsIn(d, 3) && Xor(x, change) == Up(d)
    ensures change == 0 && d == 0
  {
  }

  // Two inputs of n <= 4 bytes that end in the same register: the starts differ in at most n bytes, and if the
  // starts are equal so are the inputs.
  lemma {:induction false} SameEnd(x: bv32, y: bv32, u: Bytes, v: Bytes)
    requires |u| == |v| <= 4
    requires Remainder(x, u) == Remainder(y, v)
    ensures FitsIn(Xor(x, y), |u|)
    ensures x == y ==> u == v
    decreases |u|
  {
    hide ShiftTimes, Xor, FitsIn, ToBv;
    if u == [] {
      EqualFits(x);
    } else {
      RemainderFirst(x, u);
      RemainderFirst(y, v);
      var a, b := ToBv(u[0]), ToBv(v[0]);
      var p, q := Divide(x, u[0]), Divide(y, v[0]);
      SameEnd(p, q, u[1..], v[1..]);
      var d := Xor(p, q);
      FitsInThree(d, |u| - 1);
      StepBack(Xor(x, a), Xor(y, b), d);
      ByteFits(u[0]);
      ByteFits(v[0]);
      DifferenceGrows(x, y, a, b, d, |u| - 1);
      if x == y {
        BytesAgree(u[0], v[0]);
        XorZero(p, q);
        assert u == [u[0]] + u[1..] && v == [v[0]] + v[1..];
      }
    }
  }

  lemma {:induction false} EqualFits(x: bv32)
    ensures FitsIn(Xor(x, x), 0)
  {
  }

  lemma {:induction false} FitsInThree(d: bv32, n: nat)
    requires n < 4 && FitsIn(d, n)
    ensures FitsIn(d, 3)
  {
    match n { case 0 => case 1 => case 2 => case _ => }
  }

  lemma {:induction false} XorZero(p: bv32, q: bv32)
    requires Xor(p, q) == 0
    ensures p == q
  {
  }

  // Changing any bytes inside one window of at most four consecutive bytes changes the checksum.
  lemma {:induction false} ShortBurstIsSeen(before: Bytes, u: Bytes, v: Bytes, rest: Bytes, initial: bv32)
    requires |u| == |v| <= 4 && u != v
    ensures Crc(before + u + rest, initial) != Crc(before + v + rest, initial)
  {
    hide Remainder, Xor, FitsIn;
    var start := Xor(initial, Ones);
    var r := Remainder(start, before);
    var x, y := Remainder(r, u), Remainder(r, v);
    RemainderConcat(start, before, u);
    RemainderConcat(start, before, v);
    RemainderConcat(start, before + u, rest);
    RemainderConcat(start, before + v, rest);
    if Crc(before + u + rest, initial) == Crc(before + v + rest, initial) {
      XorTwice(Remainder(x, rest), Ones);
      XorTwice(Remainder(y, rest), Ones);
      SameSuffix(x, y, rest);
      SameEnd(r, r, u, v);
    }
  }

  lemma {:induction false} ShortBurstChangesChecksum(before: Bytes, u: Bytes, v: Bytes, rest: Bytes)
    requires |u| == |v| <= 4 && u != v
    ensures Checksum(before + u + rest) != Checksum(before + v + rest)
  {
    hide Crc;
    ShortBurstIsSeen(before, u, v, rest, 0);
    NumberRoundTrip(Crc(before + u + rest, 0));
    NumberRoundTrip(Crc(before + v + rest, 0));
  }
}
