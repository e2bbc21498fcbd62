/**
 The frame checksum of the spool. `Crc32` is the table-driven loop of the source;
 `Checksum` is the bit-serial shift register of ISO 3309 that section 8 of
 RFC 1952 refers to. The two agree on every byte string, and the register tells
 apart any two messages that differ only inside 32 consecutive bits.

 A 32-bit word is its sequence of bits, least significant first.
 */
module Crc {

  type Byte = n: int | 0 <= n < 256
  type Bytes = seq<Byte>
  type Word = w: seq<bool> | |w| == 32 witness Zeros(32)

  function Repeat(bit: bool, n: nat): (r: seq<bool>)
    ensures |r| == n && forall i :: 0 <= i < n ==> r[i] == bit
  {
    seq(n, _ => bit)
  }

  function Zeros(n: nat): seq<bool> { Repeat(false, n) }

  const ONES: Word := Repeat(true, 32)

  /** Bit k is the coefficient of degree 31 - k of the generator. */
  const POLYNOMIAL: Word := BitsOf(0xEDB8_8320)

  /** The low `n` bits of a machine word. */
  function BitsFrom(v: bv32, n: nat): (bits: seq<bool>)
    ensures |bits| == n
    decreases n
  {
    if n == 0 then [] else [Low(v)] + BitsFrom(Half(v), n - 1)
  }

  function Low(v: bv32): bool { v & 1 == 1 }

  function Half(v: bv32): bv32 { v >> 1 }

  function Sixteenth(v: bv32): bv32 { v >> 4 }

  function Mix(a: bv32, b: bv32): bv32 { a ^ b }

  function BitsOf(v: bv32): Word { BitsFrom(v, 32) }

  // ---- numbers and bits ----

  function Value(bits: seq<bool>): nat {
    if bits == [] then 0 else (if bits[0] then 1 else 0) + 2 * Value(bits[1..])
  }

  /** The low `n` bits of a number. */
  function Bits(v: nat, n: nat): (bits: seq<bool>)
    ensures |bits| == n
  {
    if n == 0 then [] else [v % 2 == 1] + Bits(v / 2, n - 1)
  }

  function Pow2(n: nat): nat {
    if n == 0 then 1 else 2 * Pow2(n - 1)
  }

  lemma {:induction false} ValueOfBits(v: nat, n: nat)
    requires v < Pow2(n)
    ensures Value(Bits(v, n)) == v
  {
    if n > 0 {
      ValueOfBits(v / 2, n - 1);
    }
  }

  lemma {:induction false} BitsOfValue(bits: seq<bool>)
    ensures Value(bits) < Pow2(|bits|)
    ensures Bits(Value(bits), |bits|) == bits
  {
    if bits != [] {
      BitsOfValue(bits[1..]);
    }
  }

  lemma FourHalves(v: bv32)
    ensures Half(Half(Half(Half(v)))) == Sixteenth(v)
  {}

  lemma NextBit(v: bv32, n: nat, i: nat)
    requires i < n
    ensures BitsFrom(v, n)[i] == if i == 0 then Low(v) else BitsFrom(Half(v), n - 1)[i - 1]
  {}

  lemma SkipFour(v: bv32, n: nat, i: nat)
    requires 4 <= i < n
    ensures BitsFrom(v, n)[i] == BitsFrom(Sixteenth(v), n - 4)[i - 4]
  {
    FourHalves(v);
    hide BitsFrom, Low, Half, Sixteenth;
    NextBit(v, n, i);
    NextBit(Half(v), n - 1, i - 1);
    NextBit(Half(Half(v)), n - 2, i - 2);
    NextBit(Half(Half(Half(v))), n - 3, i - 3);
  }

  lemma LowFour(v: bv32, n: nat)
    requires n >= 4
    ensures BitsFrom(v, n)[0] == Low(v) && BitsFrom(v, n)[1] == Low(Half(v))
    ensures BitsFrom(v, n)[2] == Low(Half(Half(v))) && BitsFrom(v, n)[3] == Low(Half(Half(Half(v))))
  {
    hide BitsFrom, Low, Half;
    NextBit(v, n, 0);
    NextBit(v, n, 1);
    NextBit(v, n, 2);
    NextBit(v, n, 3);
    NextBit(Half(v), n - 1, 0);
    NextBit(Half(v), n - 1, 1);
    NextBit(Half(v), n - 1, 2);
    NextBit(Half(Half(v)), n - 2, 0);
    NextBit(Half(Half(v)), n - 2, 1);
    NextBit(Half(Half(Half(v))), n - 3, 0);
  }

  /** The last of 32 bits. */
  lemma LastBit(v: bv32)
    ensures BitsOf(v)[31] == (v >> 31 == 1)
  {
    TopIs(v);
    hide BitsFrom, Low, Half, Sixteenth;
    var v1 := Sixteenth(v);
    var v2 := Sixteenth(v1);
    var v3 := Sixteenth(v2);
    var v4 := Sixteenth(v3);
    var v5 := Sixteenth(v4);
    var v6 := Sixteenth(v5);
    var v7 := Sixteenth(v6);
    SkipFour(v, 32, 31);
    SkipFour(v1, 28, 27);
    SkipFour(v2, 24, 23);
    SkipFour(v3, 20, 19);
    SkipFour(v4, 16, 15);
    SkipFour(v5, 12, 11);
    SkipFour(v6, 8, 7);
    LowFour(v7, 4);
  }

  lemma TopIs(v: bv32)
    ensures
      var v7 := Sixteenth(Sixteenth(Sixteenth(Sixteenth(Sixteenth(Sixteenth(Sixteenth(v)))))));
      Low(Half(Half(Half(v7)))) == (v >> 31 == 1)
  {}

  lemma TopBit()
    ensures POLYNOMIAL[31]
  {
    hide BitsFrom;
    LastBit(0xEDB8_8320);
  }

  // ---- the bit-serial register ----

  function Xor(a: seq<bool>, b: seq<bool>): (c: seq<bool>)
    requires |a| == |b|
    ensures |c| == |a| && forall i :: 0 <= i < |a| ==> c[i] == (a[i] != b[i])
  {
    seq(|a|, i requires 0 <= i < |a| => a[i] != b[i])
  }

  function ShiftRight(w: seq<bool>, n: nat): (r: seq<bool>)
    requires n <= |w|
    ensures |r| == |w|
  {
    w[n..] + Zeros(n)
  }

  /** One clock with message bit `bit`; the register shifts towards bit 0. */
  function Clock(c: Word, bit: bool): Word {
    if c[0] != bit then Xor(POLYNOMIAL, ShiftRight(c, 1)) else ShiftRight(c, 1)
  }

  function Register(c: Word, bits: seq<bool>): Word
    decreases |bits|
  {
    if bits == [] then c else Register(Clock(c, bits[0]), bits[1..])
  }

  function AllBits(p: Bytes): (bits: seq<bool>)
    ensures |bits| == 8 * |p|
  {
    if p == [] then [] else Bits(p[0], 8) + AllBits(p[1..])
  }

  /** Preset to ones, clocked through every bit of the message, complemented. */
  function Checksum(p: Bytes): nat {
    Value(Xor(Register(ONES, AllBits(p)), ONES))
  }

  lemma {:induction false} RegisterAppend(c: Word, u: seq<bool>, v: seq<bool>)
    ensures Register(c, u + v) == Register(Register(c, u), v)
    decreases |u|
  {
    if u == [] {
      assert u + v == v;
    } else {
      assert (u + v)[1..] == u[1..] + v;
      RegisterAppend(Clock(c, u[0]), u[1..], v);
    }
  }

  lemma {:induction false} AllBitsAppend(p: Bytes, q: Bytes)
    ensures AllBits(p + q) == AllBits(p) + AllBits(q)
  {
    if p == [] {
      assert p + q == q;
    } else {
      assert (p + q)[1..] == p[1..] + q;
      AllBitsAppend(p[1..], q);
    }
  }

  // ---- several clocks at once ----

  function Shift(c: Word): Word { Clock(c, false) }

  function Shifts(c: Word, n: nat): Word
    decreases n
  {
    if n == 0 then c else Shifts(Shift(c), n - 1)
  }

  function Pad(bits: seq<bool>): Word
    requires |bits| <= 32
  {
    bits + Zeros(32 - |bits|)
  }

  lemma XorCancel(x: seq<bool>, y: seq<bool>, z: seq<bool>)
    requires |x| == |y| == |z| && Xor(z, x) == Xor(z, y)
    ensures x == y
  {
    assert forall i :: 0 <= i < |x| ==> Xor(z, x)[i] == Xor(z, y)[i];
  }

  lemma ShiftPasses(x: Word, y: Word)
    requires !y[0]
    ensures Shift(Xor(x, y)) == Xor(Shift(x), ShiftRight(y, 1))
  {
    var l, r := Shift(Xor(x, y)), Xor(Shift(x), ShiftRight(y, 1));
    assert forall i :: 0 <= i < 32 ==> l[i] == r[i];
  }

  /** Bits that have not reached the low end pass through the shifts unchanged. */
  lemma {:induction false} ShiftsPass(x: Word, y: Word, n: nat)
    requires n <= 32 && forall i :: 0 <= i < n ==> !y[i]
    ensures Shifts(Xor(x, y), n) == Xor(Shifts(x, n), ShiftRight(y, n))
    decreases n
  {
    if n == 0 {
      assert ShiftRight(y, 0) == y;
    } else {
      var y' := ShiftRight(y, 1);
      ShiftPasses(x, y);
      ShiftsPass(Shift(x), y', n - 1);
      assert ShiftRight(y', n - 1) == ShiftRight(y, n);
    }
  }

  lemma ShiftInjective(x: Word, y: Word)
    requires Shift(x) == Shift(y)
    ensures x == y
  {
    TopBit();
    hide BitsOf;
    assert Shift(x)[31] == x[0] && Shift(y)[31] == y[0];
    forall i | 1 <= i < 32 ensures x[i] == y[i] {
      assert Shift(x)[i - 1] == (x[i] != (x[0] && POLYNOMIAL[i - 1]));
      assert Shift(y)[i - 1] == (y[i] != (y[0] && POLYNOMIAL[i - 1]));
    }
  }

  lemma {:induction false} ShiftsInjective(x: Word, y: Word, n: nat)
    requires Shifts(x, n) == Shifts(y, n)
    ensures x == y
    decreases n
  {
    if n > 0 {
      ShiftsInjective(Shift(x), Shift(y), n - 1);
      ShiftInjective(x, y);
    }
  }

  /** The register before a shift. */
  function Unshift(c: Word): Word {
    [c[31]] + seq(31, i requires 0 <= i < 31 => c[i] != (c[31] && POLYNOMIAL[i]))
  }

  lemma ShiftOnto(c: Word)
    ensures Shift(Unshift(c)) == c
  {
    TopBit();
    hide BitsOf;
    var x := Unshift(c);
    forall i | 0 <= i < 31 ensures Shift(x)[i] == c[i] {
      assert x[0] == c[31] && x[i + 1] == (c[i] != (c[31] && POLYNOMIAL[i]));
    }
    assert Shift(x)[31] == c[31];
  }

  /** Every register is reached by `n` shifts from one register and no other. */
  lemma {:induction false} ShiftsBijective(c: Word, n: nat) returns (x: Word)
    ensures Shifts(x, n) == c && forall y :: Shifts(y, n) == c ==> y == x
    decreases n
  {
    hide Shift, Unshift, Shifts;
    if n == 0 {
      x := c;
      NoShifts();
    } else {
      ShiftOnto(c);
      x := ShiftsBijective(Unshift(c), n - 1);
      ShiftsOnce(x, n - 1);
    }
    forall y | Shifts(y, n) == c ensures y == x {
      ShiftsInjective(x, y, n);
    }
  }

  lemma NoShifts()
    ensures forall y :: Shifts(y, 0) == y
  {}

  lemma ClockIsShift(c: Word, bits: seq<bool>)
    requires 0 < |bits| <= 32
    ensures Shift(Xor(c, Pad(bits))) == Xor(Clock(c, bits[0]), Pad(bits[1..]))
  {
    var l, r := Shift(Xor(c, Pad(bits))), Xor(Clock(c, bits[0]), Pad(bits[1..]));
    assert forall i :: 0 <= i < 32 ==> l[i] == r[i];
  }

  /** Clocking up to 32 bits is mixing them in first and then shifting. */
  lemma {:induction false} RegisterIsShifts(c: Word, bits: seq<bool>)
    requires |bits| <= 32
    ensures Register(c, bits) == Shifts(Xor(c, Pad(bits)), |bits|)
    decreases |bits|
  {
    if bits == [] {
      assert Xor(c, Pad(bits)) == c;
    } else {
      hide Clock, Xor, Pad, Shift;
      ClockIsShift(c, bits);
      RegisterIsShifts(Clock(c, bits[0]), bits[1..]);
    }
  }

  lemma {:induction false} RegisterInjective(x: Word, y: Word, bits: seq<bool>)
    requires Register(x, bits) == Register(y, bits)
    ensures x == y
    decreases |bits|
  {
    if bits != [] {
      var b := [bits[0]];
      RegisterInjective(Clock(x, bits[0]), Clock(y, bits[0]), bits[1..]);
      ClockIsShift(x, b);
      ClockIsShift(y, b);
      ShiftInjective(Xor(x, Pad(b)), Xor(y, Pad(b)));
      assert forall i :: 0 <= i < 32 ==> Xor(x, Pad(b))[i] == Xor(y, Pad(b))[i];
    }
  }

  lemma BurstChangesRegister(c: Word, u: seq<bool>, v: seq<bool>)
    requires |u| == |v| <= 32 && Register(c, u) == Register(c, v)
    ensures u == v
  {
    RegisterIsShifts(c, u);
    RegisterIsShifts(c, v);
    ShiftsInjective(Xor(c, Pad(u)), Xor(c, Pad(v)), |u|);
    XorCancel(Pad(u), Pad(v), c);
    assert u == Pad(u)[..|u|] == Pad(v)[..|u|] == v;
  }

  lemma ChecksumFixesRegister(p: Bytes, q: Bytes)
    requires Checksum(p) == Checksum(q)
    ensures Register(ONES, AllBits(p)) == Register(ONES, AllBits(q))
  {
    var x, y := Register(ONES, AllBits(p)), Register(ONES, AllBits(q));
    BitsOfValue(Xor(x, ONES));
    BitsOfValue(Xor(y, ONES));
    assert forall i :: 0 <= i < 32 ==> Xor(x, ONES)[i] == Xor(y, ONES)[i];
  }

  /** Two messages that differ only inside a window of 32 bits have different checksums. */
  lemma BurstDetected(p: Bytes, q: Bytes, a: seq<bool>, u: seq<bool>, v: seq<bool>, b: seq<bool>)
    requires AllBits(p) == a + u + b && AllBits(q) == a + v + b
    requires |u| == |v| <= 32 && u != v
    ensures Checksum(p) != Checksum(q)
  {
    if Checksum(p) == Checksum(q) {
      ChecksumFixesRegister(p, q);
      RegisterAppend(ONES, a + u, b);
      RegisterAppend(ONES, a + v, b);
      RegisterInjective(Register(ONES, a + u), Register(ONES, a + v), b);
      RegisterAppend(ONES, a, u);
      RegisterAppend(ONES, a, v);
      BurstChangesRegister(Register(ONES, a), u, v);
    }
  }

  lemma {:induction false} AllBitsInjective(p: Bytes, q: Bytes)
    requires |p| == |q| && AllBits(p) == AllBits(q)
    ensures p == q
  {
    if p != [] {
      assert Bits(p[0], 8) == AllBits(p)[..8] == AllBits(q)[..8] == Bits(q[0], 8);
      assert AllBits(p[1..]) == AllBits(p)[8..] == AllBits(q)[8..] == AllBits(q[1..]);
      EightBits();
      ValueOfBits(p[0], 8);
      ValueOfBits(q[0], 8);
      AllBitsInjective(p[1..], q[1..]);
    }
  }

  lemma EightBits()
    ensures Pow2(8) == 256
  {
    assert Pow2(4) == 16;
  }

  /** Any change confined to four consecutive bytes changes the checksum. */
  lemma FourByteChangeDetected(a: Bytes, x: Bytes, y: Bytes, b: Bytes)
    requires |x| == |y| <= 4 && x != y
    ensures Checksum(a + x + b) != Checksum(a + y + b)
  {
    AllBitsAppend(a + x, b);
    AllBitsAppend(a, x);
    AllBitsAppend(a + y, b);
    AllBitsAppend(a, y);
    if AllBits(x) == AllBits(y) {
      AllBitsInjective(x, y);
    }
    BurstDetected(a + x + b, a + y + b, AllBits(a), AllBits(x), AllBits(y), AllBits(b));
  }

  // ---- the table-driven loop ----

  /** Eight clocks move the register down a byte and mix in one table entry. */
  lemma TableStep(c: Word, b: Byte)
    ensures
      var m := Xor(c, Pad(Bits(b, 8)));
      Register(c, Bits(b, 8)) == Xor(Shifts(Pad(m[..8]), 8), ShiftRight(c, 8))
  {
    RegisterIsShifts(c, Bits(b, 8));
    var m := Xor(c, Pad(Bits(b, 8)));
    var low, high := Pad(m[..8]), Zeros(8) + c[8..];
    assert m == Xor(low, high);
    ShiftsPass(low, high, 8);
    assert ShiftRight(high, 8) == ShiftRight(c, 8);
  }

  lemma {:induction false} LastByte(p: Bytes, i: nat)
    requires i < |p|
    ensures AllBits(p[..i + 1]) == AllBits(p[..i]) + Bits(p[i], 8)
  {
    assert p[..i + 1] == p[..i] + [p[i]];
    AllBitsAppend(p[..i], [p[i]]);
    assert AllBits([p[i]]) == Bits(p[i], 8);
  }

  lemma {:induction false} ShiftsOnce(c: Word, n: nat)
    ensures Shifts(c, n + 1) == Shift(Shifts(c, n))
    decreases n
  {
    if n > 0 {
      ShiftsOnce(Shift(c), n - 1);
    }
  }

  method MakeTable() returns (table: seq<Word>)
    ensures |table| == 256
    ensures forall i :: 0 <= i < 256 ==> table[i] == Shifts(Pad(Bits(i, 8)), 8)
  {
    hide Shifts, Pad, Bits;
    table := [];
    for i := 0 to 256
      invariant |table| == i
      invariant forall j :: 0 <= j < i ==> table[j] == Shifts(Pad(Bits(j, 8)), 8)
    {
      var c := TableEntry(Pad(Bits(i, 8)));
      table := table + [c];
    }
  }

  /** The inner loop: eight shifts. */
  method TableEntry(start: Word) returns (c: Word)
    ensures c == Shifts(start, 8)
  {
    hide Bits;
    c := start;
    for k := 0 to 8
      invariant c == Shifts(start, k)
    {
      ShiftsOnce(start, k);
      c := if c[0] then Xor(POLYNOMIAL, ShiftRight(c, 1)) else ShiftRight(c, 1);
    }
  }

  method Crc32(data: Bytes) returns (crc: nat)
    ensures crc == Checksum(data)
  {
    var table := MakeTable();
    var c: Word := ONES;
    assert data[..0] == [];
    for i := 0 to |data|
      invariant c == Register(ONES, AllBits(data[..i]))
    {
      var m := Xor(c, Pad(Bits(data[i], 8)));
      BitsOfValue(m[..8]);
      EightBits();
      LastByte(data, i);
      RegisterAppend(ONES, AllBits(data[..i]), Bits(data[i], 8));
      TableStep(c, data[i]);
      c := Xor(table[Value(m[..8])], ShiftRight(c, 8));
    }
    assert data[..|data|] == data;
    crc := Value(Xor(c, ONES));
  }

  lemma ChecksumFits(p: Bytes)
    ensures Checksum(p) < 0x1_0000_0000
  {
    BitsOfValue(Xor(Register(ONES, AllBits(p)), ONES));
    ThirtyTwoBits();
  }

  lemma ThirtyTwoBits()
    ensures Pow2(32) == 0x1_0000_0000
  {
    EightBits();
    assert Pow2(16) == 0x1_0000;
    assert Pow2(24) == 0x100_0000;
  }

  // ---- the check value ----

  /** A clock as the source writes it, on 32-bit words. */
  function ClockWord(c: bv32, bit: bool): bv32 {
    if Low(c) != bit then Mix(0xEDB8_8320, Half(c)) else Half(c)
  }

  lemma {:induction false} Prefix(v: bv32, n: nat)
    ensures BitsFrom(v, n + 1)[..n] == BitsFrom(v, n)
    decreases n
  {
    hide Low, Half;
    if n > 0 {
      Prefix(Half(v), n - 1);
    }
  }

  lemma ShiftWord(c: bv32)
    ensures ShiftRight(BitsOf(c), 1) == BitsOf(Half(c))
  {
    TopClear(c);
    hide Low, Half, ShiftRight, BitsFrom;
    Prefix(Half(c), 31);
    FromNext(c, 32);
    ShiftsList(Low(c), BitsFrom(Half(c), 31), BitsOf(c), BitsOf(Half(c)));
  }

  lemma TopClear(c: bv32)
    ensures !BitsOf(Half(c))[31]
  {
    hide BitsFrom;
    LastBit(Half(c));
    HalfTop(c);
  }

  lemma ShiftsList(x: bool, low: seq<bool>, w: Word, half: Word)
    requires w == [x] + low && |low| == 31 && half[..31] == low && !half[31]
    ensures ShiftRight(w, 1) == half
  {
    assert half == half[..31] + [half[31]];
  }

  lemma FromNext(v: bv32, n: nat)
    requires n > 0
    ensures BitsFrom(v, n) == [Low(v)] + BitsFrom(Half(v), n - 1)
  {}

  lemma HalfTop(c: bv32)
    ensures Half(c) >> 31 != 1
  {}

  /** Exclusive or of machine words is exclusive or of their bits. */
  lemma {:induction false} XorFrom(a: bv32, b: bv32, n: nat)
    ensures Xor(BitsFrom(a, n), BitsFrom(b, n)) == BitsFrom(Mix(a, b), n)
    decreases n
  {
    XorLow(a, b);
    hide Xor, Low, Half, Mix;
    if n > 0 {
      XorFrom(Half(a), Half(b), n - 1);
      XorCons(Low(a), Low(b), BitsFrom(Half(a), n - 1), BitsFrom(Half(b), n - 1));
    }
  }

  lemma XorLow(a: bv32, b: bv32)
    ensures Half(Mix(a, b)) == Mix(Half(a), Half(b)) && Low(Mix(a, b)) == (Low(a) != Low(b))
  {}

  lemma XorCons(x: bool, y: bool, a: seq<bool>, b: seq<bool>)
    requires |a| == |b|
    ensures Xor([x] + a, [y] + b) == [x != y] + Xor(a, b)
  {}

  lemma ClockIs(c: bv32, bit: bool)
    ensures Clock(BitsOf(c), bit) == BitsOf(ClockWord(c, bit))
  {
    hide ShiftRight, Xor, Low, Half, Mix;
    ShiftWord(c);
    XorFrom(0xEDB8_8320, Half(c), 32);
  }

  function ByteWord(c: bv32, b0: bool, b1: bool, b2: bool, b3: bool, b4: bool, b5: bool, b6: bool, b7: bool): bv32 {
    ClockWord(ClockWord(ClockWord(ClockWord(ClockWord(ClockWord(ClockWord(ClockWord(c, b0), b1), b2), b3), b4), b5), b6), b7)
  }

  /** One bit of a number into the register. */
  lemma ClockStep(c: bv32, v: nat, n: nat, bit: bool, rest: nat)
    requires n > 0 && v == (if bit then 1 else 0) + 2 * rest
    ensures Register(BitsOf(c), Bits(v, n)) == Register(BitsOf(ClockWord(c, bit)), Bits(rest, n - 1))
  {
    hide Bits, BitsOf, Clock, ClockWord;
    BitsStep(v, n, bit, rest);
    ClockIs(c, bit);
    assert ([bit] + Bits(rest, n - 1))[1..] == Bits(rest, n - 1);
  }

  /** The low four bits of a digit character. */
  function Digit(b0: bool, b1: bool, b2: bool, b3: bool): nat {
    (if b0 then 1 else 0) + 2 * ((if b1 then 1 else 0) + 2 * ((if b2 then 1 else 0) + 2 * (if b3 then 1 else 0)))
  }

  lemma DigitClocks(c: bv32, b0: bool, b1: bool, b2: bool, b3: bool)
    ensures Register(BitsOf(c), Bits(0x30 + Digit(b0, b1, b2, b3), 8)) == BitsOf(ByteWord(c, b0, b1, b2, b3, true, true, false, false))
  {
    hide Register, Bits, BitsOf, ClockWord;
    var v3 := 6 + if b3 then 1 else 0;
    var v2 := (if b2 then 1 else 0) + 2 * v3;
    var v1 := (if b1 then 1 else 0) + 2 * v2;
    var v0 := (if b0 then 1 else 0) + 2 * v1;
    assert v0 == 0x30 + Digit(b0, b1, b2, b3);
    var c1 := ClockWord(c, b0);
    var c2 := ClockWord(c1, b1);
    var c3 := ClockWord(c2, b2);
    var c4 := ClockWord(c3, b3);
    ClockStep(c, v0, 8, b0, v1);
    ClockStep(c1, v1, 7, b1, v2);
    ClockStep(c2, v2, 6, b2, v3);
    ClockStep(c3, v3, 5, b3, 3);
    HighHalf(c4);
  }

  lemma HighHalf(c: bv32)
    ensures Register(BitsOf(c), Bits(3, 4)) == BitsOf(ClockWord(ClockWord(ClockWord(ClockWord(c, true), true), false), false))
  {
    hide Register, Bits, BitsOf, ClockWord;
    var c1 := ClockWord(c, true);
    var c2 := ClockWord(c1, true);
    var c3 := ClockWord(c2, false);
    ClockStep(c, 3, 4, true, 1);
    ClockStep(c1, 1, 3, true, 0);
    ClockStep(c2, 0, 2, false, 0);
    ClockStep(c3, 0, 1, false, 0);
    BitsStep(0, 0, false, 0);
    NoBits(BitsOf(ClockWord(c3, false)));
  }

  lemma NoBits(w: Word)
    ensures Register(w, []) == w
  {}

  /** The register after one more digit character. */
  lemma NextDigit(m: Bytes, i: nat, b0: bool, b1: bool, b2: bool, b3: bool, before: bv32, after: bv32)
    requires i < |m| && Register(ONES, AllBits(m[..i])) == BitsOf(before)
    requires m[i] == 0x30 + Digit(b0, b1, b2, b3)
    requires ByteWord(before, b0, b1, b2, b3, true, true, false, false) == after
    ensures Register(ONES, AllBits(m[..i + 1])) == BitsOf(after)
  {
    hide Register, ByteWord, AllBits, Bits, BitsOf;
    LastByte(m, i);
    RegisterAppend(ONES, AllBits(m[..i]), Bits(m[i], 8));
    DigitClocks(before, b0, b1, b2, b3);
  }

  lemma BitsStep(v: nat, n: nat, bit: bool, rest: nat)
    requires v == (if bit then 1 else 0) + 2 * rest
    ensures n > 0 ==> Bits(v, n) == [bit] + Bits(rest, n - 1)
    ensures n == 0 ==> Bits(v, n) == []
  {}

  const DIGITS: Bytes := [0x31, 0x32, 0x33, 0x34, 0x35, 0x36, 0x37, 0x38, 0x39]

  lemma FirstDigits()
    ensures Register(ONES, AllBits(DIGITS[..5])) == BitsOf(0x340A_C5E3)
  {
    hide Register, AllBits, BitsOf;
    Preset();
    assert DIGITS[..0] == [];
    NextDigit(DIGITS, 0, true, false, false, false, 0xFFFF_FFFF, 0x7C23_1048);
    NextDigit(DIGITS, 1, false, true, false, false, 0x7C23_1048, 0xB0AC_BB32);
    NextDigit(DIGITS, 2, true, true, false, false, 0xB0AC_BB32, 0x77B7_9C2D);
    NextDigit(DIGITS, 3, false, false, true, false, 0x77B7_9C2D, 0x641C_1F5C);
    NextDigit(DIGITS, 4, true, false, true, false, 0x641C_1F5C, 0x340A_C5E3);
  }

  lemma LastDigits()
    ensures Register(ONES, AllBits(DIGITS)) == BitsOf(0x340B_C6D9)
  {
    hide Register, AllBits, BitsOf;
    FirstDigits();
    NextDigit(DIGITS, 5, false, true, true, false, 0x340A_C5E3, 0xF68D_2C9E);
    NextDigit(DIGITS, 6, true, true, true, false, 0xF68D_2C9E, 0xAFFC_9660);
    NextDigit(DIGITS, 7, false, false, false, true, 0xAFFC_9660, 0x651F_2550);
    NextDigit(DIGITS, 8, true, false, false, true, 0x651F_2550, 0x340B_C6D9);
    assert DIGITS[..9] == DIGITS;
  }

  /** The checksum of the nine digits 1 to 9, the check value published for this CRC. */
  lemma CheckValue()
    ensures Checksum([0x31, 0x32, 0x33, 0x34, 0x35, 0x36, 0x37, 0x38, 0x39]) == 0xCBF4_3926
  {
    hide Register, Value, Xor, AllBits, BitsOf;
    LastDigits();
    Complemented();
  }

  lemma Preset()
    ensures Register(ONES, AllBits([])) == ONES == BitsOf(0xFFFF_FFFF)
  {
    hide BitsFrom;
    OnesFour(0xFFFFFFFF, 32);
    OnesFour(0xFFFFFFF, 28);
    OnesFour(0xFFFFFF, 24);
    OnesFour(0xFFFFF, 20);
    OnesFour(0xFFFF, 16);
    OnesFour(0xFFF, 12);
    OnesFour(0xFF, 8);
    OnesFour(0xF, 4);
    assert BitsFrom(0, 0) == [];
    assert forall i :: 0 <= i < 32 ==> BitsOf(0xFFFF_FFFF)[i];
  }

  lemma OnesFour(v: bv32, n: nat)
    requires n >= 4 && v & 0xF == 0xF
    ensures forall i :: 0 <= i < 4 ==> BitsFrom(v, n)[i]
    ensures forall i :: 4 <= i < n ==> BitsFrom(v, n)[i] == BitsFrom(Sixteenth(v), n - 4)[i - 4]
  {
    FourOnes(v);
    hide BitsFrom, Low, Half, Sixteenth;
    LowFour(v, n);
    forall i | 4 <= i < n ensures BitsFrom(v, n)[i] == BitsFrom(Sixteenth(v), n - 4)[i - 4] { SkipFour(v, n, i); }
  }

  lemma FourOnes(v: bv32)
    requires v & 0xF == 0xF
    ensures Low(v) && Low(Half(v)) && Low(Half(Half(v))) && Low(Half(Half(Half(v))))
  {}

  lemma Complemented()
    ensures Value(Xor(BitsOf(0x340B_C6D9), ONES)) == 0xCBF4_3926
  {
    hide Value, Xor, BitsFrom;
    Preset();
    XorFrom(0x340B_C6D9, 0xFFFF_FFFF, 32);
    ResultValue();
  }

  lemma ResultValue()
    ensures Value(BitsOf(0xCBF4_3926)) == 0xCBF4_3926
  {
    hide Value, BitsFrom;
    ValueFour(0xCBF43926, 32, 6);
    ValueFour(0xCBF4392, 28, 2);
    ValueFour(0xCBF439, 24, 9);
    ValueFour(0xCBF43, 20, 3);
    ValueFour(0xCBF4, 16, 4);
    ValueFour(0xCBF, 12, 15);
    ValueFour(0xCB, 8, 11);
    ValueFour(0xC, 4, 12);
    assert BitsFrom(0, 0) == [];
    NoValue();
  }

  lemma ValueFour(v: bv32, n: nat, low: nat)
    requires n >= 4
    requires low == (if Low(v) then 1 else 0) + (if Low(Half(v)) then 2 else 0) + (if Low(Half(Half(v))) then 4 else 0) + (if Low(Half(Half(Half(v)))) then 8 else 0)
    ensures Value(BitsFrom(v, n)) == low + 16 * Value(BitsFrom(Sixteenth(v), n - 4))
  {
    FourHalves(v);
    hide Value, Low, Half, Sixteenth, BitsFrom;
    ValueNext(v, n);
    ValueNext(Half(v), n - 1);
    ValueNext(Half(Half(v)), n - 2);
    ValueNext(Half(Half(Half(v))), n - 3);
  }

  lemma ValueNext(v: bv32, n: nat)
    requires n > 0
    ensures Value(BitsFrom(v, n)) == (if Low(v) then 1 else 0) + 2 * Value(BitsFrom(Half(v), n - 1))
  {
    hide Low, Half;
    assert BitsFrom(v, n)[1..] == BitsFrom(Half(v), n - 1);
  }

  lemma NoValue()
    ensures Value([]) == 0
  {}

  /** The generator by its degrees, with the leading one left implicit. */
  lemma GeneratorDegrees(k: nat)
    requires k < 32
    ensures POLYNOMIAL[k] <==> 31 - k in {26, 23, 22, 16, 12, 11, 10, 8, 7, 5, 4, 2, 1, 0}
  {
    hide BitsFrom;
    if k < 16 {
      LowerDegrees(k);
    } else {
      SkipFour(0xEDB8_8320, 32, k);
      SkipFour(0xEDB_8832, 28, k - 4);
      SkipFour(0xED_B883, 24, k - 8);
      SkipFour(0xE_DB88, 20, k - 12);
      UpperDegrees(k - 16);
    }
  }

  lemma LowerDegrees(k: nat)
    requires k < 16
    ensures BitsFrom(0xEDB88320, 32)[k] <==> 31 - k in {26, 23, 22, 16}
  {
    hide BitsFrom;
    if k >= 4 { SkipFour(0xEDB88320, 32, k); }
    if k >= 8 { SkipFour(0xEDB8832, 28, k - 4); }
    if k >= 12 { SkipFour(0xEDB883, 24, k - 8); }
    LowFour(0xEDB88320, 32);
    LowFour(0xEDB8832, 28);
    LowFour(0xEDB883, 24);
    LowFour(0xEDB88, 20);
  }

  lemma UpperDegrees(k: nat)
    requires k < 16
    ensures BitsFrom(0xEDB8, 16)[k] <==> 15 - k in {12, 11, 10, 8, 7, 5, 4, 2, 1, 0}
  {
    hide BitsFrom;
    if k >= 4 { SkipFour(0xEDB8, 16, k); }
    if k >= 8 { SkipFour(0xEDB, 12, k - 4); }
    if k >= 12 { SkipFour(0xED, 8, k - 8); }
    LowFour(0xEDB8, 16);
    LowFour(0xEDB, 12);
    LowFour(0xED, 8);
    LowFour(0xE, 4);
  }
}
