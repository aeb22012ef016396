/** CRC-32 as the checksum class computes it, against the bit-serial definition. */
module Crc32 {

  const POLYNOMIAL: bv32 := 0x04C1_1DB7
  const REFLECTED: bv32 := 0xEDB8_8320

  // ---- The reference: RFC 1952, section 8, one message bit at a time ----

  /** Shift the register right by one bit; the bit that falls out feeds the reflected polynomial back in. */
  function BitStep(c: bv32): bv32 {
    if Low(c) then Xor(Shr(c), REFLECTED) else Shr(c)
  }

  // The operations on registers are named so that their bits can be left out of an argument.

  function Xor(a: bv32, b: bv32): bv32 {
    a ^ b
  }

  function Shr(c: bv32): bv32 {
    c >> 1
  }

  function Or(a: bv32, b: bv32): bv32 {
    a | b
  }

  function Shl(c: bv32): bv32 {
    c << 1
  }

  predicate Low(c: bv32) {
    c & 1 == 1
  }

  predicate Top(c: bv32) {
    c & (1 << 31) != 0
  }

  /** Take one message bit into the register. */
  function Feed(c: bv32, bit: bool): bv32 {
    BitStep(c ^ if bit then 1 else 0)
  }

  function BitSerial(c: bv32, bits: seq<bool>): bv32
    decreases bits
  {
    if bits == [] then c else BitSerial(Feed(c, bits[0]), bits[1..])
  }

  /** The low `n` bits of `b`, least significant first. */
  function Bits(b: bv32, n: nat): seq<bool>
    decreases n
  {
    if n == 0 then [] else [b & 1 == 1] + Bits(b >> 1, n - 1)
  }

  function MessageBits(msg: seq<bv8>): seq<bool> {
    if msg == [] then [] else MessageBits(msg[..|msg| - 1]) + Bits(msg[|msg| - 1] as bv32, 8)
  }

  function Crc(msg: seq<bv8>): bv32 {
    BitSerial(0xFFFF_FFFF, MessageBits(msg)) ^ 0xFFFF_FFFF
  }

  // ---- A byte at a time ----

  function Steps(c: bv32, n: nat): bv32
    decreases n
  {
    if n == 0 then c else Steps(BitStep(c), n - 1)
  }

  lemma OneBit(a: bv32)
    ensures a & 1 == 0 || a & 1 == 1
  {
  }

  lemma XorParts(a: bv32, b: bv32)
    ensures Low(Xor(a, b)) == (Low(a) != Low(b)) && Shr(Xor(a, b)) == Xor(Shr(a), Shr(b))
  {
    OneBit(a);
    OneBit(b);
    assert (a ^ b) & 1 == (a & 1) ^ (b & 1) && (a ^ b) >> 1 == (a >> 1) ^ (b >> 1);
  }

  lemma XorCommutes(a: bv32, b: bv32)
    ensures Xor(a, b) == Xor(b, a)
  {
  }

  lemma XorAssociates(a: bv32, b: bv32, p: bv32)
    ensures Xor(Xor(a, b), p) == Xor(a, Xor(b, p))
  {
  }

  lemma XorCancels(a: bv32, p: bv32)
    ensures Xor(Xor(a, p), p) == a
  {
  }

  lemma BitStepLinear(a: bv32, b: bv32)
    ensures BitStep(Xor(a, b)) == Xor(BitStep(a), BitStep(b))
  {
    hide Xor, Shr, Low;
    XorParts(a, b);
    var x, y, p := Shr(a), Shr(b), REFLECTED;
    XorAssociates(x, y, p);
    XorAssociates(x, p, y);
    XorCommutes(y, p);
    XorAssociates(Xor(x, p), y, p);
    XorAssociates(Xor(x, p), p, y);
    XorCancels(x, p);
  }

  lemma {:induction false} StepsLinear(a: bv32, b: bv32, n: nat)
    ensures Steps(Xor(a, b), n) == Xor(Steps(a, n), Steps(b, n))
    decreases n
  {
    hide BitStep, Xor;
    if n > 0 {
      BitStepLinear(a, b);
      StepsLinear(BitStep(a), BitStep(b), n - 1);
    }
  }

  /** `b` has no bits beyond the low `n`. */
  ghost predicate Fits(b: bv32, n: nat)
    decreases n
  {
    if n == 0 then b == 0 else Fits(b >> 1, n - 1)
  }

  /** Feeding the low bit is adding the whole of `b` and stepping, but for the bits still to come. */
  lemma FeedLowBit(c: bv32, b: bv32)
    ensures BitStep(Xor(c, b)) == Xor(Feed(c, b & 1 == 1), b >> 1)
  {
    var rest := b & 0xFFFF_FFFE;
    SplitLowBit(c, b);
    assert BitStep(rest) == b >> 1;
    hide BitStep, Xor;
    LowBit(c, b);
    BitStepLinear(c ^ (b & 1), rest);
  }

  lemma LowBit(c: bv32, b: bv32)
    ensures Feed(c, b & 1 == 1) == BitStep(c ^ (b & 1))
  {
    BitAsWord(b);
    hide BitStep;
  }

  lemma BitAsWord(b: bv32)
    ensures (if b & 1 == 1 then 1 else 0) == b & 1
  {
    OneBit(b);
  }

  lemma SplitBits(c: bv32, b: bv32)
    ensures c ^ b == (c ^ (b & 1)) ^ (b & 0xFFFF_FFFE) && (b & 0xFFFF_FFFE) & 1 == 0 && (b & 0xFFFF_FFFE) >> 1 == b >> 1
  {
  }

  lemma SplitLowBit(c: bv32, b: bv32)
    ensures Xor(c, b) == Xor(c ^ (b & 1), b & 0xFFFF_FFFE) && (b & 0xFFFF_FFFE) & 1 == 0
      && (b & 0xFFFF_FFFE) >> 1 == b >> 1
  {
    SplitBits(c, b);
  }

  lemma XorZero(c: bv32)
    ensures Xor(c, 0) == c
  {
  }

  /** Feeding bits one by one is the same as adding them all to the register first. */
  lemma {:induction false} SerialIsParallel(c: bv32, b: bv32, n: nat)
    requires Fits(b, n)
    ensures BitSerial(c, Bits(b, n)) == Steps(Xor(c, b), n)
    decreases n
  {
    hide BitStep, Xor, Feed;
    if n == 0 {
      XorZero(c);
    } else {
      FeedLowBit(c, b);
      assert Bits(b, n)[1..] == Bits(b >> 1, n - 1);
      SerialIsParallel(Feed(c, b & 1 == 1), b >> 1, n - 1);
    }
  }

  lemma {:induction false} BitSerialConcat(c: bv32, a: seq<bool>, b: seq<bool>)
    ensures BitSerial(c, a + b) == BitSerial(BitSerial(c, a), b)
    decreases a
  {
    hide Feed;
    if a == [] {
      assert a + b == b;
    } else {
      assert (a + b)[1..] == a[1..] + b;
      BitSerialConcat(Feed(c, a[0]), a[1..], b);
    }
  }

  lemma ShiftOut(c: bv32)
    requires c & 0xFF == 0
    ensures c & 1 == 0 && (c >> 1) & 1 == 0 && (c >> 2) & 1 == 0 && (c >> 3) & 1 == 0
    ensures (c >> 4) & 1 == 0 && (c >> 5) & 1 == 0 && (c >> 6) & 1 == 0 && (c >> 7) & 1 == 0
    ensures (c >> 1) >> 1 == c >> 2 && (c >> 2) >> 1 == c >> 3 && (c >> 3) >> 1 == c >> 4 && (c >> 4) >> 1 == c >> 5
    ensures (c >> 5) >> 1 == c >> 6 && (c >> 6) >> 1 == c >> 7 && (c >> 7) >> 1 == c >> 8
  {
  }

  /** Eight steps over a register whose low byte is clear only shift it. */
  lemma HighBits(c: bv32)
    requires c & 0xFF == 0
    ensures Steps(c, 8) == c >> 8
  {
    ShiftOut(c);
    assert BitStep(c) == c >> 1 && BitStep(c >> 1) == c >> 2 && BitStep(c >> 2) == c >> 3 && BitStep(c >> 3) == c >> 4;
    assert BitStep(c >> 4) == c >> 5 && BitStep(c >> 5) == c >> 6 && BitStep(c >> 6) == c >> 7
      && BitStep(c >> 7) == c >> 8;
    hide BitStep;
    assert Steps(c, 8) == Steps(c >> 1, 7) == Steps(c >> 2, 6) == Steps(c >> 3, 5) == Steps(c >> 4, 4);
    assert Steps(c >> 4, 4) == Steps(c >> 5, 3) == Steps(c >> 6, 2) == Steps(c >> 7, 1) == Steps(c >> 8, 0);
  }

  lemma SplitLowByte(c: bv32, b: bv32)
    requires b < 0x100
    ensures Xor(c, b) == Xor((c ^ b) & 0xFFFF_FF00, (c & 0xFF) ^ b)
    ensures ((c ^ b) & 0xFFFF_FF00) & 0xFF == 0 && ((c ^ b) & 0xFFFF_FF00) >> 8 == c >> 8
    ensures (c & 0xFF) ^ b < 0x100
  {
  }

  /** One table step is eight bit steps on the whole register. */
  lemma TableStep(c: bv32, b: bv32)
    requires b < 0x100
    ensures Steps(Xor(c, b), 8) == Xor(c >> 8, Steps((c & 0xFF) ^ b, 8))
  {
    hide Steps, Xor;
    SplitLowByte(c, b);
    var hi, lo := (c ^ b) & 0xFFFF_FF00, (c & 0xFF) ^ b;
    StepsLinear(hi, lo, 8);
    HighBits(hi);
  }

  lemma ByteFits(b: bv32)
    requires b < 0x100
    ensures Fits(b, 8)
  {
    ByteShifts(b);
    assert Fits(b, 8) == Fits(b >> 1, 7) == Fits(b >> 2, 6) == Fits(b >> 3, 5);
    assert Fits(b >> 3, 5) == Fits(b >> 4, 4) == Fits(b >> 5, 3) == Fits(b >> 6, 2) == Fits(b >> 7, 1)
      == Fits(b >> 8, 0);
  }

  lemma ByteShifts(b: bv32)
    requires b < 0x100
    ensures (b >> 1) >> 1 == b >> 2 && (b >> 2) >> 1 == b >> 3 && (b >> 3) >> 1 == b >> 4 && (b >> 4) >> 1 == b >> 5
    ensures (b >> 5) >> 1 == b >> 6 && (b >> 6) >> 1 == b >> 7 && (b >> 7) >> 1 == b >> 8 && b >> 8 == 0
  {
  }

  // ---- Most significant bit first ----

  /** Move the low `n` bits of `r` onto `value`, lowest first: they end up in the opposite order. */
  function Mirror(r: bv32, n: nat, value: bv32): bv32
    decreases n
  {
    if n == 0 then value else Mirror(r >> 1, n - 1, (value << 1) | (r & 1))
  }

  function Reflected(r: bv32, n: nat): bv32 {
    Mirror(r, n, 0)
  }

  /** All 32 bits in the opposite order: swap neighbours, then pairs, nibbles, bytes and halves. */
  function Rev(x: bv32): bv32 {
    var a := ((x >> 1) & 0x5555_5555) | ((x & 0x5555_5555) << 1);
    var b := ((a >> 2) & 0x3333_3333) | ((a & 0x3333_3333) << 2);
    var c := ((b >> 4) & 0x0F0F_0F0F) | ((b & 0x0F0F_0F0F) << 4);
    var d := ((c >> 8) & 0x00FF_00FF) | ((c & 0x00FF_00FF) << 8);
    (d >> 16) | (d << 16)
  }

  function MsbStep(t: bv32): bv32 {
    if Top(t) then Xor(Shl(t), POLYNOMIAL) else Shl(t)
  }

  function MsbSteps(t: bv32, n: nat): bv32 {
    if n == 0 then t else MsbStep(MsbSteps(t, n - 1))
  }

  lemma RevTop(t: bv32)
    ensures Low(Rev(t)) == Top(t)
  {
    assert Rev(t) & 1 == t >> 31;
    assert t & 0x8000_0000 != 0 <==> t >> 31 == 1;
  }

  lemma RevShift(t: bv32)
    ensures Rev(Shl(t)) == Shr(Rev(t))
  {
    RevShiftBits(t);
  }

  lemma RevShiftBits(t: bv32)
    ensures Rev(t << 1) == Rev(t) >> 1
  {
  }

  lemma RevPolynomial(t: bv32)
    ensures Rev(Xor(t, POLYNOMIAL)) == Xor(Rev(t), REFLECTED)
  {
    RevPolynomialBits(t);
  }

  lemma RevPolynomialBits(t: bv32)
    ensures Rev(t ^ 0x04C1_1DB7) == Rev(t) ^ 0xEDB8_8320
  {
  }

  /** A step from the top with the polynomial is a step from the bottom with the reflected one. */
  lemma RevMsbStep(t: bv32)
    ensures Rev(MsbStep(t)) == BitStep(Rev(t))
  {
    hide Rev, Xor, Shl, Shr, Top, Low;
    RevTop(t);
    RevShift(t);
    RevPolynomial(Shl(t));
  }

  /** The low byte of `x` in the opposite order. */
  function MirroredByte(x: bv32): bv32 {
    ((x & 1) << 7) | ((x & 2) << 5) | ((x & 4) << 3) | ((x & 8) << 1)
    | ((x & 16) >> 1) | ((x & 32) >> 3) | ((x & 64) >> 5) | ((x & 128) >> 7)
  }

  function Drop(x: bv32): bv32 {
    x >> 8
  }

  function Push(v: bv32, x: bv32): bv32 {
    (v << 8) | MirroredByte(x)
  }

  lemma MirrorByte32(x: bv32, v: bv32)
    ensures Mirror(x, 32, v) == Mirror(Drop(x), 24, Push(v, x))
  {
  }

  lemma MirrorByte24(x: bv32, v: bv32)
    ensures Mirror(x, 24, v) == Mirror(Drop(x), 16, Push(v, x))
  {
  }

  lemma MirrorByte16(x: bv32, v: bv32)
    ensures Mirror(x, 16, v) == Mirror(Drop(x), 8, Push(v, x))
  {
  }

  lemma MirrorByte8(x: bv32, v: bv32)
    ensures Mirror(x, 8, v) == Mirror(Drop(x), 0, Push(v, x))
  {
  }

  lemma ReflectedIsRev(x: bv32)
    ensures Reflected(x, 32) == Rev(x)
  {
    hide Drop, Push, Mirror, Rev;
    var x1 := Drop(x);
    var x2 := Drop(x1);
    var x3 := Drop(x2);
    var v1 := Push(0, x);
    var v2 := Push(v1, x1);
    var v3 := Push(v2, x2);
    MirrorByte32(x, 0);
    MirrorByte24(x1, v1);
    MirrorByte16(x2, v2);
    MirrorByte8(x3, v3);
    MirrorDone(Drop(x3), Push(v3, x3));
    RevByBytes(x);
  }

  lemma MirrorDone(x: bv32, v: bv32)
    ensures Mirror(x, 0, v) == v
  {
  }

  lemma RevByBytes(x: bv32)
    ensures Push(Push(Push(Push(0, x), Drop(x)), Drop(Drop(x))), Drop(Drop(Drop(x)))) == Rev(x)
  {
  }

  lemma RevByte(x: bv32)
    requires x < 0x100
    ensures Rev(Reflected(x, 8) << 24) == x
  {
  }

  lemma {:induction false} RevMsbSteps(t: bv32, n: nat)
    ensures Rev(MsbSteps(t, n)) == Steps(Rev(t), n)
  {
    hide Rev, MsbStep, BitStep;
    if n > 0 {
      RevMsbSteps(t, n - 1);
      RevMsbStep(MsbSteps(t, n - 1));
      StepsLast(Rev(t), n);
    }
  }

  lemma {:induction false} StepsLast(c: bv32, n: nat)
    requires n > 0
    ensures Steps(c, n) == BitStep(Steps(c, n - 1))
    decreases n
  {
    hide BitStep;
    if n > 1 {
      StepsLast(BitStep(c), n - 1);
    }
  }

  /** An entry as the table is filled: reflect the byte to the top, eight steps, reflect the whole register. */
  function TableEntry(i: bv32): bv32 {
    Reflected(MsbSteps(Reflected(i, 8) << 24, 8), 32)
  }

  /** Built most significant bit first, a table entry is eight reflected bit steps on its index. */
  lemma TableEntryIsEightSteps(i: bv32)
    requires i < 0x100
    ensures TableEntry(i) == Steps(i, 8)
  {
    hide Rev, Reflected, MsbSteps, Steps;
    var t := Reflected(i, 8) << 24;
    ReflectedIsRev(MsbSteps(t, 8));
    RevMsbSteps(t, 8);
    RevByte(i);
  }

  // ---- The checksum class ----

  /** Shift `a` left `k` times. */
  function ShiftedLeft(a: bv32, k: nat): bv32
    decreases k
  {
    if k == 0 then a else ShiftedLeft(Shl(a), k - 1)
  }

  lemma OrShl(a: bv32, b: bv32)
    ensures Shl(Or(a, b)) == Or(Shl(a), Shl(b))
  {
  }

  lemma {:induction false} ShiftedLeftOr(a: bv32, b: bv32, k: nat)
    ensures ShiftedLeft(Or(a, b), k) == Or(ShiftedLeft(a, k), ShiftedLeft(b, k))
    decreases k
  {
    hide Or, Shl;
    if k > 0 {
      OrShl(a, b);
      ShiftedLeftOr(Shl(a), Shl(b), k - 1);
    }
  }

  lemma {:induction false} ShiftedLeftZero(k: nat)
    ensures ShiftedLeft(0, k) == 0
    decreases k
  {
    if k > 0 {
      ShiftedLeftZero(k - 1);
    }
  }

  lemma OrZero(a: bv32)
    ensures Or(a, 0) == a
  {
  }

  lemma LowShifts(k: nat)
    requires k < 16
    ensures (1 as bv32) << k == ShiftedLeft(1, k)
  {
    if k == 0 {
      assert (1 as bv32) << 0 == 0x1;
    } else if k == 1 {
      assert (1 as bv32) << 1 == 0x2;
    } else if k == 2 {
      assert (1 as bv32) << 2 == 0x4;
    } else if k == 3 {
      assert (1 as bv32) << 3 == 0x8;
    } else if k == 4 {
      assert (1 as bv32) << 4 == 0x10;
    } else if k == 5 {
      assert (1 as bv32) << 5 == 0x20;
    } else if k == 6 {
      assert (1 as bv32) << 6 == 0x40;
    } else if k == 7 {
      assert (1 as bv32) << 7 == 0x80;
    } else if k == 8 {
      assert (1 as bv32) << 8 == 0x100;
    } else if k == 9 {
      assert (1 as bv32) << 9 == 0x200;
    } else if k == 10 {
      assert (1 as bv32) << 10 == 0x400;
    } else if k == 11 {
      assert (1 as bv32) << 11 == 0x800;
    } else if k == 12 {
      assert (1 as bv32) << 12 == 0x1000;
    } else if k == 13 {
      assert (1 as bv32) << 13 == 0x2000;
    } else if k == 14 {
      assert (1 as bv32) << 14 == 0x4000;
    } else if k == 15 {
      assert (1 as bv32) << 15 == 0x8000;
    }
  }

  lemma {:induction false} ShiftedLeftTwice(a: bv32, j: nat, k: nat)
    ensures ShiftedLeft(a, j + k) == ShiftedLeft(ShiftedLeft(a, j), k)
    decreases j
  {
    hide Shl;
    if j > 0 {
      ShiftedLeftTwice(Shl(a), j - 1, k);
    }
  }

  lemma EightShifts(a: bv32, k: nat)
    requires k == 8
    ensures ShiftedLeft(a, k) == a << 8
  {
  }

  lemma ShiftsFromSixteen(j: nat)
    requires j < 16
    ensures (1 as bv32) << (16 + j) == ShiftedLeft(0x1_0000, j)
  {
    if j < 8 {
      ThirdByteShifts(j);
    } else {
      FourthByteShifts(j);
    }
  }

  lemma ThirdByteShifts(j: nat)
    requires j < 8
    ensures (1 as bv32) << (16 + j) == ShiftedLeft(0x1_0000, j)
  {
    hide ShiftedLeft;
    if j == 0 {
      Shift16();
    } else if j == 1 {
      Shift17();
    } else if j == 2 {
      Shift18();
    } else if j == 3 {
      Shift19();
    } else if j == 4 {
      Shift20();
    } else if j == 5 {
      Shift21();
    } else if j == 6 {
      Shift22();
    } else if j == 7 {
      Shift23();
    }
  }

  lemma FourthByteShifts(j: nat)
    requires 8 <= j < 16
    ensures (1 as bv32) << (16 + j) == ShiftedLeft(0x1_0000, j)
  {
    hide ShiftedLeft;
    if j == 8 {
      Shift24();
    } else if j == 9 {
      Shift25();
    } else if j == 10 {
      Shift26();
    } else if j == 11 {
      Shift27();
    } else if j == 12 {
      Shift28();
    } else if j == 13 {
      Shift29();
    } else if j == 14 {
      Shift30();
    } else if j == 15 {
      Shift31();
    }
  }

  lemma Shift16()
    ensures (1 as bv32) << 16 == ShiftedLeft(0x1_0000, 0)
  {
    assert (1 as bv32) << 16 == 0x10000;
  }

  lemma Shift17()
    ensures (1 as bv32) << 17 == ShiftedLeft(0x1_0000, 1)
  {
    assert (1 as bv32) << 17 == 0x20000;
  }

  lemma Shift18()
    ensures (1 as bv32) << 18 == ShiftedLeft(0x1_0000, 2)
  {
    assert (1 as bv32) << 18 == 0x40000;
  }

  lemma Shift19()
    ensures (1 as bv32) << 19 == ShiftedLeft(0x1_0000, 3)
  {
    assert (1 as bv32) << 19 == 0x80000;
  }

  lemma Shift20()
    ensures (1 as bv32) << 20 == ShiftedLeft(0x1_0000, 4)
  {
    assert (1 as bv32) << 20 == 0x100000;
  }

  lemma Shift21()
    ensures (1 as bv32) << 21 == ShiftedLeft(0x1_0000, 5)
  {
    assert (1 as bv32) << 21 == 0x200000;
  }

  lemma Shift22()
    ensures (1 as bv32) << 22 == ShiftedLeft(0x1_0000, 6)
  {
    assert (1 as bv32) << 22 == 0x400000;
  }

  lemma Shift23()
    ensures (1 as bv32) << 23 == ShiftedLeft(0x1_0000, 7)
  {
    assert (1 as bv32) << 23 == 0x800000;
  }

  lemma Shift24()
    ensures (1 as bv32) << 24 == ShiftedLeft(0x1_0000, 8)
  {
    assert (1 as bv32) << 24 == 0x1000000;
  }

  lemma Shift25()
    ensures (1 as bv32) << 25 == ShiftedLeft(0x1_0000, 9)
  {
    Shift24();
    ShiftedLeftTwice(0x1_0000, 8, 1);
    assert (1 as bv32) << 25 == 0x2000000 && (1 as bv32) << 24 == 0x1000000;
  }

  lemma Shift26()
    ensures (1 as bv32) << 26 == ShiftedLeft(0x1_0000, 10)
  {
    Shift24();
    ShiftedLeftTwice(0x1_0000, 8, 2);
    assert (1 as bv32) << 26 == 0x4000000 && (1 as bv32) << 24 == 0x1000000;
  }

  lemma Shift27()
    ensures (1 as bv32) << 27 == ShiftedLeft(0x1_0000, 11)
  {
    Shift24();
    ShiftedLeftTwice(0x1_0000, 8, 3);
    assert (1 as bv32) << 27 == 0x8000000 && (1 as bv32) << 24 == 0x1000000;
  }

  lemma Shift28()
    ensures (1 as bv32) << 28 == ShiftedLeft(0x1_0000, 12)
  {
    Shift24();
    ShiftedLeftTwice(0x1_0000, 8, 4);
    assert (1 as bv32) << 28 == 0x10000000 && (1 as bv32) << 24 == 0x1000000;
  }

  lemma Shift29()
    ensures (1 as bv32) << 29 == ShiftedLeft(0x1_0000, 13)
  {
    Shift24();
    ShiftedLeftTwice(0x1_0000, 8, 5);
    assert (1 as bv32) << 29 == 0x20000000 && (1 as bv32) << 24 == 0x1000000;
  }

  lemma Shift30()
    ensures (1 as bv32) << 30 == ShiftedLeft(0x1_0000, 14)
  {
    Shift24();
    ShiftedLeftTwice(0x1_0000, 8, 6);
    assert (1 as bv32) << 30 == 0x40000000 && (1 as bv32) << 24 == 0x1000000;
  }

  lemma Shift31()
    ensures (1 as bv32) << 31 == ShiftedLeft(0x1_0000, 15)
  {
    Shift24();
    ShiftedLeftTwice(0x1_0000, 8, 7);
    assert (1 as bv32) << 31 == 0x80000000 && (1 as bv32) << 24 == 0x1000000;
  }

  lemma HighShifts(k: nat)
    requires 16 <= k < 32
    ensures (1 as bv32) << k == ShiftedLeft(1, k)
  {
    ShiftedLeftTwice(1, 8, 8);
    EightShifts(1, 8);
    EightShifts(0x100, 8);
    assert (1 as bv32) << 8 == 0x100 && (0x100 as bv32) << 8 == 0x1_0000;
    hide ShiftedLeft;
    ShiftedLeftTwice(1, 16, k - 16);
    ShiftsFromSixteen(k - 16);
  }

  /** Setting bit `k` of `value` after moving `acc` up is moving up `acc` with that bit behind it. */
  lemma SetBit(acc: bv32, r: bv32, k: nat)
    requires k < 32
    ensures Or(ShiftedLeft(Shl(acc), k), if Low(r) then (1 as bv32) << k else 0) == ShiftedLeft(Or(Shl(acc), r & 1), k)
  {
    OneBit(r);
    assert Low(r) <==> r & 1 == 1;
    hide Or, Shl, Low, ShiftedLeft;
    ShiftedLeftOr(Shl(acc), r & 1, k);
    ShiftedLeftZero(k);
    if k < 16 {
      LowShifts(k);
    } else {
      HighShifts(k);
    }
  }

  lemma MirrorStep(r: bv32, n: nat, v: bv32)
    requires n > 0
    ensures Mirror(r, n, v) == Mirror(r >> 1, n - 1, Or(Shl(v), r & 1))
  {
  }

  class CCRC32 {
    const crc32_table: array<bv32>

    ghost predicate Valid()
      reads this, crc32_table
    {
      crc32_table.Length == 256 && forall i :: 0 <= i < 256 ==> crc32_table[i] == Steps(i as bv32, 8)
    }

    /** Swap bit 0 for bit `ch - 1`, bit 1 for bit `ch - 2`, and so on. */
    static method Reflect(ref: bv32, ch: nat) returns (value: bv32)
      requires ch <= 32
      ensures value == Reflected(ref, ch)
    {
      hide Mirror, ShiftedLeft, Or, Shl, WithBit;
      value := 0;
      var r, i := ref, 1;
      ghost var acc: bv32 := 0;
      ShiftedLeftZero(ch);
      while i < ch + 1
        invariant 1 <= i <= ch + 1
        invariant value == ShiftedLeft(acc, ch + 1 - i)
        invariant Mirror(r, ch + 1 - i, acc) == Mirror(ref, ch, 0)
      {
        MirrorStep(r, ch + 1 - i, acc);
        acc := NextBit(acc, r, value, ch - i);
        value := WithBit(value, r, ch - i);
        r := r >> 1;
        i := i + 1;
      }
      MirrorDone(r, acc);
      ShiftedLeftNone(acc);
    }

    constructor ()
      ensures Valid() && fresh(crc32_table)
    {
      crc32_table := new bv32[256](_ => 0);
      new;
      InitCrc32Table();
    }

    method InitCrc32Table()
      requires crc32_table.Length == 256
      modifies crc32_table
      ensures Valid()
    {
      for i := 0 to 256
        invariant forall k :: 0 <= k < i ==> crc32_table[k] == Steps(k as bv32, 8)
      {
        var entry := FillEntry(i as bv32);
        crc32_table[i] := entry;
      }
    }

    /** The inner loops of the table set-up, for one entry. */
    static method FillEntry(i: bv32) returns (entry: bv32)
      requires i < 0x100
      ensures entry == Steps(i, 8)
    {
      hide Reflected, MsbStep, Steps;
      entry := Reflect(i, 8);
      entry := entry << 24;
      ghost var start := entry;
      for j := 0 to 8
        invariant entry == MsbSteps(start, j)
      {
        MsbStepAsWritten(entry);
        entry := (entry << 1) ^ (if entry & (1 << 31) != 0 then POLYNOMIAL else 0);
      }
      TableEntryIsEightSteps(i);
      entry := Reflect(entry, 32);
    }

    method Lookup(index: bv32) returns (entry: bv32)
      requires Valid() && index < 0x100
      ensures entry == Steps(index, 8)
    {
      hide Steps;
      assert (index as int) as bv32 == index;
      entry := crc32_table[index as int];
    }

    /** One turn of the table-driven loop takes in the eight bits of one byte. */
    method Advance(crc: bv32, byte: bv32, ghost before: seq<bool>) returns (next: bv32)
      requires Valid() && byte < 0x100 && crc == BitSerial(0xFFFF_FFFF, before)
      ensures next == BitSerial(0xFFFF_FFFF, before + Bits(byte, 8))
    {
      hide Steps, BitSerial;
      OneByte(crc, byte, before);
      var entry := Lookup((crc & 0xFF) ^ byte);
      next := (crc >> 8) ^ entry;
    }

    /** The table-driven loop computes the bit-serial CRC-32 of the whole buffer. */
    method GetCrc(buffer: seq<bv8>) returns (crc: bv32)
      requires Valid() && |buffer| <= 0x7FFF_FFFF
      ensures crc == Crc(buffer)
    {
      hide BitSerial, Bits;
      crc := 0xFFFF_FFFF;
      BitSerialNone(crc);
      var k := 0;
      while k < |buffer|
        invariant 0 <= k <= |buffer|
        invariant crc == BitSerial(0xFFFF_FFFF, MessageBits(buffer[..k]))
      {
        assert buffer[..k + 1][..k] == buffer[..k];
        ByteInRange(buffer[k]);
        crc := Advance(crc, buffer[k] as bv32, MessageBits(buffer[..k]));
        k := k + 1;
      }
      assert buffer[..|buffer|] == buffer;
      crc := crc ^ 0xFFFF_FFFF;
    }
  }

  lemma ByteInRange(b: bv8)
    ensures b as bv32 < 0x100
  {
  }

  /** One turn of the reflection loop: the ghost `acc` is the value as it would be built from the bottom. */
  lemma NextBit(acc: bv32, r: bv32, value: bv32, k: nat) returns (acc': bv32)
    requires k < 32 && value == ShiftedLeft(acc, k + 1)
    ensures acc' == Or(Shl(acc), r & 1)
    ensures ShiftedLeft(acc', k) == WithBit(value, r, k)
  {
    hide Or, Shl, Low, ShiftedLeft;
    acc' := Or(Shl(acc), r & 1);
    SetBit(acc, r, k);
    ShiftedLeftStep(acc, k + 1);
    NamedOr(value, r, k);
  }

  lemma ShiftedLeftStep(a: bv32, k: nat)
    requires k > 0
    ensures ShiftedLeft(a, k) == ShiftedLeft(Shl(a), k - 1)
  {
  }

  lemma ShiftedLeftNone(a: bv32)
    ensures ShiftedLeft(a, 0) == a
  {
  }

  /** The reflection loop's step: bit 0 of `r`, if set, becomes bit `k` of `value`. */
  function WithBit(value: bv32, r: bv32, k: nat): bv32
    requires k < 32
  {
    if r & 1 != 0 then value | (1 << k) else value
  }

  lemma NamedOr(value: bv32, r: bv32, k: nat)
    requires k < 32
    ensures Or(value, if Low(r) then (1 as bv32) << k else 0) == WithBit(value, r, k)
  {
    LowAsWritten(r);
    OrZero(value);
    OrAsWritten(value, 1 << k);
    hide Or, Low;
  }

  lemma LowAsWritten(r: bv32)
    ensures Low(r) <==> r & 1 != 0
  {
    OneBit(r);
  }

  lemma OrAsWritten(a: bv32, b: bv32)
    ensures Or(a, b) == a | b
  {
  }

  lemma MsbStepHigh(t: bv32)
    requires t & (1 << 31) != 0
    ensures MsbStep(t) == (t << 1) ^ POLYNOMIAL
  {
  }

  lemma MsbStepLow(t: bv32)
    requires t & (1 << 31) == 0
    ensures MsbStep(t) == (t << 1) ^ 0
  {
    XorZeroBits(t << 1);
  }

  lemma MsbStepAsWritten(t: bv32)
    ensures MsbStep(t) == (t << 1) ^ (if t & (1 << 31) != 0 then POLYNOMIAL else 0)
  {
    hide MsbStep;
    if t & (1 << 31) != 0 {
      MsbStepHigh(t);
    } else {
      MsbStepLow(t);
    }
  }

  lemma XorZeroBits(c: bv32)
    ensures c ^ 0 == c
  {
  }

  lemma BitSerialNone(c: bv32)
    ensures BitSerial(c, []) == c
  {
  }

  /** Eight message bits of the reference are one table step. */
  lemma OneByte(c: bv32, b: bv32, before: seq<bool>)
    requires b < 0x100 && c == BitSerial(0xFFFF_FFFF, before)
    ensures (c & 0xFF) ^ b < 0x100
    ensures BitSerial(0xFFFF_FFFF, before + Bits(b, 8)) == (c >> 8) ^ Steps((c & 0xFF) ^ b, 8)
  {
    hide Steps, BitSerial, Xor;
    SplitLowByte(c, b);
    ByteFits(b);
    BitSerialConcat(0xFFFF_FFFF, before, Bits(b, 8));
    SerialIsParallel(c, b, 8);
    TableStep(c, b);
    XorAsWritten(c >> 8, Steps((c & 0xFF) ^ b, 8));
  }

  lemma XorAsWritten(a: bv32, b: bv32)
    ensures Xor(a, b) == a ^ b
  {
  }

  // ---- What the start value and the final complement are for ----

  lemma EightShifted(c: bv32)
    ensures (c >> 1) >> 1 == c >> 2 && (c >> 2) >> 1 == c >> 3 && (c >> 3) >> 1 == c >> 4 && (c >> 4) >> 1 == c >> 5
    ensures (c >> 5) >> 1 == c >> 6 && (c >> 6) >> 1 == c >> 7 && (c >> 7) >> 1 == c >> 8
  {
  }

  lemma FitsByBytes(c: bv32, n: nat)
    ensures Fits(c, n + 8) == Fits(c >> 8, n)
  {
    EightShifted(c);
    assert Fits(c, n + 8) == Fits(c >> 1, n + 7) == Fits(c >> 2, n + 6) == Fits(c >> 3, n + 5);
    assert Fits(c >> 3, n + 5) == Fits(c >> 4, n + 4) == Fits(c >> 5, n + 3) == Fits(c >> 6, n + 2);
    assert Fits(c >> 6, n + 2) == Fits(c >> 7, n + 1) == Fits(c >> 8, n);
  }

  lemma FourBytesGone(c: bv32)
    ensures ((c >> 8) >> 8) >> 8 == c >> 24 && (c >> 24) >> 8 == 0 && (c >> 8) >> 8 == c >> 16
  {
  }

  lemma AllFits(c: bv32)
    ensures Fits(c, 32)
  {
    FitsByBytes(c, 24);
    FitsByBytes(c >> 8, 16);
    FitsByBytes((c >> 8) >> 8, 8);
    FitsByBytes(((c >> 8) >> 8) >> 8, 0);
    FourBytesGone(c);
  }

  /** `a` and `b` have the same low `n` bits. */
  ghost predicate SameLow(a: bv32, b: bv32, n: nat)
    decreases n
  {
    n == 0 || (a & 1 == b & 1 && SameLow(a >> 1, b >> 1, n - 1))
  }

  lemma {:induction false} SameBits(a: bv32, b: bv32, n: nat)
    requires SameLow(a, b, n)
    ensures Bits(a, n) == Bits(b, n)
    decreases n
  {
    if n > 0 {
      SameBits(a >> 1, b >> 1, n - 1);
    }
  }

  lemma LowBits(c: bv32)
    ensures (c & 0xFF) & 1 == c & 1 && ((c & 0xFF) >> 1) & 1 == (c >> 1) & 1 && ((c & 0xFF) >> 2) & 1 == (c >> 2) & 1
    ensures ((c & 0xFF) >> 3) & 1 == (c >> 3) & 1 && ((c & 0xFF) >> 4) & 1 == (c >> 4) & 1
    ensures ((c & 0xFF) >> 5) & 1 == (c >> 5) & 1 && ((c & 0xFF) >> 6) & 1 == (c >> 6) & 1
    ensures ((c & 0xFF) >> 7) & 1 == (c >> 7) & 1
  {
  }

  lemma LowByteSame(c: bv32)
    ensures SameLow(c & 0xFF, c, 8)
  {
    var b := c & 0xFF;
    LowBits(c);
    EightShifted(c);
    EightShifted(b);
    assert SameLow(b >> 8, c >> 8, 0);
    assert SameLow(b >> 7, c >> 7, 1);
    assert SameLow(b >> 6, c >> 6, 2);
    assert SameLow(b >> 5, c >> 5, 3);
    assert SameLow(b >> 4, c >> 4, 4);
    assert SameLow(b >> 3, c >> 3, 5);
    assert SameLow(b >> 2, c >> 2, 6);
    assert SameLow(b >> 1, c >> 1, 7);
  }

  function Shifted(c: bv32, n: nat): bv32
    decreases n
  {
    if n == 0 then c else Shifted(c >> 1, n - 1)
  }

  lemma ShiftedByByte(c: bv32)
    ensures Shifted(c, 8) == c >> 8
  {
    EightShifted(c);
    assert Shifted(c, 8) == Shifted(c >> 1, 7) == Shifted(c >> 2, 6) == Shifted(c >> 3, 5) == Shifted(c >> 4, 4);
    assert Shifted(c >> 4, 4) == Shifted(c >> 5, 3) == Shifted(c >> 6, 2) == Shifted(c >> 7, 1) == Shifted(c >> 8, 0);
  }

  lemma {:induction false} BitsSplit(c: bv32, m: nat, n: nat)
    ensures Bits(c, m + n) == Bits(c, m) + Bits(Shifted(c, m), n)
    decreases m
  {
    if m > 0 {
      BitsSplit(c >> 1, m - 1, n);
    }
  }

  // Named so that their bits can be left out of an argument.

  function LowByte(c: bv32): bv8 {
    (c & 0xFF) as bv8
  }

  function Rest(c: bv32): bv32 {
    c >> 8
  }

  function ByteBits(b: bv8): seq<bool> {
    Bits(b as bv32, 8)
  }

  lemma ByteOf(c: bv32)
    ensures LowByte(c) as bv32 == c & 0xFF
  {
  }

  /** The bits of a number are those of its low byte and then those of the rest. */
  lemma BitsByBytes(c: bv32, n: nat)
    ensures Bits(c, 8 + n) == ByteBits(LowByte(c)) + Bits(Rest(c), n)
  {
    ByteOf(c);
    hide Bits, SameLow, Shifted;
    BitsSplit(c, 8, n);
    ShiftedByByte(c);
    LowByteSame(c);
    SameBits(c & 0xFF, c, 8);
  }

  /** A number as four message bytes, the low one first. */
  function FourBytes(c: bv32): seq<bv8> {
    [LowByte(c), LowByte(Rest(c)), LowByte(Rest(Rest(c))), LowByte(Rest(Rest(Rest(c))))]
  }

  lemma MessageOneMore(msg: seq<bv8>, b: bv8)
    ensures MessageBits(msg + [b]) == MessageBits(msg) + ByteBits(b)
  {
    assert (msg + [b])[..|msg|] == msg;
  }

  lemma FourBytesBits(msg: seq<bv8>, c: bv32)
    ensures MessageBits(msg + FourBytes(c)) == MessageBits(msg) + Bits(c, 32)
  {
    hide Bits, MessageBits, LowByte, Rest, ByteBits;
    var b0, c1 := LowByte(c), Rest(c);
    var b1, c2 := LowByte(c1), Rest(c1);
    var b2, c3 := LowByte(c2), Rest(c2);
    var b3 := LowByte(c3);
    assert msg + FourBytes(c) == (((msg + [b0]) + [b1]) + [b2]) + [b3];
    MessageOneMore(msg, b0);
    MessageOneMore(msg + [b0], b1);
    MessageOneMore(msg + [b0] + [b1], b2);
    MessageOneMore(msg + [b0] + [b1] + [b2], b3);
    BitsByBytes(c, 24);
    BitsByBytes(c1, 16);
    BitsByBytes(c2, 8);
    BitsByBytes(c3, 0);
    NoBits(Rest(c3));
    hide FourBytes;
    Nested(MessageBits(msg), ByteBits(b0), ByteBits(b1), ByteBits(b2), ByteBits(b3));
  }

  lemma Nested(a: seq<bool>, b0: seq<bool>, b1: seq<bool>, b2: seq<bool>, b3: seq<bool>)
    ensures (((a + b0) + b1) + b2) + b3 == a + (b0 + (b1 + (b2 + (b3 + []))))
  {
  }

  lemma NoBits(c: bv32)
    ensures Bits(c, 0) == []
  {
  }

  lemma {:induction false} StepsTwice(c: bv32, m: nat, n: nat)
    ensures Steps(c, m + n) == Steps(Steps(c, m), n)
    decreases m
  {
    hide BitStep;
    if m > 0 {
      StepsTwice(BitStep(c), m - 1, n);
    }
  }

  lemma Ones8()
    ensures Steps(0xFFFF_FFFF, 8) == 0x2DFD_1072
  {
    assert BitStep(0xFFFF_FFFF) == 0x9247_7CDF && BitStep(0x9247_7CDF) == 0xA49B_3D4F;
    assert BitStep(0xA49B_3D4F) == 0xBFF5_1D87 && BitStep(0xBFF5_1D87) == 0xB242_0DE3;
    assert BitStep(0xB242_0DE3) == 0xB499_85D1 && BitStep(0xB499_85D1) == 0xB7F4_41C8;
    assert BitStep(0xB7F4_41C8) == 0x5BFA_20E4 && BitStep(0x5BFA_20E4) == 0x2DFD_1072;
    hide BitStep;
    assert Steps(0xFFFF_FFFF, 8) == Steps(0xA49B_3D4F, 6) == Steps(0xB242_0DE3, 4);
    assert Steps(0xB242_0DE3, 4) == Steps(0xB7F4_41C8, 2) == Steps(0x2DFD_1072, 0);
  }

  lemma Ones16()
    ensures Steps(0x2DFD_1072, 8) == 0xBE26_ED00
  {
    assert BitStep(0x2DFD_1072) == 0x16FE_8839 && BitStep(0x16FE_8839) == 0xE6C7_C73C;
    assert BitStep(0xE6C7_C73C) == 0x7363_E39E && BitStep(0x7363_E39E) == 0x39B1_F1CF;
    assert BitStep(0x39B1_F1CF) == 0xF160_7BC7 && BitStep(0xF160_7BC7) == 0x9508_BEC3;
    assert BitStep(0x9508_BEC3) == 0xA73C_DC41 && BitStep(0xA73C_DC41) == 0xBE26_ED00;
    hide BitStep;
    assert Steps(0x2DFD_1072, 8) == Steps(0xE6C7_C73C, 6) == Steps(0x39B1_F1CF, 4);
    assert Steps(0x39B1_F1CF, 4) == Steps(0x9508_BEC3, 2) == Steps(0xBE26_ED00, 0);
  }

  lemma Ones24()
    ensures Steps(0xBE26_ED00, 8) == 0x00BE_26ED
  {
    assert BitStep(0xBE26_ED00) == 0x5F13_7680 && BitStep(0x5F13_7680) == 0x2F89_BB40;
    assert BitStep(0x2F89_BB40) == 0x17C4_DDA0 && BitStep(0x17C4_DDA0) == 0x0BE2_6ED0;
    assert BitStep(0x0BE2_6ED0) == 0x05F1_3768 && BitStep(0x05F1_3768) == 0x02F8_9BB4;
    assert BitStep(0x02F8_9BB4) == 0x017C_4DDA && BitStep(0x017C_4DDA) == 0x00BE_26ED;
    hide BitStep;
    assert Steps(0xBE26_ED00, 8) == Steps(0x2F89_BB40, 6) == Steps(0x0BE2_6ED0, 4);
    assert Steps(0x0BE2_6ED0, 4) == Steps(0x02F8_9BB4, 2) == Steps(0x00BE_26ED, 0);
  }

  lemma Ones32()
    ensures Steps(0x00BE_26ED, 8) == 0xDEBB_20E3
  {
    assert BitStep(0x00BE_26ED) == 0xEDE7_9056 && BitStep(0xEDE7_9056) == 0x76F3_C82B;
    assert BitStep(0x76F3_C82B) == 0xD6C1_6735 && BitStep(0xD6C1_6735) == 0x86D8_30BA;
    assert BitStep(0x86D8_30BA) == 0x436C_185D && BitStep(0x436C_185D) == 0xCC0E_8F0E;
    assert BitStep(0xCC0E_8F0E) == 0x6607_4787 && BitStep(0x6607_4787) == 0xDEBB_20E3;
    hide BitStep;
    assert Steps(0x00BE_26ED, 8) == Steps(0x76F3_C82B, 6) == Steps(0x86D8_30BA, 4);
    assert Steps(0x86D8_30BA, 4) == Steps(0xCC0E_8F0E, 2) == Steps(0xDEBB_20E3, 0);
  }

  lemma OnesSteps()
    ensures Steps(0xFFFF_FFFF, 32) == 0xDEBB_20E3
  {
    hide Steps;
    Ones8();
    Ones16();
    Ones24();
    Ones32();
    StepsTwice(0xFFFF_FFFF, 8, 24);
    StepsTwice(0x2DFD_1072, 8, 16);
    StepsTwice(0xBE26_ED00, 8, 8);
  }

  const ONES: bv32 := 0xFFFF_FFFF

  function Flip(c: bv32): bv32 {
    c ^ ONES
  }

  lemma FlipAsWritten(c: bv32)
    ensures Flip(c) == c ^ 0xFFFF_FFFF && Xor(c, Flip(c)) == ONES
  {
  }

  lemma CrcFlips(msg: seq<bv8>)
    ensures Crc(msg) == Flip(BitSerial(ONES, MessageBits(msg)))
  {
    var r := BitSerial(ONES, MessageBits(msg));
    hide BitSerial, MessageBits;
    FlipAsWritten(r);
  }

  lemma FlippedValues()
    ensures Flip(0xDEBB_20E3) == 0x2144_DF1C && Flip(0x2DFD_1072) == 0xD202_EF8D && Flip(ONES) == 0
  {
  }

  /** A message followed by its own checksum always has the same checksum, which is how a receiver checks it. */
  lemma ChecksumOfChecked(msg: seq<bv8>)
    ensures Crc(msg + FourBytes(Crc(msg))) == 0x2144_DF1C
  {
    hide Crc, BitSerial, Bits, MessageBits, Steps, Xor, FourBytes, Flip, Fits;
    var r, c := BitSerial(ONES, MessageBits(msg)), Crc(msg);
    CrcFlips(msg);
    CrcFlips(msg + FourBytes(c));
    FourBytesBits(msg, c);
    BitSerialConcat(ONES, MessageBits(msg), Bits(c, 32));
    AllFits(c);
    SerialIsParallel(r, c, 32);
    FlipAsWritten(r);
    OnesSteps();
    FlippedValues();
  }

  /** Check values: of the empty message, and of a single zero byte. */
  lemma CheckValues()
    ensures Crc([]) == 0 && Crc([0]) == 0xD202_EF8D
  {
    assert MessageBits([]) == [] && [] + [0 as bv8] == [0] && 0 as bv8 as bv32 == 0;
    MessageOneMore([], 0);
    assert ByteBits(0) == Bits(0, 8);
    hide Crc, BitSerial, Bits, MessageBits, Steps, Xor, Flip, Fits, ByteBits;
    CrcFlips([]);
    CrcFlips([0]);
    BitSerialNone(ONES);
    assert [] + Bits(0, 8) == Bits(0, 8);
    ByteFits(0);
    SerialIsParallel(ONES, 0, 8);
    XorZero(ONES);
    Ones8();
    FlippedValues();
  }
}
