/**
 * CRC-32 as computed by demo/demo_utils.c, and the standard CRC-32 it is meant to equal.
 *
 * The C code tests the inverted bit, starts from 0 and applies no final XOR. The standard
 * form (section 8 of RFC 1952) starts from all ones and inverts the result. Both are
 * related here to one bit-serial shift register.
 */
module Crc32 {
  import opened Bytes
  import opened Words
  import opened Folds
  import opened ShiftRegisters

  // ---------------------------------------------------------------- the standard CRC

  const POLYNOMIAL: word := 0xEDB8_8320
  const ONES: word := 0xFFFF_FFFF

  /** One shift of the reflected register. */
  function ShiftBit(c: word): word {
    if Odd(c) then Xor(Half(c), POLYNOMIAL) else Half(c)
  }

  function BitValue(bit: bool): word { if bit then 1 else 0 }

  function FeedBit(c: word, bit: bool): word { ShiftBit(Xor(c, BitValue(bit))) }

  /** Message bits in transmission order: least significant bit of each byte first. */
  function ByteBits(b: byte): (r: seq<bool>)
    ensures |r| == 8
  {
    [b & 1 != 0, b & 2 != 0, b & 4 != 0, b & 8 != 0, b & 16 != 0, b & 32 != 0, b & 64 != 0, b & 128 != 0]
  }

  function MessageBits(data: seq<byte>): seq<bool> { Flatten(ByteBits, data) }

  /** The standard CRC-32 of a message: all ones, every message bit, inverted. */
  function Crc(data: seq<byte>): word { Xor(ONES, Fold(FeedBit, ONES, MessageBits(data))) }

  // ---------------------------------------------------------------- the register's laws

  function Double(p: word): word { p << 1 }
  function Join(bit: bool, p: word): word { Xor(BitValue(bit), Double(p)) }
  predicate TopClear(p: word) { p & 0x8000_0000 == 0 }

  /** The lowest n bits. */
  function Mask(n: nat): word { if n == 0 then 0 else Double(Mask(n - 1)) | 1 }
  predicate Fits(p: word, n: nat) { Within(p, Mask(n)) }
  predicate Within(p: word, m: word) { p & !m == 0 }

  const REGISTER_32: Register<word> := Register(FeedBit, ShiftBit, Xor, Join, 0, Fits, 32)

  lemma {:induction false} MaskGrows(n: nat, m: nat)
    requires n <= m
    ensures Within(Mask(n), Mask(m))
    decreases m
  {
    if n > 0 {
      MaskGrows(n - 1, m - 1);
      MaskGrowsStep(Mask(n - 1), Mask(m - 1));
    } else {
      ZeroWithin(Mask(m));
    }
  }

  lemma ZeroWithin(m: word) ensures Within(0, m) {}

  lemma MaskGrowsStep(a: word, b: word)
    requires Within(a, b)
    ensures Within(Double(a) | 1, Double(b) | 1)
  {}

  lemma WithinTopClear(p: word, m: word)
    requires Within(p, m) && Within(m, 0x7FFF_FFFF)
    ensures TopClear(p)
  {}

  lemma FitsTopClear(p: word, n: nat)
    requires n <= 31 && Fits(p, n)
    ensures TopClear(p)
  {
    MaskGrows(n, 31);
    assert Mask(8) == 0xFF;
    assert Mask(16) == 0xFFFF;
    assert Mask(24) == 0xFF_FFFF;
    assert Mask(31) == 0x7FFF_FFFF;
    WithinTopClear(p, Mask(n));
  }

  lemma JoinWithin(b: bool, p: word, m: word)
    requires Within(p, m)
    ensures Within(Join(b, p), Double(m) | 1)
  {
    if b {} else {}
  }

  lemma DoubleHalves(p: word)
    ensures !Odd(Double(p))
    ensures TopClear(p) ==> Half(Double(p)) == p
  {}

  lemma ShiftBitAdditive(a: word, b: word)
    ensures ShiftBit(Xor(a, b)) == Xor(ShiftBit(a), ShiftBit(b))
  {
    OddXor(a, b);
    HalfXor(a, b);
    var x, y := Half(a), Half(b);
    if Odd(a) && Odd(b) {
      XorPairs(x, POLYNOMIAL, y, POLYNOMIAL);
      XorSelf(POLYNOMIAL);
      XorZero(Xor(x, y));
    } else if Odd(a) {
      XorSwap(x, POLYNOMIAL, y);
    } else if Odd(b) {
      XorAssociates(x, y, POLYNOMIAL);
    }
  }

  /** The polynomial's top bit is set, so the shifted-out bit can be recovered. */
  lemma ShiftBitInjective(a: word, b: word)
    requires ShiftBit(a) == ShiftBit(b)
    ensures a == b
  {
    TopBit(a);
    TopBit(b);
    if Odd(a) {
      XorCommutes(Half(a), POLYNOMIAL);
      XorCommutes(Half(b), POLYNOMIAL);
      XorInjective(POLYNOMIAL, Half(a), Half(b));
    }
    SameHalves(a, b);
  }

  lemma TopBit(a: word)
    ensures TopClear(Half(a)) && !TopClear(Xor(Half(a), POLYNOMIAL))
  {}

  lemma SameHalves(a: word, b: word)
    requires Half(a) == Half(b) && Odd(a) == Odd(b)
    ensures a == b
  {}

  lemma OddBit(bit: bool) ensures Odd(BitValue(bit)) == bit {}

  lemma JoinFitsLaw(bit: bool, p: word, n: nat)
    ensures JoinFits(REGISTER_32, bit, p, n)
  {
    if Fits(p, n) { JoinWithin(bit, p, Mask(n)); }
  }

  lemma FeedIsShiftLaw(c: word, bit: bool, p: word, n: nat)
    ensures FeedIsShift(REGISTER_32, c, bit, p, n)
  {
    if n < 32 && Fits(p, n) {
      FitsTopClear(p, n);
      DoubleHalves(p);
      XorAssociates(c, BitValue(bit), Double(p));
      ShiftBitAdditive(Xor(c, BitValue(bit)), Double(p));
    }
  }

  lemma JoinParts(bit: bool, p: word)
    requires TopClear(p)
    ensures Odd(Join(bit, p)) == bit && Half(Join(bit, p)) == p
  {
    DoubleHalves(p);
    OddXor(BitValue(bit), Double(p));
    OddBit(bit);
    HalfXor(BitValue(bit), Double(p));
    assert Half(BitValue(bit)) == 0;
    XorCommutes(0, p);
    XorZero(p);
  }

  lemma JoinInjectiveLaw(a: bool, b: bool, p: word, q: word, n: nat)
    ensures JoinInjective(REGISTER_32, a, b, p, q, n)
  {
    if n < 32 && Fits(p, n) && Fits(q, n) {
      FitsTopClear(p, n);
      FitsTopClear(q, n);
      JoinParts(a, p);
      JoinParts(b, q);
    }
  }

  lemma FeedBitInjective()
    ensures InjectiveStep(FeedBit)
  {
    forall a: word, b: word, e: bool | FeedBit(a, e) == FeedBit(b, e) ensures a == b {
      ShiftBitInjective(Xor(a, BitValue(e)), Xor(b, BitValue(e)));
      XorTwice(a, BitValue(e));
      XorTwice(b, BitValue(e));
    }
  }

  lemma Register32Laws()
    ensures Laws(REGISTER_32)
  {
    var m := REGISTER_32;
    forall c ensures m.xor(c, m.zero) == c { XorZero(c); }
    forall bit, p, n ensures JoinFits(m, bit, p, n) { JoinFitsLaw(bit, p, n); }
    forall c, bit, p, n ensures FeedIsShift(m, c, bit, p, n) { FeedIsShiftLaw(c, bit, p, n); }
    forall a, b, p, q, n ensures JoinInjective(m, a, b, p, q, n) { JoinInjectiveLaw(a, b, p, q, n); }
    forall a, b | m.shift(a) == m.shift(b) ensures a == b { ShiftBitInjective(a, b); }
    forall x, a, b | m.xor(x, a) == m.xor(x, b) ensures a == b { XorInjective(x, a, b); }
    FeedBitInjective();
  }

  lemma Register32Additive()
    ensures Additive(REGISTER_32)
  {
    var m := REGISTER_32;
    forall a, b ensures m.shift(m.xor(a, b)) == m.xor(m.shift(a), m.shift(b)) { ShiftBitAdditive(a, b); }
  }

  // ---------------------------------------------------------------- error detection

  lemma ByteBitsInjective()
    ensures forall d: byte, e: byte :: ByteBits(d) == ByteBits(e) ==> d == e
  {
    forall d: byte, e: byte | ByteBits(d) == ByteBits(e) ensures d == e {
      var x, y := ByteBits(d), ByteBits(e);
      assert x[0] == y[0] && x[1] == y[1] && x[2] == y[2] && x[3] == y[3];
      assert x[4] == y[4] && x[5] == y[5] && x[6] == y[6] && x[7] == y[7];
      EightBits(d, e);
    }
  }

  lemma EightBits(d: byte, e: byte)
    requires d & 1 != 0 <==> e & 1 != 0
    requires d & 2 != 0 <==> e & 2 != 0
    requires d & 4 != 0 <==> e & 4 != 0
    requires d & 8 != 0 <==> e & 8 != 0
    requires d & 16 != 0 <==> e & 16 != 0
    requires d & 32 != 0 <==> e & 32 != 0
    requires d & 64 != 0 <==> e & 64 != 0
    requires d & 128 != 0 <==> e & 128 != 0
    ensures d == e
  {}

  /** A burst error of at most 32 bits anywhere in a message of any length changes its CRC. */
  lemma BurstDetected(a: seq<byte>, b: seq<byte>, at: nat)
    requires a != b && DifferInBurst(MessageBits(a), MessageBits(b), at, 32)
    ensures Crc(a) != Crc(b)
  {
    ByteBitsInjective();
    if MessageBits(a) == MessageBits(b) {
      FlattenInjective(ByteBits, a, b);
      assert false;
    }
    Register32Laws();
    BurstSeparates(REGISTER_32, ONES, MessageBits(a), MessageBits(b), at);
    if Crc(a) == Crc(b) {
      XorInjective(ONES, Fold(FeedBit, ONES, MessageBits(a)), Fold(FeedBit, ONES, MessageBits(b)));
      assert false;
    }
  }

  /** Two images of one length that differ only inside four consecutive bytes never share a CRC. */
  lemma WindowDetected(a: seq<byte>, b: seq<byte>, at: nat)
    requires |a| == |b| && a != b
    requires forall k :: 0 <= k < |a| && !(at <= k < at + 4) ==> a[k] == b[k]
    ensures Crc(a) != Crc(b)
  {
    var x, y := MessageBits(a), MessageBits(b);
    FlattenUniform(ByteBits, a);
    FlattenUniform(ByteBits, b);
    forall k | 0 <= k < |x| && !(8 * at <= k < 8 * at + 32) ensures x[k] == y[k] {
      var q, r := k / 8, k % 8;
      FlattenAt(ByteBits, a, q);
      FlattenAt(ByteBits, b, q);
      assert x[8 * q..8 * q + 8][r] == x[k] && y[8 * q..8 * q + 8][r] == y[k];
    }
    BurstDetected(a, b, 8 * at);
  }

  // ---------------------------------------------------------------- byte at a time

  /** XOR a whole byte in, then shift eight times. */
  function FeedByte(c: word, b: byte): word { Shifts(REGISTER_32, Xor(c, Widen(b)), 8) }

  lemma PackByte(b: byte)
    ensures Pack(REGISTER_32, ByteBits(b)) == Widen(b)
  {
    PackOctet(REGISTER_32, ByteBits(b));
    BitsByShifts(b);
    PeelBit(b);
    PeelBit(b >> 1);
    PeelBit(b >> 2);
    PeelBit(b >> 3);
    PeelBit(b >> 4);
    PeelBit(b >> 5);
    PeelBit(b >> 6);
    PeelBit(b >> 7);
    assert Widen(b >> 8) == 0;
  }

  lemma PeelBit(b: byte)
    ensures Widen(b) == Join(b & 1 != 0, Widen(b >> 1))
  {
    if b & 1 != 0 {} else {}
  }

  lemma BitsByShifts(b: byte)
    ensures ByteBits(b) == [b & 1 != 0, (b >> 1) & 1 != 0, (b >> 2) & 1 != 0, (b >> 3) & 1 != 0,
                            (b >> 4) & 1 != 0, (b >> 5) & 1 != 0, (b >> 6) & 1 != 0, (b >> 7) & 1 != 0]
    ensures (b >> 1) >> 1 == b >> 2 && (b >> 2) >> 1 == b >> 3 && (b >> 3) >> 1 == b >> 4 && (b >> 4) >> 1 == b >> 5
    ensures (b >> 5) >> 1 == b >> 6 && (b >> 6) >> 1 == b >> 7 && (b >> 7) >> 1 == b >> 8 == 0
  {}

  /** The byte-wise register is the bit-serial one. */
  lemma BytesAreBits(c: word, data: seq<byte>)
    ensures Fold(FeedByte, c, data) == Fold(FeedBit, c, MessageBits(data))
  {
    Register32Laws();
    forall s: word, b: byte ensures FeedByte(s, b) == Fold(FeedBit, s, ByteBits(b)) {
      FeedPacked(REGISTER_32, s, ByteBits(b));
      PackByte(b);
    }
    FoldFlatten(FeedByte, FeedBit, ByteBits, c, data);
  }

  lemma CrcByBytes(data: seq<byte>)
    ensures Crc(data) == Xor(ONES, Fold(FeedByte, ONES, data))
  {
    BytesAreBits(ONES, data);
  }

  // ---------------------------------------------------------------- why four bytes

  lemma FeedByteAdditive(x: word, y: word, d: byte, e: byte)
    ensures FeedByte(Xor(x, y), XorByte(d, e)) == Xor(FeedByte(x, d), FeedByte(y, e))
  {
    Register32Additive();
    WidenXor(d, e);
    XorPairs(x, y, Widen(d), Widen(e));
    ShiftsAdditive(REGISTER_32, Xor(x, Widen(d)), Xor(y, Widen(e)), 8);
  }

  lemma KnownStep(c: word, b: byte, r: word)
    requires ShiftBit(ShiftBit(ShiftBit(ShiftBit(ShiftBit(ShiftBit(ShiftBit(ShiftBit(Xor(c, Widen(b)))))))))) == r
    ensures FeedByte(c, b) == r
  {
    ShiftsOctet(REGISTER_32, Xor(c, Widen(b)));
  }

  /** The generator polynomial itself, as five message bytes: it drives a zero register back to zero. */
  const GENERATOR: seq<byte> := [0x41, 0x06, 0x71, 0xDB, 0x01]

  lemma GeneratorVanishes()
    ensures Fold(FeedByte, 0, GENERATOR) == 0
  {
    KnownStep(0, 0x41, 0x01DB_7106);
    KnownStep(0x01DB_7106, 0x06, 0x0001_DB71);
    KnownStep(0x0001_DB71, 0x71, 0x0000_01DB);
    KnownStep(0x0000_01DB, 0xDB, 0x0000_0001);
    KnownStep(0x0000_0001, 0x01, 0);
    FoldFive(FeedByte, 0, GENERATOR);
  }

  lemma FeedByteInjectiveStep()
    ensures InjectiveStep(FeedByte)
  {
    forall x: word, y: word, d: byte | FeedByte(x, d) == FeedByte(y, d) ensures x == y {
      FeedByteInjective(x, y, d);
    }
  }

  lemma FeedByteInjective(x: word, y: word, d: byte)
    requires FeedByte(x, d) == FeedByte(y, d)
    ensures x == y
  {
    FeedBitInjective();
    BytesAreBits(x, [d]);
    BytesAreBits(y, [d]);
    FoldInjective(FeedBit, x, y, MessageBits([d]));
  }

  /**
   * In every context, two windows of one length give the same CRC if and only if their difference drives a zero register
   * back to zero.
   */
  lemma WindowsCollide(before: seq<byte>, v: seq<byte>, w: seq<byte>, after: seq<byte>)
    requires |v| == |w|
    ensures Crc(before + v + after) == Crc(before + w + after) <==> Fold(FeedByte, 0, Mixed(XorByte, v, w)) == 0
  {
    var c := Fold(FeedByte, ONES, before);
    var x, y := Fold(FeedByte, c, v), Fold(FeedByte, c, w);
    FeedByteAdditiveStep();
    FoldAdditive(FeedByte, Xor, XorByte, c, c, v, w);
    XorSelf(c);
    ThreeParts(before, v, after);
    ThreeParts(before, w, after);
    if Xor(ONES, Fold(FeedByte, x, after)) == Xor(ONES, Fold(FeedByte, y, after)) {
      XorInjective(ONES, Fold(FeedByte, x, after), Fold(FeedByte, y, after));
      FeedByteInjectiveStep();
      FoldInjective(FeedByte, x, y, after);
      XorSelf(x);
    } else if Xor(x, y) == 0 {
      XorSelf(x);
      XorInjective(x, x, y);
    }
  }

  function Disturbed(window: seq<byte>): seq<byte>
    requires |window| == 5
  {
    Mixed(XorByte, window, GENERATOR)
  }

  /** Four bytes is the largest window: every five-byte window has a partner with the same CRC in every context. */
  lemma FiveByteWindowCollides(before: seq<byte>, window: seq<byte>, after: seq<byte>)
    requires |window| == 5
    ensures Disturbed(window) != window
    ensures Crc(before + window + after) == Crc(before + Disturbed(window) + after)
  {
    var c := Fold(FeedByte, ONES, before);
    DisturbedFold(c, window);
    ThreeParts(before, window, after);
    ThreeParts(before, Disturbed(window), after);
    assert Disturbed(window)[0] == XorByte(window[0], 0x41);
    Changed(window[0]);
  }

  lemma DisturbedFold(c: word, window: seq<byte>)
    requires |window| == 5
    ensures Fold(FeedByte, c, Disturbed(window)) == Fold(FeedByte, c, window)
  {
    FeedByteAdditiveStep();
    FoldAdditive(FeedByte, Xor, XorByte, c, 0, window, GENERATOR);
    GeneratorVanishes();
    XorZero(c);
    XorZero(Fold(FeedByte, c, window));
  }

  lemma FeedByteAdditiveStep()
    ensures AdditiveStep(FeedByte, Xor, XorByte)
  {
    forall x: word, y: word, d: byte, e: byte
      ensures FeedByte(Xor(x, y), XorByte(d, e)) == Xor(FeedByte(x, d), FeedByte(y, e))
    {
      FeedByteAdditive(x, y, d, e);
    }
  }

  lemma Changed(b: byte) ensures XorByte(b, 0x41) != b {}

  lemma ThreeParts(x: seq<byte>, y: seq<byte>, z: seq<byte>)
    ensures Crc(x + y + z) == Xor(ONES, Fold(FeedByte, Fold(FeedByte, Fold(FeedByte, ONES, x), y), z))
  {
    CrcByBytes(x + y + z);
    FoldAppend(FeedByte, ONES, x + y, z);
    FoldAppend(FeedByte, ONES, x, y);
  }

  // ---------------------------------------------------------------- the C code's steps

  /** What the inverted bit test has added after 0, 1, ..., 8 steps. */
  const TOP_ONES: seq<word> := [0, 0x8000_0000, 0xC000_0000, 0xE000_0000, 0xF000_0000,
                               0xF800_0000, 0xFC00_0000, 0xFE00_0000, 0xFF00_0000]

  lemma TopOnesStep(i: nat)
    requires i < 8
    ensures !Odd(TOP_ONES[i]) && TOP_ONES[i + 1] == Xor(Half(TOP_ONES[i]), 0x8000_0000)
  {
    if i == 0 {} else if i == 1 {} else if i == 2 {} else if i == 3 {}
    else if i == 4 {} else if i == 5 {} else if i == 6 {} else {}
  }

  function InvertedShift(r: word): word { if Odd(r) then Half(r) else Xor(Half(r), POLYNOMIAL) }

  /** The inverted register under the inverted test follows the plain register, up to the top bits. */
  lemma InvertedStep(r: word, q: word, m: word)
    requires r == Xor(Xor(ONES, q), m) && !Odd(m)
    ensures InvertedShift(r) == Xor(Xor(ONES, ShiftBit(q)), Xor(Half(m), 0x8000_0000))
  {
    var h, t := Half(q), 0x8000_0000;
    OddXor(Xor(ONES, q), m);
    OddXor(ONES, q);
    HalfXor(Xor(ONES, q), m);
    HalfXor(ONES, q);
    assert Half(ONES) == Xor(ONES, t);
    XorSwap(ONES, t, h);
    var x := Xor(ONES, h);
    assert Half(r) == Xor(Xor(x, t), Half(m));
    XorAssociates(x, t, Half(m));
    XorCommutes(t, Half(m));
    if Odd(q) {
      XorSwap(x, Xor(Half(m), t), POLYNOMIAL);
      XorAssociates(ONES, h, POLYNOMIAL);
    }
  }

  lemma OneByte(value: byte)
    ensures Crc([value]) == Xor(ONES, FeedByte(ONES, value))
  {
    CrcByBytes([value]);
    assert [value][..0] == [];
  }

  function DropByte(c: word): word { c >> 8 }
  function TableStep(entry: word, c: word): word { entry ^ (c >> 8) }

  lemma TableStepXor(entry: word, c: word)
    ensures TableStep(entry, c) == Xor(entry, DropByte(HighBytes(c)))
  {}

  lemma EightZeros(y: word)
    requires y == HighBytes(y)
    ensures ShiftBit(ShiftBit(ShiftBit(ShiftBit(ShiftBit(ShiftBit(ShiftBit(ShiftBit(y)))))))) == DropByte(y)
  {}

  lemma HighBytesAgain(s: word) ensures HighBytes(HighBytes(s)) == HighBytes(s) {}

  lemma ShiftedOut(x: word, s: word)
    ensures Shifts(REGISTER_32, Xor(x, HighBytes(s)), 8) == Xor(Shifts(REGISTER_32, x, 8), DropByte(HighBytes(s)))
  {
    var y := HighBytes(s);
    Register32Additive();
    ShiftsAdditive(REGISTER_32, x, y, 8);
    ShiftsOctet(REGISTER_32, y);
    HighBytesAgain(s);
    EightZeros(y);
  }

  /** One table look-up advances the inverted register by one byte. */
  lemma LookupStep(s: word, b: byte)
    ensures TableStep(Crc([XorByte(b, LowByte(s))]), s) == Xor(ONES, FeedByte(Xor(ONES, s), b))
  {
    var v := XorByte(b, LowByte(s));
    OneByte(v);
    IndexSplits(s, b);
    ShiftedOut(Xor(ONES, Widen(v)), s);
    TableStepXor(Crc([v]), s);
    XorAssociates(ONES, FeedByte(ONES, v), DropByte(HighBytes(s)));
  }

  lemma IndexSplits(s: word, b: byte)
    ensures Xor(Xor(ONES, s), Widen(b)) == Xor(Xor(ONES, Widen(XorByte(b, LowByte(s)))), HighBytes(s))
  {
    var l, h := Widen(LowByte(s)), HighBytes(s);
    SplitWord(s);
    WidenXor(b, LowByte(s));
    XorAssociates(ONES, l, h);
    XorSwap(Xor(ONES, l), h, Widen(b));
    XorAssociates(ONES, l, Widen(b));
    XorCommutes(l, Widen(b));
  }
}
