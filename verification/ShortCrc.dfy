/**
 * The CRC-8 of neumo-dvb-demux.c is the remainder of schoolbook division by
 * x^8 + x^7 + x^6 + x^4 + x^2 + 1, for messages of any length.
 */
module ShortCrc {
  import opened Bytes
  import opened CrcTables
  import opened Crc

  /** Addition of short polynomials. */
  function Add(a: bv8, b: bv8): bv8 {
    a ^ b
  }

  function Up(x: bv8): bv8 {
    x << 1
  }

  predicate TopSet(x: bv8) {
    x & 0x80 != 0
  }

  // ---------------------------------------------------------------------------------------------
  // Division, and feeding at the top
  // ---------------------------------------------------------------------------------------------

  function ShortSteps(r: bv8, n: nat): bv8
    decreases n
  {
    if n == 0 then r else ShortSteps(ShortStep(r), n - 1)
  }

  /** The message is shifted in at the bottom. */
  function ShiftIn(r: bv8, bit: bool): bv8 {
    if bit then Add(ShortStep(r), 1) else ShortStep(r)
  }

  /** Schoolbook: the message is shifted in at the bottom and the divisor taken off at the top. */
  function ShortDivision(r: bv8, bits: seq<bool>): bv8
    decreases |bits|
  {
    if bits == [] then r else ShortDivision(ShiftIn(r, bits[0]), bits[1..])
  }

  /** A bit of the message meets the top bit of the register. */
  function FeedOne(r: bv8, bit: bool): bv8 {
    ShortStep(if bit then Add(r, 0x80) else r)
  }

  function ShortFeed(r: bv8, bits: seq<bool>): bv8
    decreases |bits|
  {
    if bits == [] then r else ShortFeed(FeedOne(r, bits[0]), bits[1..])
  }

  lemma {:induction false} ShortDivisionZeros(r: bv8, n: nat)
    ensures ShortDivision(r, Zeros(n)) == ShortSteps(r, n)
    decreases n
  {
    hide ShortStep, Add;
    if n > 0 {
      ShortDivisionZeros(ShortStep(r), n - 1);
      assert Zeros(n)[1..] == Zeros(n - 1);
    }
  }

  /** A bit put in at the bottom does eight steps later what it does at the top at once. */
  lemma BottomIsTop(r: bv8, bit: bool)
    ensures ShortStep8(ShiftIn(r, bit)) == FeedOne(ShortStep8(r), bit)
  {
  }

  lemma EightSteps(r: bv8)
    ensures ShortSteps(r, 8) == ShortStep8(r)
  {
    hide ShortStep;
    FourSteps(r, 4);
    FourSteps(ShortStep(ShortStep(ShortStep(ShortStep(r)))), 0);
  }

  lemma FourSteps(r: bv8, n: nat)
    ensures ShortSteps(r, n + 4) == ShortSteps(ShortStep(ShortStep(ShortStep(ShortStep(r)))), n)
  {
    hide ShortStep;
    assert ShortSteps(r, n + 4) == ShortSteps(ShortStep(r), n + 3);
    assert ShortSteps(ShortStep(ShortStep(r)), n + 2) == ShortSteps(ShortStep(ShortStep(ShortStep(r))), n + 1);
  }

  /** Feeding at the top is long division of the message with 8 zero bits behind it. */
  lemma {:induction false} ShortFeedIsDivision(r: bv8, bits: seq<bool>)
    ensures ShortFeed(ShortStep8(r), bits) == ShortDivision(r, bits + Zeros(8))
    decreases |bits|
  {
    hide ShortStep, ShortStep8, Zeros, ShiftIn, FeedOne;
    if bits == [] {
      assert bits + Zeros(8) == Zeros(8);
      ShortDivisionZeros(r, 8);
      EightSteps(r);
    } else {
      BottomIsTop(r, bits[0]);
      ShortFeedIsDivision(ShiftIn(r, bits[0]), bits[1..]);
      assert (bits + Zeros(8))[1..] == bits[1..] + Zeros(8);
    }
  }

  lemma {:induction false} ShortFeedSplit(r: bv8, a: seq<bool>, b: seq<bool>)
    ensures ShortFeed(r, a + b) == ShortFeed(ShortFeed(r, a), b)
    decreases |a|
  {
    hide FeedOne;
    if a == [] {
      assert a + b == b;
    } else {
      assert (a + b)[1..] == a[1..] + b;
      ShortFeedSplit(FeedOne(r, a[0]), a[1..], b);
    }
  }

  // ---------------------------------------------------------------------------------------------
  // Byte by byte
  // ---------------------------------------------------------------------------------------------

  /** The top `n` bits of a byte, highest first. */
  function ByteBits(x: bv8, n: nat): (bits: seq<bool>)
    ensures |bits| == n
    decreases n
  {
    if n == 0 then [] else [TopSet(x)] + ByteBits(Up(x), n - 1)
  }

  function UpBy(x: bv8, n: nat): bv8
    decreases n
  {
    if n == 0 then x else UpBy(Up(x), n - 1)
  }

  /** The bits of `x` below the top reach it one step later. */
  lemma NextShort(r: bv8, x: bv8)
    ensures ShortStep(Add(r, x)) == Add(FeedOne(r, TopSet(x)), Up(x))
  {
    TopOfSum(r, x);
    TopOfSum(r, 0x80);
    UpOfSum(r, x);
    UpOfSum(r, 0x80);
    StepIs(Add(r, x));
    StepIs(if TopSet(x) then Add(r, 0x80) else r);
    AddLaws(Up(r), Up(x), 0xd5);
    AddLaws(Up(r), 0, 0xd5);
    assert TopSet(0x80) && Up(0x80) == 0;
    hide ShortStep, Add, TopSet, Up;
  }

  lemma StepIs(r: bv8)
    ensures ShortStep(r) == if TopSet(r) then Add(Up(r), 0xd5) else Up(r)
  {
  }

  lemma TopOfSum(a: bv8, b: bv8)
    ensures TopSet(Add(a, b)) <==> TopSet(a) != TopSet(b)
  {
  }

  lemma UpOfSum(a: bv8, b: bv8)
    ensures Up(Add(a, b)) == Add(Up(a), Up(b))
  {
  }

  lemma AddLaws(a: bv8, b: bv8, c: bv8)
    ensures Add(Add(a, b), c) == Add(Add(a, c), b) && Add(a, 0) == a
  {
  }

  lemma {:induction false} FeedByteBits(r: bv8, x: bv8, n: nat)
    ensures ShortSteps(Add(r, x), n) == Add(ShortFeed(r, ByteBits(x, n)), UpBy(x, n))
    decreases n
  {
    hide ShortStep, Add, FeedOne, TopSet, Up;
    if n > 0 {
      NextShort(r, x);
      FeedByteBits(FeedOne(r, TopSet(x)), Up(x), n - 1);
      assert ByteBits(x, n)[1..] == ByteBits(Up(x), n - 1);
    }
  }

  lemma NothingLeft(x: bv8)
    ensures UpBy(x, 8) == 0
  {
    hide Up;
    UpByFour(x, 4);
    UpByFour(Up(Up(Up(Up(x)))), 0);
    UpEight(x);
  }

  lemma UpByFour(x: bv8, n: nat)
    ensures UpBy(x, n + 4) == UpBy(Up(Up(Up(Up(x)))), n)
  {
    hide Up;
    assert UpBy(x, n + 4) == UpBy(Up(x), n + 3);
    assert UpBy(Up(Up(x)), n + 2) == UpBy(Up(Up(Up(x))), n + 1);
  }

  lemma UpEight(x: bv8)
    ensures Up(Up(Up(Up(Up(Up(Up(Up(x)))))))) == 0
  {
  }

  lemma AddZero(x: bv8)
    ensures Add(x, 0) == x
  {
  }

  /** Eight bits at the top, one after the other, or a whole byte. */
  lemma FeedByte(r: bv8, x: bv8)
    ensures ShortFeed(r, ByteBits(x, 8)) == ShortStep8(Add(r, x))
  {
    hide ShortStep8, ShortSteps, ShortFeed, Add, ByteBits, UpBy;
    FeedByteBits(r, x, 8);
    NothingLeft(x);
    AddZero(ShortFeed(r, ByteBits(x, 8)));
    EightSteps(Add(r, x));
  }

  /** A byte at the top of the longer register. */
  function Widened(x: bv8): bv32 {
    (x as bv32) << 24
  }

  lemma WidenedUp(x: bv8)
    ensures Widened(Up(x)) == Widened(x) << 1 && (Widened(x) & TOP != 0 <==> TopSet(x))
  {
  }

  lemma WidenedByte(b: Byte)
    ensures AtTop(b) == Widened(b as bv8)
  {
    assert (b as bv8) as bv32 == b as bv32;
  }

  /** Both checksums see the same bits. */
  lemma {:induction false} SameBits(x: bv8, n: nat)
    ensures TopBits(Widened(x), n) == ByteBits(x, n)
    decreases n
  {
    hide Widened, Up, TopSet;
    if n > 0 {
      WidenedUp(x);
      SameBits(Up(x), n - 1);
    }
  }

  lemma {:induction false} Crc8IsFeed(crc: Byte, data: seq<Byte>)
    ensures Register(Crc8(crc, data)) == ShortFeed(Register(crc), BitsOf(data))
    decreases |data|
  {
    hide TopBits, AtTop, ShortFeed, Crc8Byte, Register;
    if data == [] {
      NothingFed(Register(crc));
    } else {
      OneByte(crc, data[0]);
      ShortFeedSplit(Register(crc), TopBits(AtTop(data[0]), 8), BitsOf(data[1..]));
      Crc8IsFeed(Crc8Byte(crc, data[0]), data[1..]);
    }
  }

  function Register(crc: Byte): bv8 {
    crc as bv8
  }

  lemma OneByte(crc: Byte, b: Byte)
    ensures Register(Crc8Byte(crc, b)) == ShortFeed(Register(crc), TopBits(AtTop(b), 8))
  {
    hide ShortStep8, TopBits, AtTop, ByteBits, ShortFeed, Widened;
    WidenedByte(b);
    SameBits(b as bv8, 8);
    FeedByte(crc as bv8, b as bv8);
    ThroughByte(ShortStep8(Add(crc as bv8, b as bv8)));
  }

  lemma NothingFed(r: bv8)
    ensures ShortFeed(r, []) == r
  {
  }

  lemma ThroughByte(x: bv8)
    ensures (x as int) as bv8 == x
  {
  }

  /**
   * The fold over bytes divides: started from what `r` becomes in 8 steps, it leaves the remainder
   * schoolbook division from `r` leaves of the message followed by 8 zero bits.
   */
  lemma Crc8IsRemainder(r: bv8, data: seq<Byte>)
    ensures Crc8(ShortStep8(r) as int, data) as bv8 == ShortDivision(r, BitsOf(data) + Zeros(8))
  {
    hide ShortStep8;
    ThroughByte(ShortStep8(r));
    Crc8IsFeed(ShortStep8(r) as int, data);
    ShortFeedIsDivision(r, BitsOf(data));
  }

  /** compute_crc8 starts from 0: the plain remainder. */
  lemma ComputedCrc8IsRemainder(data: seq<Byte>)
    ensures Crc8(0, data) as bv8 == ShortDivision(0, BitsOf(data) + Zeros(8))
  {
    hide Crc8, ShortDivision, Zeros, BitsOf;
    ZeroStays();
    Crc8IsRemainder(0, data);
  }

  lemma ZeroStays()
    ensures ShortStep8(0) as int == 0
  {
  }
}
