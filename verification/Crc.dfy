/**
 * The two checksums of neumo-dvb-demux.c: the table driven folds are division of polynomials over
 * two elements, they can be taken in pieces, and a message followed by its own CRC-32 leaves 0.
 */
module Crc {
  import opened Bytes
  import opened CrcTables

  const TOP: bv32 := 0x8000_0000

  /** Addition of polynomials over two elements. */
  function Xor(a: bv32, b: bv32): bv32 {
    a ^ b
  }

  lemma XorLaws(a: bv32, b: bv32, c: bv32)
    ensures Xor(a, b) == Xor(b, a) && Xor(Xor(a, b), c) == Xor(a, Xor(b, c))
    ensures Xor(a, 0) == a && Xor(0, a) == a && (Xor(a, b) == 0 <==> a == b)
  {
    Commutes(a, b);
    Associates(a, b, c);
    Neutral(a, b);
  }

  lemma Commutes(a: bv32, b: bv32)
    ensures a ^ b == b ^ a
  {
  }

  lemma Associates(a: bv32, b: bv32, c: bv32)
    ensures (a ^ b) ^ c == a ^ (b ^ c)
  {
  }

  lemma Neutral(a: bv32, b: bv32)
    ensures a ^ 0 == a && 0 ^ a == a && (a ^ b == 0 <==> a == b)
  {
  }

  // ---------------------------------------------------------------------------------------------
  // One division step, and many
  // ---------------------------------------------------------------------------------------------

  lemma StepLinear(a: bv32, b: bv32)
    ensures Step(Xor(a, b)) == Xor(Step(a), Step(b))
  {
    hide Step;
    StepCases(a);
    StepCases(b);
    StepCases(a ^ b);
    ShiftLinear(a, b);
    TopBitLinear(a, b);
    XorCancels(a << 1, b << 1, 0x04c1_1db7);
  }

  lemma StepCases(a: bv32)
    ensures a & TOP != 0 ==> Step(a) == (a << 1) ^ 0x04c1_1db7
    ensures a & TOP == 0 ==> Step(a) == a << 1
  {
  }

  lemma ShiftLinear(a: bv32, b: bv32)
    ensures (a ^ b) << 1 == (a << 1) ^ (b << 1)
  {
  }

  lemma TopBitLinear(a: bv32, b: bv32)
    ensures ((a ^ b) & TOP != 0) <==> ((a & TOP != 0) != (b & TOP != 0))
  {
  }

  lemma XorCancels(a: bv32, b: bv32, p: bv32)
    ensures (a ^ p) ^ b == (a ^ b) ^ p && a ^ (b ^ p) == (a ^ b) ^ p && (a ^ p) ^ (b ^ p) == a ^ b
  {
  }

  /** The constant term of the divisor makes a step lose nothing. */
  lemma StepInjective(a: bv32)
    ensures Step(a) == 0 <==> a == 0
  {
  }

  function Steps(r: bv32, n: nat): bv32
    decreases n
  {
    if n == 0 then r else Steps(Step(r), n - 1)
  }

  lemma {:induction false} StepsLinear(a: bv32, b: bv32, n: nat)
    ensures Steps(Xor(a, b), n) == Xor(Steps(a, n), Steps(b, n))
    decreases n
  {
    hide Step, Xor;
    if n > 0 {
      StepLinear(a, b);
      StepsLinear(Step(a), Step(b), n - 1);
    }
  }

  lemma {:induction false} StepsInjective(a: bv32, n: nat)
    ensures Steps(a, n) == 0 <==> a == 0
    decreases n
  {
    hide Step;
    if n > 0 {
      StepInjective(a);
      StepsInjective(Step(a), n - 1);
    }
  }

  lemma {:induction false} StepsAdd(a: bv32, m: nat, n: nat)
    ensures Steps(a, m + n) == Steps(Steps(a, m), n)
    decreases m
  {
    hide Step;
    if m > 0 { StepsAdd(Step(a), m - 1, n); }
  }

  lemma TwoSteps(a: bv32)
    ensures Steps(a, 2) == Step(Step(a))
  {
    hide Step;
    assert Steps(Step(a), 1) == Steps(Step(Step(a)), 0);
  }

  lemma Step8IsSteps(a: bv32)
    ensures Step8(a) == Steps(a, 8)
  {
    hide Step, Steps;
    var a2 := Step(Step(a));
    var a4 := Step(Step(a2));
    var a6 := Step(Step(a4));
    TwoSteps(a);
    TwoSteps(a2);
    TwoSteps(a4);
    TwoSteps(a6);
    StepsAdd(a, 2, 2);
    StepsAdd(a, 4, 2);
    StepsAdd(a, 6, 2);
  }

  /** Without a bit in the top byte nothing is subtracted for eight steps. */
  lemma Step8Low(a: bv32)
    requires a & 0xff00_0000 == 0
    ensures Step8(a) == a << 8
  {
  }

  // ---------------------------------------------------------------------------------------------
  // CRC-32
  // ---------------------------------------------------------------------------------------------

  /** A byte moved up to the top of the register. */
  function AtTop(b: Byte): bv32 {
    (b as bv32) << 24
  }

  /** One byte by bitwise division. */
  function DivideByte(r: bv32, b: Byte): bv32 {
    Steps(Xor(r, AtTop(b)), 8)
  }

  function Crc32(r: bv32, data: seq<Byte>): bv32
    decreases |data|
  {
    if data == [] then r else Crc32(DivideByte(r, data[0]), data[1..])
  }

  lemma ByteFits(b: Byte)
    ensures b as bv32 <= 0xff
  {
  }

  lemma HighAndLow(r: bv32, b: bv32)
    requires b <= 0xff
    ensures (r >> 24) ^ b <= 0xff && (r & 0x00ff_ffff) & 0xff00_0000 == 0
    ensures Xor(r, b << 24) == Xor(((r >> 24) ^ b) << 24, r & 0x00ff_ffff)
    ensures (r & 0x00ff_ffff) << 8 == r << 8
  {
  }

  /** One lookup does eight steps at once. */
  lemma TableByteDivides(r: bv32, b: Byte)
    ensures b as bv32 <= 0xff && (r >> 24) ^ (b as bv32) <= 0xff
    ensures Xor(r << 8, Crc32Table((r >> 24) ^ (b as bv32))) == DivideByte(r, b)
  {
    hide Step8, Steps, Crc32Table, Xor;
    ByteFits(b);
    HighAndLow(r, b as bv32);
    var i := (r >> 24) ^ (b as bv32);
    var high, low := i << 24, r & 0x00ff_ffff;
    Crc32TableOk(i);
    Step8Low(low);
    Step8IsSteps(high);
    Step8IsSteps(low);
    StepsLinear(high, low, 8);
    XorLaws(r << 8, Steps(high, 8), 0);
  }

  /** extend_crc32 */
  method ExtendCrc32(crc: bv32, data: seq<Byte>) returns (r: bv32)
    ensures r == Crc32(crc, data)
  {
    hide Crc32Table, DivideByte;
    r := crc;
    for i := 0 to |data|
      invariant Crc32(crc, data) == Crc32(r, data[i..])
    {
      TableByteDivides(r, data[i]);
      assert data[i..][1..] == data[i + 1..];
      r := (r << 8) ^ Crc32Table((r >> 24) ^ (data[i] as bv32));
    }
  }

  /** Any split of the message gives the same register. */
  lemma {:induction false} Crc32Split(r: bv32, a: seq<Byte>, b: seq<Byte>)
    ensures Crc32(r, a + b) == Crc32(Crc32(r, a), b)
    decreases |a|
  {
    hide DivideByte;
    if a == [] {
      assert a + b == b;
    } else {
      assert (a + b)[1..] == a[1..] + b;
      Crc32Split(DivideByte(r, a[0]), a[1..], b);
    }
  }

  // ---------------------------------------------------------------------------------------------
  // The residue
  // ---------------------------------------------------------------------------------------------

  function WordBits(a: bv32, b: bv32, c: bv32, d: bv32): bv32 {
    (a << 24) | (b << 16) | (c << 8) | d
  }

  /** Four bytes as a word, the first on top. */
  function Word(a: Byte, b: Byte, c: Byte, d: Byte): bv32 {
    WordBits(a as bv32, b as bv32, c as bv32, d as bv32)
  }

  /** A register as four bytes, in the order they are sent. */
  function WordBytes(r: bv32): (s: seq<Byte>)
    ensures |s| == 4
  {
    [(r >> 24) as int, ((r >> 16) & 0xff) as int, ((r >> 8) & 0xff) as int, (r & 0xff) as int]
  }

  lemma WordOfBytes(r: bv32)
    ensures var s := WordBytes(r); Word(s[0], s[1], s[2], s[3]) == r
  {
    ThroughInt(r >> 24);
    ThroughInt((r >> 16) & 0xff);
    ThroughInt((r >> 8) & 0xff);
    ThroughInt(r & 0xff);
    Pack(r >> 24, (r >> 16) & 0xff, (r >> 8) & 0xff, r & 0xff, r);
  }

  lemma ThroughInt(x: bv32)
    ensures (x as int) as bv32 == x
  {
  }

  lemma Pack(a: bv32, b: bv32, c: bv32, d: bv32, r: bv32)
    requires a == r >> 24 && b == (r >> 16) & 0xff && c == (r >> 8) & 0xff && d == r & 0xff
    ensures (a << 24) | (b << 16) | (c << 8) | d == r
  {
  }

  /** Byte `k` of a word still to come, at its place in the register. */
  function Place(b: bv32, k: nat): bv32
    requires k < 4
  {
    if k == 0 then b << 24 else if k == 1 then b << 16 else if k == 2 then b << 8 else b
  }

  function AtByte(b: Byte, k: nat): bv32
    requires k < 4
  {
    Place(b as bv32, k)
  }

  /** Bytes fed later might as well have been fed at once, further down the register. */
  lemma Absorb(b: Byte, k: nat)
    requires k < 4
    ensures Steps(AtByte(b, k), 8 * k) == AtTop(b)
  {
    hide Step8, Steps;
    var x := b as bv32;
    ByteFits(b);
    LowBytes(x);
    Step8Low(x);
    Step8Low(x << 8);
    Step8Low(x << 16);
    Step8IsSteps(x);
    Step8IsSteps(x << 8);
    Step8IsSteps(x << 16);
    StepsAdd(x << 8, 8, 8);
    StepsAdd(x, 8, 16);
    NoSteps(AtTop(b));
  }

  lemma NoSteps(a: bv32)
    ensures Steps(a, 0) == a
  {
  }

  lemma LowBytes(b: bv32)
    requires b <= 0xff
    ensures b & 0xff00_0000 == 0 && (b << 8) & 0xff00_0000 == 0 && (b << 16) & 0xff00_0000 == 0
    ensures (b << 8) << 8 == b << 16 && (b << 16) << 8 == b << 24
  {
  }

  lemma JoinWord(r: bv32, a: Byte, b: Byte, c: Byte, d: Byte)
    ensures Xor(Xor(Xor(Xor(r, AtByte(a, 0)), AtByte(b, 1)), AtByte(c, 2)), AtByte(d, 3)) == Xor(r, Word(a, b, c, d))
  {
    hide AtByte, Xor, Word;
    WordIsXor(a, b, c, d);
    JoinXors(r, AtByte(a, 0), AtByte(b, 1), AtByte(c, 2), AtByte(d, 3));
  }

  lemma WordIsXor(a: Byte, b: Byte, c: Byte, d: Byte)
    ensures Xor(AtByte(a, 0), Xor(Xor(AtByte(b, 1), AtByte(c, 2)), AtByte(d, 3))) == Word(a, b, c, d)
  {
    hide Place, Xor, WordBits;
    ByteFits(a);
    ByteFits(b);
    ByteFits(c);
    ByteFits(d);
    JoinBits(a as bv32, b as bv32, c as bv32, d as bv32);
  }

  lemma JoinXors(r: bv32, a: bv32, b: bv32, c: bv32, d: bv32)
    ensures Xor(Xor(Xor(Xor(r, a), b), c), d) == Xor(r, Xor(a, Xor(Xor(b, c), d)))
  {
    hide Xor;
    var x := Xor(r, a);
    XorLaws(x, b, c);
    XorLaws(x, Xor(b, c), d);
    XorLaws(r, a, Xor(Xor(b, c), d));
  }

  lemma JoinBits(a: bv32, b: bv32, c: bv32, d: bv32)
    requires a <= 0xff && b <= 0xff && c <= 0xff && d <= 0xff
    ensures Xor(Place(a, 0), Xor(Xor(Place(b, 1), Place(c, 2)), Place(d, 3))) == WordBits(a, b, c, d)
  {
  }

  /** One more byte of the word. */
  lemma OneMore(x: bv32, b: Byte, k: nat)
    requires k < 4
    ensures DivideByte(Steps(x, 8 * k), b) == Steps(Xor(x, AtByte(b, k)), 8 * k + 8)
  {
    hide Step8, Steps, Xor, AtByte, AtTop;
    Absorb(b, k);
    StepsLinear(x, AtByte(b, k), 8 * k);
    StepsAdd(Xor(x, AtByte(b, k)), 8 * k, 8);
  }

  /** Four bytes together are a whole word of division. */
  lemma FourBytes(r: bv32, a: Byte, b: Byte, c: Byte, d: Byte)
    ensures Crc32(r, [a, b, c, d]) == Steps(Xor(r, Word(a, b, c, d)), 32)
  {
    hide Step8, Steps, DivideByte, Xor, AtByte, Word;
    NoSteps(r);
    OneMore(r, a, 0);
    var r1 := Xor(r, AtByte(a, 0));
    OneMore(r1, b, 1);
    var r2 := Xor(r1, AtByte(b, 1));
    OneMore(r2, c, 2);
    OneMore(Xor(r2, AtByte(c, 2)), d, 3);
    JoinWord(r, a, b, c, d);
    FourFold(r, a, b, c, d);
  }

  lemma FourFold(r: bv32, a: Byte, b: Byte, c: Byte, d: Byte)
    ensures Crc32(r, [a, b, c, d]) == DivideByte(DivideByte(DivideByte(DivideByte(r, a), b), c), d)
  {
    hide DivideByte;
    var r2 := DivideByte(DivideByte(r, a), b);
    var s: seq<Byte>, t: seq<Byte> := [a, b], [c, d];
    assert [a, b, c, d] == s + t;
    Crc32Split(r, s, t);
    TwoFold(r, a, b);
    TwoFold(r2, c, d);
  }

  lemma TwoFold(r: bv32, a: Byte, b: Byte)
    ensures Crc32(r, [a, b]) == DivideByte(DivideByte(r, a), b)
  {
    hide DivideByte;
    var s: seq<Byte> := [a, b];
    assert s[1..] == [b];
    assert Crc32(DivideByte(r, a), s[1..]) == Crc32(DivideByte(DivideByte(r, a), b), s[1..][1..]);
  }

  /** The register ends at 0 exactly when the four bytes behind the message are its CRC. */
  lemma Residue(r: bv32, data: seq<Byte>, a: Byte, b: Byte, c: Byte, d: Byte)
    ensures Crc32(r, data + [a, b, c, d]) == 0 <==> Word(a, b, c, d) == Crc32(r, data)
  {
    hide Crc32, Steps, Word, Xor;
    Crc32Split(r, data, [a, b, c, d]);
    FourBytes(Crc32(r, data), a, b, c, d);
    StepsInjective(Xor(Crc32(r, data), Word(a, b, c, d)), 32);
    XorLaws(Crc32(r, data), Word(a, b, c, d), 0);
  }

  /** What a sender appends makes the receiver's register 0. */
  lemma OwnCrcLeavesZero(r: bv32, data: seq<Byte>)
    ensures Crc32(r, data + WordBytes(Crc32(r, data))) == 0
  {
    hide Crc32, Word, WordBytes;
    var s := WordBytes(Crc32(r, data));
    WordOfBytes(Crc32(r, data));
    assert s == [s[0], s[1], s[2], s[3]];
    Residue(r, data, s[0], s[1], s[2], s[3]);
  }

  // ---------------------------------------------------------------------------------------------
  // Against schoolbook division
  // ---------------------------------------------------------------------------------------------

  /** Bit by bit, each bit of the message meeting the top bit of the register. */
  function FeedBits(r: bv32, bits: seq<bool>): bv32
    decreases |bits|
  {
    if bits == [] then r else FeedBits(Step(if bits[0] then Xor(r, TOP) else r), bits[1..])
  }

  /** Schoolbook: the message is shifted in at the bottom and the divisor taken off at the top. */
  function LongDivision(r: bv32, bits: seq<bool>): bv32
    decreases |bits|
  {
    if bits == [] then r else LongDivision(if bits[0] then Xor(Step(r), 1) else Step(r), bits[1..])
  }

  function Zeros(n: nat): (z: seq<bool>)
    ensures |z| == n
  {
    if n == 0 then [] else [false] + Zeros(n - 1)
  }

  lemma {:induction false} LongDivisionSplit(r: bv32, a: seq<bool>, b: seq<bool>)
    ensures LongDivision(r, a + b) == LongDivision(LongDivision(r, a), b)
    decreases |a|
  {
    hide Step, Xor;
    if a == [] {
      assert a + b == b;
    } else {
      assert (a + b)[1..] == a[1..] + b;
      LongDivisionSplit(if a[0] then Xor(Step(r), 1) else Step(r), a[1..], b);
    }
  }

  lemma {:induction false} LongDivisionZeros(r: bv32, n: nat)
    ensures LongDivision(r, Zeros(n)) == Steps(r, n)
    decreases n
  {
    hide Step, Xor;
    if n > 0 {
      LongDivisionZeros(Step(r), n - 1);
      assert Zeros(n)[1..] == Zeros(n - 1);
    }
  }

  /** A bit put in at the bottom arrives at the top 31 steps later. */
  lemma BottomToTop()
    ensures Steps(1, 31) == TOP
  {
    hide Steps, Step8;
    Step8Low(1);
    Step8Low(0x100);
    Step8Low(0x1_0000);
    Step8IsSteps(1);
    Step8IsSteps(0x100);
    Step8IsSteps(0x1_0000);
    StepsAdd(1, 8, 8);
    StepsAdd(1, 16, 8);
    StepsAdd(1, 24, 7);
    LastSeven();
  }

  lemma LastSeven()
    ensures Steps(0x100_0000, 7) == TOP
  {
    hide Steps;
    TwoSteps(0x100_0000);
    TwoSteps(0x400_0000);
    TwoSteps(0x1000_0000);
    StepsAdd(0x100_0000, 2, 2);
    StepsAdd(0x100_0000, 4, 2);
    StepsAdd(0x100_0000, 6, 1);
    OneStep(0x4000_0000);
  }

  lemma OneStep(a: bv32)
    ensures Steps(a, 1) == Step(a)
  {
  }

  /** Feeding at the top is long division of the message with 32 zero bits behind it. */
  lemma {:induction false} FeedIsLongDivision(r: bv32, bits: seq<bool>)
    ensures FeedBits(Steps(r, 32), bits) == LongDivision(r, bits + Zeros(32))
    decreases |bits|
  {
    hide Step, Xor, Steps, Zeros;
    if bits == [] {
      assert bits + Zeros(32) == Zeros(32);
      LongDivisionZeros(r, 32);
    } else {
      var r' := if bits[0] then Xor(Step(r), 1) else Step(r);
      FeedIsLongDivision(r', bits[1..]);
      assert (bits + Zeros(32))[1..] == bits[1..] + Zeros(32);
      StepsAdd(r, 1, 32);
      StepsAdd(r, 32, 1);
      OneStep(r);
      OneStep(Steps(r, 32));
      if bits[0] {
        StepsLinear(Step(r), 1, 32);
        StepLinear(Steps(r, 32), TOP);
        BottomToTop();
        StepsAdd(1, 31, 1);
        OneStep(TOP);
      }
    }
  }

  /** The top `n` bits of a word, highest first. */
  function TopBits(x: bv32, n: nat): (bits: seq<bool>)
    ensures |bits| == n
    decreases n
  {
    if n == 0 then [] else [x & TOP != 0] + TopBits(x << 1, n - 1)
  }

  function BitsOf(data: seq<Byte>): seq<bool> {
    if data == [] then [] else TopBits(AtTop(data[0]), 8) + BitsOf(data[1..])
  }

  function Shifted(x: bv32, n: nat): bv32
    decreases n
  {
    if n == 0 then x else Shifted(x << 1, n - 1)
  }

  function Low(x: bv32): bv32 {
    x & 0x7fff_ffff
  }

  function ClearTop(r: bv32, x: bv32): bv32 {
    if x & TOP != 0 then Xor(r, TOP) else r
  }

  /** The bits of `x` below the top reach it one step later. */
  lemma NextBit(r: bv32, x: bv32)
    ensures Step(Xor(r, x)) == Xor(Step(if x & TOP != 0 then Xor(r, TOP) else r), x << 1)
  {
    NextBitFolded(r, x);
    StepOfLow(x);
    hide Step, Xor, Low;
    assert ClearTop(r, x) == if x & TOP != 0 then Xor(r, TOP) else r;
  }

  lemma NextBitFolded(r: bv32, x: bv32)
    ensures Step(Xor(r, x)) == Xor(Step(ClearTop(r, x)), Step(Low(x)))
  {
    hide Step, Xor, Low, ClearTop;
    SplitTop(r, x);
    StepLinear(ClearTop(r, x), Low(x));
  }

  lemma StepOfLow(x: bv32)
    ensures Step(Low(x)) == x << 1
  {
    hide Step;
    LowBits(x);
    StepCases(Low(x));
  }

  lemma SplitTop(r: bv32, x: bv32)
    ensures Xor(r, x) == Xor(ClearTop(r, x), Low(x))
  {
    hide Xor, Low;
    TopAndRest(x);
    XorLaws(r, TOP, Low(x));
  }

  lemma TopAndRest(x: bv32)
    ensures x & TOP != 0 ==> x == Xor(TOP, Low(x))
    ensures x & TOP == 0 ==> x == Low(x)
  {
  }

  lemma LowBits(x: bv32)
    ensures (x & 0x7fff_ffff) & TOP == 0 && (x & 0x7fff_ffff) << 1 == x << 1
  {
  }

  lemma {:induction false} FeedTopBits(r: bv32, x: bv32, n: nat)
    ensures Steps(Xor(r, x), n) == Xor(FeedBits(r, TopBits(x, n)), Shifted(x, n))
    decreases n
  {
    hide Step, Xor;
    if n > 0 {
      var r' := Step(if x & TOP != 0 then Xor(r, TOP) else r);
      NextBit(r, x);
      FeedTopBits(r', x << 1, n - 1);
      assert TopBits(x, n)[1..] == TopBits(x << 1, n - 1);
    }
  }

  lemma {:induction false} ShiftedTwice(x: bv32, m: nat, n: nat)
    ensures Shifted(x, m + n) == Shifted(Shifted(x, m), n)
    decreases m
  {
    if m > 0 { ShiftedTwice(x << 1, m - 1, n); }
  }

  lemma ShiftedByTwo(x: bv32)
    ensures Shifted(x, 2) == x << 2
  {
    assert Shifted(x << 1, 1) == (x << 1) << 1;
  }

  lemma ByteShiftedOut(b: Byte)
    ensures Shifted(AtTop(b), 8) == 0
  {
    hide Shifted;
    ByteFits(b);
    var x := AtTop(b);
    ShiftedByTwo(x);
    ShiftedByTwo(x << 2);
    ShiftedByTwo(x << 4);
    ShiftedByTwo(x << 6);
    ShiftedTwice(x, 2, 2);
    ShiftedTwice(x, 4, 2);
    ShiftedTwice(x, 6, 2);
    GoneAfterEight(b as bv32);
  }

  lemma GoneAfterEight(b: bv32)
    requires b <= 0xff
    ensures ((b << 24) << 2) << 2 == (b << 24) << 4 && ((b << 24) << 4) << 2 == (b << 24) << 6
    ensures ((b << 24) << 6) << 2 == 0
  {
  }

  lemma {:induction false} FeedBitsSplit(r: bv32, a: seq<bool>, b: seq<bool>)
    ensures FeedBits(r, a + b) == FeedBits(FeedBits(r, a), b)
    decreases |a|
  {
    hide Step, Xor;
    if a == [] {
      assert a + b == b;
    } else {
      assert (a + b)[1..] == a[1..] + b;
      FeedBitsSplit(Step(if a[0] then Xor(r, TOP) else r), a[1..], b);
    }
  }

  /**
   * The fold over bytes divides: started from what `r` becomes in 32 steps, it leaves the remainder
   * schoolbook division from `r` leaves of the message followed by 32 zero bits.
   */
  lemma {:induction false} Crc32IsRemainder(r: bv32, data: seq<Byte>)
    ensures Crc32(Steps(r, 32), data) == LongDivision(r, BitsOf(data) + Zeros(32))
  {
    Crc32IsFeed(Steps(r, 32), data);
    FeedIsLongDivision(r, BitsOf(data));
  }

  lemma {:induction false} Crc32IsFeed(r: bv32, data: seq<Byte>)
    ensures Crc32(r, data) == FeedBits(r, BitsOf(data))
    decreases |data|
  {
    hide Xor, Steps, Shifted, TopBits, AtTop, FeedBits;
    if data == [] {
      NoBits(r);
    } else {
      var x := AtTop(data[0]);
      var r' := DivideByte(r, data[0]);
      FeedTopBits(r, x, 8);
      ByteShiftedOut(data[0]);
      XorLaws(FeedBits(r, TopBits(x, 8)), 0, 0);
      FeedBitsSplit(r, TopBits(x, 8), BitsOf(data[1..]));
      Crc32IsFeed(r', data[1..]);
    }
  }

  lemma NoBits(r: bv32)
    ensures FeedBits(r, []) == r
  {
  }

  // ---------------------------------------------------------------------------------------------
  // CRC-8
  // ---------------------------------------------------------------------------------------------

  /** One byte by bitwise division. */
  function Crc8Byte(crc: Byte, b: Byte): Byte {
    ShortStep8((crc as bv8) ^ (b as bv8)) as int
  }

  function Crc8(crc: Byte, data: seq<Byte>): Byte
    decreases |data|
  {
    if data == [] then crc else Crc8(Crc8Byte(crc, data[0]), data[1..])
  }

  /** One lookup does eight steps at once. */
  lemma Crc8ByteDivides(crc: Byte, b: Byte)
    ensures Crc8Table((crc as bv8) ^ (b as bv8)) as int == Crc8Byte(crc, b)
  {
    hide ShortStep8, Crc8Table;
    Crc8TableOk((crc as bv8) ^ (b as bv8));
  }

  /** compute_crc8 from 0, extend_crc8 from the register so far. */
  method ExtendCrc8(start: Byte, p: seq<Byte>) returns (crc: Byte)
    ensures crc == Crc8(start, p)
  {
    hide Crc8Table, Crc8Byte;
    crc := start;
    for i := 0 to |p|
      invariant Crc8(start, p) == Crc8(crc, p[i..])
    {
      assert p[i..][1..] == p[i + 1..];
      Crc8ByteDivides(crc, p[i]);
      var tmp := p[i];
      crc := Crc8Table((crc as bv8) ^ (tmp as bv8)) as int;
    }
  }

  lemma {:induction false} Crc8Split(crc: Byte, a: seq<Byte>, b: seq<Byte>)
    ensures Crc8(crc, a + b) == Crc8(Crc8(crc, a), b)
    decreases |a|
  {
    hide Crc8Byte;
    if a == [] {
      assert a + b == b;
    } else {
      assert (a + b)[1..] == a[1..] + b;
      Crc8Split(Crc8Byte(crc, a[0]), a[1..], b);
    }
  }

  /** The last byte of a BBHEADER: the CRC-8 of the nine before it with the mode added. */
  function HeaderCheck(crc: bv8, mode: bool): bv8 {
    crc ^ (if mode then 1 else 0)
  }

  function HeaderCheckByte(crc: Byte, mode: bool): Byte {
    HeaderCheck(crc as bv8, mode) as int
  }

  /** What a receiver makes of it: hem_mode in get_t2mi_bbheader. */
  function ModeBits(crc: Byte, check: Byte): bv8 {
    (crc as bv8) ^ (check as bv8)
  }

  /**
   * The mode comes back, and the byte is taken for damaged exactly when it is neither the CRC nor
   * the CRC with its lowest bit flipped.
   */
  lemma HeaderModeRecovered(crc: Byte, check: Byte)
    ensures ModeBits(crc, check) == 0 <==> check as bv8 == HeaderCheck(crc as bv8, false)
    ensures ModeBits(crc, check) == 1 <==> check as bv8 == HeaderCheck(crc as bv8, true)
    ensures ModeBits(crc, check) & 0xfe != 0 <==>
              check as bv8 != HeaderCheck(crc as bv8, false) && check as bv8 != HeaderCheck(crc as bv8, true)
  {
    ModeBitsLaw(crc as bv8, check as bv8);
  }

  lemma ModeBitsLaw(a: bv8, b: bv8)
    ensures a ^ b == 0 <==> b == HeaderCheck(a, false)
    ensures a ^ b == 1 <==> b == HeaderCheck(a, true)
    ensures (a ^ b) & 0xfe != 0 <==> b != HeaderCheck(a, false) && b != HeaderCheck(a, true)
  {
  }

  /** A byte the sender computed is read back as its mode. */
  lemma OwnHeaderCheck(crc: Byte, mode: bool)
    ensures ModeBits(crc, HeaderCheckByte(crc, mode)) == if mode then 1 else 0
  {
    HeaderModeRecovered(crc, HeaderCheckByte(crc, mode));
    var x := HeaderCheck(crc as bv8, mode);
    assert (x as int) as bv8 == x;
  }
}
