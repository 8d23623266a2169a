/** Which corruptions of a Modbus RTU frame the checksum of src/scan.rs is sure to notice. */
module CrcDetection {
  import opened Crc

  // ----- Words and their bits -----

  /** The word whose low bits, lowest first, are `d`. */
  function Pack(d: seq<bool>): bv16 {
    if d == [] then 0 else Push(Pack(d[1..]), d[0])
  }

  function Push(p: bv16, b: bool): bv16 {
    (p << 1) | Bit(b)
  }

  predicate Ones(m: bv16, n: nat)
    decreases n
  {
    n == 0 || (Odd(m) && Ones(m >> 1, n - 1))
  }

  lemma {:induction false} OnesFewer(m: bv16, k: nat, n: nat)
    requires k <= n && Ones(m, n)
    ensures Ones(m, k)
    decreases n
  {
    if k > 0 {
      OnesFewer(m >> 1, k - 1, n - 1);
    }
  }

  lemma MaskOdd(w: bv16, m: bv16)
    requires Odd(m)
    ensures Odd(w & m) == Odd(w)
  {}

  lemma MaskShift(w: bv16, m: bv16)
    ensures (w & m) >> 1 == (w >> 1) & (m >> 1)
  {}

  /** Clearing bits at or above `n` leaves the low `n` bits. */
  lemma {:induction false} BitsOfMasked(w: bv16, m: bv16, n: nat)
    requires Ones(m, n)
    ensures Bits(w & m, n) == Bits(w, n)
    decreases n
  {
    hide Odd;
    if n > 0 {
      MaskOdd(w, m);
      MaskShift(w, m);
      BitsOfMasked(w >> 1, m >> 1, n - 1);
    }
  }

  lemma FifteenOnes()
    ensures Ones(0x7FFF, 15)
  {}

  lemma PushOne(p: bv16)
    ensures Odd(Push(p, true)) && Push(p, true) >> 1 == p & 0x7FFF
  {}

  lemma PushZero(p: bv16)
    ensures !Odd(Push(p, false)) && Push(p, false) >> 1 == p & 0x7FFF
  {}

  lemma PushBits(p: bv16, b: bool, n: nat)
    requires n <= 15
    ensures Bits(Push(p, b), n + 1) == [b] + Bits(p, n)
  {
    hide Push, Odd, Ones;
    if b { PushOne(p); } else { PushZero(p); }
    FifteenOnes();
    OnesFewer(0x7FFF, n, 15);
    BitsOfMasked(p, 0x7FFF, n);
  }

  lemma {:induction false} PackBits(d: seq<bool>)
    requires |d| <= 16
    ensures Bits(Pack(d), |d|) == d
    decreases |d|
  {
    hide Push, Bits;
    if d == [] {
      BitsOfZero(0);
    } else {
      PackBits(d[1..]);
      PushBits(Pack(d[1..]), d[0], |d| - 1);
      assert d == [d[0]] + d[1..];
    }
  }

  lemma {:induction false} BitsOfZero(n: nat)
    ensures Quiet(Bits(0, n))
    decreases n
  {
    if n > 0 {
      BitsOfZero(n - 1);
    }
  }

  // ----- Sixteen bits or fewer cannot cancel out -----

  /** Sixteen consecutive wire bits return a zero register to zero only if all are zero. */
  lemma WindowSeen(d: seq<bool>)
    requires |d| == 16 && Absorb(0, d) == 0
    ensures Quiet(d)
  {
    hide Absorb, Bits, Pack, Quiet, Shift;
    var w := Pack(d);
    PackBits(d);
    AbsorbWord(0, w);
    assert 0 ^ w == w;
    ShiftZero(w, 16);
    BitsOfZero(16);
  }

  /** So does any run of bits whose ones all lie within sixteen consecutive places. */
  lemma BurstSeen(d: seq<bool>, at: nat)
    requires at + 16 <= |d|
    requires forall k :: 0 <= k < |d| && !(at <= k < at + 16) ==> !d[k]
    requires Absorb(0, d) == 0
    ensures Quiet(d)
  {
    hide Absorb;
    var before, window, after := d[..at], d[at..at + 16], d[at + 16..];
    assert d == before + (window + after);
    AbsorbAppend(0, before, window + after);
    AbsorbAppend(Absorb(0, before), window, after);
    AbsorbQuiet(0, before);
    AbsorbQuiet(Absorb(0, window), after);
    WindowSeen(window);
    forall k | 0 <= k < |d|
      ensures !d[k]
    {
      if at <= k < at + 16 {
        assert d[k] == window[k - at];
      }
    }
  }

  lemma DifferenceAbsorbed(x: seq<bool>, y: seq<bool>)
    requires |x| == |y| && Absorb(0xFFFF, x) == Absorb(0xFFFF, y)
    ensures Absorb(0, Differences(x, y)) == 0
  {
    hide Absorb, Differences;
    SumOfSelf(0xFFFF);
    AbsorbLinear(0, 0xFFFF, 0xFFFF, x, y);
    SumOfEquals(Absorb(0, Differences(x, y)), Absorb(0xFFFF, x), Absorb(0xFFFF, y));
  }

  // ----- A valid frame is one that brings the register to zero -----

  function Word(low: bv8, high: bv8): bv16 {
    (low as bv16) | ((high as bv16) << 8)
  }

  lemma WordOfBytes(c: bv16)
    ensures Word(LowByte(c), HighByte(c)) == c
  {}

  lemma BytesOfWord(low: bv8, high: bv8)
    ensures LowByte(Word(low, high)) == low && HighByte(Word(low, high)) == high
  {}

  lemma {:induction false} BitsSplit(w: bv16, m: nat, n: nat)
    ensures Bits(w, m + n) == Bits(w, m) + Bits(ShiftRight(w, m), n)
    decreases m
  {
    hide Odd;
    if m > 0 {
      BitsSplit(w >> 1, m - 1, n);
      assert Bits(w, m + n) == [Odd(w)] + Bits(w >> 1, m - 1 + n);
    }
  }

  lemma EightOnes()
    ensures Ones(0xFF, 8)
  {}

  lemma WordParts(low: bv8, high: bv8)
    ensures Word(low, high) >> 8 == high as bv16 && Word(low, high) & 0xFF == low as bv16
  {}

  /** The sixteen bits of a word are those of its low byte, then those of its high byte. */
  lemma WordOnTheWire(low: bv8, high: bv8)
    ensures WireBits([low, high]) == Bits(Word(low, high), 16)
  {
    hide Bits, ShiftRight, WireBits, Ones, Word;
    var w := Word(low, high);
    WordParts(low, high);
    BitsSplit(w, 8, 8);
    ShiftRightEight(w);
    EightOnes();
    BitsOfMasked(w, 0xFF, 8);
    assert [low, high] == [low] + [high];
    WireBitsAppend([low], [high]);
    WireBitsOfOne(low);
    WireBitsOfOne(high);
  }

  lemma TwoBytesAbsorbed(c: bv16, low: bv8, high: bv8)
    ensures Absorb(c, WireBits([low, high])) == 0 <==> c == Word(low, high)
  {
    hide Absorb, Shift, Bits, WireBits, Word;
    var w := Word(low, high);
    WordOnTheWire(low, high);
    AbsorbWord(c, w);
    ShiftZero(c ^ w, 16);
    XorIsSum(c, w);
    if c == w {
      SumOfEquals(c ^ w, c, w);
    } else if c ^ w == 0 {
      SumIsZero(c ^ w, c, w);
    }
  }

  /** For every byte string of two bytes or more: appending the checksum low byte first is exactly
      what makes the checksum of the whole come to zero. */
  lemma ValidIffZero(f: seq<bv8>)
    requires |f| >= 2
    ensures ValidFrame(f) <==> Checksum(f) == 0
  {
    hide Checksum, Absorb, WireBits, LowByte, HighByte, Word;
    var m, low, high := f[..|f| - 2], f[|f| - 2], f[|f| - 1];
    var c := Checksum(m);
    assert f == m + [low, high];
    ChecksumAppend(m, [low, high]);
    TwoBytesAbsorbed(c, low, high);
    WordOfBytes(c);
    BytesOfWord(low, high);
    if ValidFrame(f) {
      assert f[|f| - 2] == Frame(m)[|m|] && f[|f| - 1] == Frame(m)[|m| + 1];
    }
  }

  lemma FrameIsValid(m: seq<bv8>)
    ensures ValidFrame(Frame(m)) && Checksum(Frame(m)) == 0
  {
    hide Checksum;
    assert Frame(m)[..|Frame(m)| - 2] == m;
    ValidIffZero(Frame(m));
  }

  // ----- Bursts -----

  lemma ByteOfBits(x: bv8, y: bv8)
    requires Bits(x as bv16, 8) == Bits(y as bv16, 8)
    ensures x == y
  {
    hide Bits, Shift, Absorb, ShiftRight;
    ShiftRightByte(x);
    ShiftRightByte(y);
    AbsorbNarrow(0, x as bv16, 8);
    AbsorbNarrow(0, y as bv16, 8);
    assert 0 ^ (x as bv16) == x as bv16 && 0 ^ (y as bv16) == y as bv16;
    ShiftInjective(x as bv16, y as bv16, 8);
  }

  lemma {:induction false} WireBitsInjective(f: seq<bv8>, g: seq<bv8>)
    requires |f| == |g| && WireBits(f) == WireBits(g)
    ensures f == g
    decreases |f|
  {
    hide Bits;
    if f != [] {
      var x, y := Bits(f[0] as bv16, 8), Bits(g[0] as bv16, 8);
      assert x == WireBits(f)[..8] && y == WireBits(g)[..8];
      assert WireBits(f[1..]) == WireBits(f)[8..] && WireBits(g[1..]) == WireBits(g)[8..];
      ByteOfBits(f[0], g[0]);
      WireBitsInjective(f[1..], g[1..]);
      assert f == [f[0]] + f[1..] && g == [g[0]] + g[1..];
    }
  }

  /** No two distinct valid frames of one length differ only within sixteen consecutive wire bits,
      whatever their length and wherever the sixteen bits lie, the checksum's own included. */
  lemma BurstDetected(f: seq<bv8>, g: seq<bv8>, at: int)
    requires |f| == |g| && ValidFrame(f) && ValidFrame(g)
    requires forall k :: 0 <= k < 8 * |f| && !(at <= k < at + 16) ==> WireBits(f)[k] == WireBits(g)[k]
    ensures f == g
  {
    hide WireBits, Absorb, ValidFrame;
    var x, y := WireBits(f), WireBits(g);
    assert |f| >= 2 by { ValidIsLong(f); }
    var start := if at < 0 then 0 else if at + 16 > |x| then |x| - 16 else at;
    ValidIffZero(f);
    ValidIffZero(g);
    DifferenceAbsorbed(x, y);
    BurstSeen(Differences(x, y), start);
    forall k | 0 <= k < |x|
      ensures x[k] == y[k]
    {
      assert !Differences(x, y)[k];
    }
    WireBitsInjective(f, g);
  }

  lemma ValidIsLong(f: seq<bv8>)
    requires ValidFrame(f)
    ensures |f| >= 2
  {}

  // ----- Odd numbers of wrong bits -----

  /** Whether an odd number of the bits are ones. */
  predicate OddWeight(bits: seq<bool>) {
    bits != [] && bits[0] != OddWeight(bits[1..])
  }

  lemma {:induction false} OddWeightAppend(x: seq<bool>, y: seq<bool>)
    ensures OddWeight(x + y) == (OddWeight(x) != OddWeight(y))
    decreases |x|
  {
    if x == [] {
      assert x + y == y;
    } else {
      assert (x + y)[1..] == x[1..] + y;
      OddWeightAppend(x[1..], y);
    }
  }

  lemma {:induction false} OddWeightOfDifferences(x: seq<bool>, y: seq<bool>)
    requires |x| == |y|
    ensures OddWeight(Differences(x, y)) == (OddWeight(x) != OddWeight(y))
    decreases |x|
  {
    if x != [] {
      assert Differences(x, y)[1..] == Differences(x[1..], y[1..]);
      OddWeightOfDifferences(x[1..], y[1..]);
    }
  }

  lemma OddOfSum(p: bv16, u: bv16, v: bv16)
    requires Sum(p, u, v)
    ensures Odd(p) == (Odd(u) != Odd(v))
  {}

  lemma HalvesOfSum(p: bv16, u: bv16, v: bv16)
    requires Sum(p, u, v)
    ensures Sum(p >> 1, u >> 1, v >> 1)
  {}

  lemma {:induction false} WeightOfSum(p: bv16, u: bv16, v: bv16, n: nat)
    requires Sum(p, u, v)
    ensures OddWeight(Bits(p, n)) == (OddWeight(Bits(u, n)) != OddWeight(Bits(v, n)))
    decreases n
  {
    hide Sum, Odd;
    if n > 0 {
      OddOfSum(p, u, v);
      HalvesOfSum(p, u, v);
      WeightOfSum(p >> 1, u >> 1, v >> 1, n - 1);
      WeightPeel(p, n); WeightPeel(u, n); WeightPeel(v, n);
    }
  }

  lemma WeightPeel(w: bv16, n: nat)
    requires n > 0
    ensures OddWeight(Bits(w, n)) == (Odd(w) != OddWeight(Bits(w >> 1, n - 1)))
  {}

  /** Shifting a word right loses exactly its low bit. */
  lemma WeightOfHalf(w: bv16)
    ensures OddWeight(Bits(w >> 1, 16)) == (Odd(w) != OddWeight(Bits(w, 16)))
  {
    hide OddWeight, Bits, Odd, ShiftRight;
    BitsSplit(w >> 1, 15, 1);
    ShiftRightOnce(w);
    ShiftRightWord(w);
    BitsOfZero(1);
    WeightPeel(w, 16);
    OddWeightAppend(Bits(w >> 1, 15), Bits(0, 1));
    QuietWeighsNothing(Bits(0, 1));
  }

  lemma ShiftRightOnce(w: bv16)
    ensures ShiftRight(w, 16) == ShiftRight(w >> 1, 15)
  {}

  lemma {:induction false} QuietWeighsNothing(bits: seq<bool>)
    requires Quiet(bits)
    ensures !OddWeight(bits)
    decreases |bits|
  {
    if bits != [] {
      QuietWeighsNothing(bits[1..]);
    }
  }

  /** The generator's reflected low half has three ones. */
  lemma GeneratorWeight()
    ensures OddWeight(Bits(0xA001, 16))
  {
    hide OddWeight, Bits;
    WeightPeel(0xA001, 16); WeightPeel(0x5000, 15); WeightPeel(0x2800, 14); WeightPeel(0x1400, 13);
    WeightPeel(0xA00, 12); WeightPeel(0x500, 11); WeightPeel(0x280, 10); WeightPeel(0x140, 9);
    WeightPeel(0xA0, 8); WeightPeel(0x50, 7); WeightPeel(0x28, 6); WeightPeel(0x14, 5);
    WeightPeel(0xA, 4); WeightPeel(5, 3); WeightPeel(2, 2); WeightPeel(1, 1);
    BitsOfZero(0);
    QuietWeighsNothing(Bits(0, 0));
  }

  lemma AllOnesWeight()
    ensures !OddWeight(Bits(0xFFFF, 16))
  {
    hide OddWeight, Bits;
    WeightPeel(0xFFFF, 16); WeightPeel(0x7FFF, 15); WeightPeel(0x3FFF, 14); WeightPeel(0x1FFF, 13);
    WeightPeel(0xFFF, 12); WeightPeel(0x7FF, 11); WeightPeel(0x3FF, 10); WeightPeel(0x1FF, 9);
    WeightPeel(0xFF, 8); WeightPeel(0x7F, 7); WeightPeel(0x3F, 6); WeightPeel(0x1F, 5);
    WeightPeel(0xF, 4); WeightPeel(7, 3); WeightPeel(3, 2); WeightPeel(1, 1);
    BitsOfZero(0);
    QuietWeighsNothing(Bits(0, 0));
  }

  /** A shift never changes the register's parity: x + 1 divides the generator. */
  lemma StepKeepsParity(c: bv16)
    ensures OddWeight(Bits(BitStep(c), 16)) == OddWeight(Bits(c, 16))
  {
    hide OddWeight, Bits;
    WeightOfHalf(c);
    if Odd(c) {
      XorIsSum(c >> 1, 0xA001);
      WeightOfSum((c >> 1) ^ 0xA001, c >> 1, 0xA001, 16);
      GeneratorWeight();
    }
  }

  lemma BitWeight(b: bool)
    ensures OddWeight(Bits(Bit(b), 16)) == b
  {
    hide OddWeight, Bits;
    WeightPeel(Bit(b), 16);
    assert Bit(b) >> 1 == 0 && Odd(Bit(b)) == b;
    BitsOfZero(15);
    QuietWeighsNothing(Bits(0, 15));
  }

  lemma SumParity(p: bv16, c: bv16, u: bv16, b: bool)
    requires Sum(p, c, u) && OddWeight(Bits(u, 16)) == b
    ensures OddWeight(Bits(BitStep(p), 16)) == (OddWeight(Bits(c, 16)) != b)
  {
    hide OddWeight, Bits, BitStep, Sum;
    WeightOfSum(p, c, u, 16);
    StepKeepsParity(p);
  }

  lemma FeedParity(c: bv16, b: bool)
    ensures OddWeight(Bits(Feed(c, b), 16)) == (OddWeight(Bits(c, 16)) != b)
  {
    hide OddWeight, Bits, BitStep, Bit, Sum;
    XorIsSum(c, Bit(b));
    BitWeight(b);
    SumParity(c ^ Bit(b), c, Bit(b), b);
  }

  lemma {:induction false} AbsorbParity(c: bv16, bits: seq<bool>)
    ensures OddWeight(Bits(Absorb(c, bits), 16)) == (OddWeight(Bits(c, 16)) != OddWeight(bits))
    decreases |bits|
  {
    hide Bits, Feed;
    if bits != [] {
      FeedParity(c, bits[0]);
      AbsorbParity(Feed(c, bits[0]), bits[1..]);
    }
  }

  /** Every valid frame, checksum included, has an even number of one bits. */
  lemma ValidHasEvenWeight(f: seq<bv8>)
    requires ValidFrame(f)
    ensures !OddWeight(WireBits(f))
  {
    hide OddWeight, Bits, Absorb, WireBits, ValidFrame;
    ValidIsLong(f);
    ValidIffZero(f);
    AbsorbParity(0xFFFF, WireBits(f));
    AllOnesWeight();
    BitsOfZero(16);
    QuietWeighsNothing(Bits(0, 16));
  }

  lemma {:induction false} OneBitIsOdd(d: seq<bool>, at: nat)
    requires at < |d| && forall k :: 0 <= k < |d| ==> d[k] == (k == at)
    ensures OddWeight(d)
    decreases |d|
  {
    if at == 0 {
      QuietWeighsNothing(d[1..]);
    } else {
      OneBitIsOdd(d[1..], at - 1);
    }
  }

  /** Any odd number of wrong bits in a frame of unchanged length is noticed. */
  lemma OddErrorDetected(f: seq<bv8>, g: seq<bv8>)
    requires |f| == |g| && ValidFrame(f)
    requires OddWeight(Differences(WireBits(f), WireBits(g)))
    ensures !ValidFrame(g)
  {
    hide OddWeight, WireBits, ValidFrame, Differences;
    OddWeightOfDifferences(WireBits(f), WireBits(g));
    ValidHasEvenWeight(f);
    if ValidFrame(g) {
      ValidHasEvenWeight(g);
    }
  }
}
