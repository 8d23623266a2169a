/** The Modbus RTU checksum (src/scan.rs): the byte loop, its bit-serial meaning, and what it
    detects. Bytes go on the wire in order, low bit first; so do the two checksum bytes. */
module Crc {

  // ----- The register -----

  predicate Odd(c: bv16) {
    c & 1 != 0
  }

  /** One shift of the register, with the reflected generator 0xA001 fed back on a carried-out one. */
  function BitStep(c: bv16): bv16 {
    if Odd(c) then (c >> 1) ^ 0xA001 else c >> 1
  }

  function Bit(b: bool): bv16 {
    if b then 1 else 0
  }

  function Mix(c: bv16, b: bool): bv16 {
    c ^ Bit(b)
  }

  /** The register after one wire bit. */
  function Feed(c: bv16, b: bool): bv16 {
    BitStep(Mix(c, b))
  }

  /** The register after `bits` have gone past it, starting from `c`. */
  function Absorb(c: bv16, bits: seq<bool>): bv16
    decreases |bits|
  {
    if bits == [] then c else Absorb(Feed(c, bits[0]), bits[1..])
  }

  /** The low `n` bits of `w`, lowest first. */
  function Bits(w: bv16, n: nat): (r: seq<bool>)
    ensures |r| == n
    decreases n
  {
    if n == 0 then [] else [Odd(w)] + Bits(w >> 1, n - 1)
  }

  /** A byte string as it travels: bytes in order, each low bit first. */
  function WireBits(bytes: seq<bv8>): (r: seq<bool>)
    ensures |r| == 8 * |bytes|
  {
    if bytes == [] then [] else Bits(bytes[0] as bv16, 8) + WireBits(bytes[1..])
  }

  /** The checksum by its meaning: the register, started at all ones, after the wire bits. */
  function Checksum(bytes: seq<bv8>): bv16 {
    Absorb(0xFFFF, WireBits(bytes))
  }

  function LowByte(c: bv16): bv8 {
    (c & 0xFF) as bv8
  }

  function HighByte(c: bv16): bv8 {
    (c >> 8) as bv8
  }

  /** A message followed by its checksum, low byte first. */
  function Frame(message: seq<bv8>): seq<bv8> {
    message + [LowByte(Checksum(message)), HighByte(Checksum(message))]
  }

  /** The receiver's test: the last two bytes are the checksum of the rest. */
  predicate ValidFrame(f: seq<bv8>) {
    |f| >= 2 && f == Frame(f[..|f| - 2])
  }

  // ----- One step is linear and injective -----

  /** `p` is the sum of `u` and `v` over GF(2). A predicate, so that proofs carry it about whole. */
  predicate Sum(p: bv16, u: bv16, v: bv16) {
    p == u ^ v
  }

  lemma StepSumOddOdd(p: bv16, u: bv16, v: bv16)
    requires Sum(p, u, v) && Odd(u) && Odd(v)
    ensures Sum(BitStep(p), BitStep(u), BitStep(v))
  {}

  lemma StepSumOddEven(p: bv16, u: bv16, v: bv16)
    requires Sum(p, u, v) && Odd(u) && !Odd(v)
    ensures Sum(BitStep(p), BitStep(u), BitStep(v))
  {}

  lemma StepSumEvenOdd(p: bv16, u: bv16, v: bv16)
    requires Sum(p, u, v) && !Odd(u) && Odd(v)
    ensures Sum(BitStep(p), BitStep(u), BitStep(v))
  {}

  lemma StepSumEvenEven(p: bv16, u: bv16, v: bv16)
    requires Sum(p, u, v) && !Odd(u) && !Odd(v)
    ensures Sum(BitStep(p), BitStep(u), BitStep(v))
  {}

  lemma BitStepLinear(p: bv16, u: bv16, v: bv16)
    requires Sum(p, u, v)
    ensures Sum(BitStep(p), BitStep(u), BitStep(v))
  {
    if Odd(u) {
      if Odd(v) { StepSumOddOdd(p, u, v); } else { StepSumOddEven(p, u, v); }
    } else {
      if Odd(v) { StepSumEvenOdd(p, u, v); } else { StepSumEvenEven(p, u, v); }
    }
  }

  lemma MixBoth(p: bv16, u: bv16, v: bv16)
    requires Sum(p, u, v)
    ensures Sum(Mix(p, false), Mix(u, true), Mix(v, true))
  {}

  lemma MixLeft(p: bv16, u: bv16, v: bv16)
    requires Sum(p, u, v)
    ensures Sum(Mix(p, true), Mix(u, true), Mix(v, false))
  {}

  lemma MixRight(p: bv16, u: bv16, v: bv16)
    requires Sum(p, u, v)
    ensures Sum(Mix(p, true), Mix(u, false), Mix(v, true))
  {}

  lemma MixNeither(p: bv16, u: bv16, v: bv16)
    requires Sum(p, u, v)
    ensures Sum(Mix(p, false), Mix(u, false), Mix(v, false))
  {
    hide Mix, Sum;
    MixNothing(p); MixNothing(u); MixNothing(v);
  }

  lemma MixNothing(c: bv16)
    ensures Mix(c, false) == c
  {}

  lemma FeedLinear(p: bv16, u: bv16, v: bv16, x: bool, y: bool)
    requires Sum(p, u, v)
    ensures Sum(Feed(p, x != y), Feed(u, x), Feed(v, y))
  {
    hide Sum, BitStep, Mix;
    if x {
      if y { MixBoth(p, u, v); } else { MixLeft(p, u, v); }
    } else {
      if y { MixRight(p, u, v); } else { MixNeither(p, u, v); }
    }
    BitStepLinear(Mix(p, x != y), Mix(u, x), Mix(v, y));
  }

  /** Only zero steps to zero. */
  lemma BitStepZero(a: bv16)
    ensures BitStep(a) == 0 <==> a == 0
  {}

  // ----- Runs of bits -----

  predicate Quiet(bits: seq<bool>) {
    forall k :: 0 <= k < |bits| ==> !bits[k]
  }

  function Differences(x: seq<bool>, y: seq<bool>): (d: seq<bool>)
    requires |x| == |y|
    ensures |d| == |x|
  {
    seq(|x|, k requires 0 <= k < |x| => x[k] != y[k])
  }

  lemma {:induction false} AbsorbLinear(p: bv16, u: bv16, v: bv16, x: seq<bool>, y: seq<bool>)
    requires |x| == |y| && Sum(p, u, v)
    ensures Sum(Absorb(p, Differences(x, y)), Absorb(u, x), Absorb(v, y))
    decreases |x|
  {
    hide Sum, Feed;
    if x != [] {
      FeedLinear(p, u, v, x[0], y[0]);
      AbsorbLinear(Feed(p, x[0] != y[0]), Feed(u, x[0]), Feed(v, y[0]), x[1..], y[1..]);
      assert Differences(x, y)[1..] == Differences(x[1..], y[1..]);
    }
  }

  lemma {:induction false} AbsorbAppend(c: bv16, x: seq<bool>, y: seq<bool>)
    ensures Absorb(c, x + y) == Absorb(Absorb(c, x), y)
    decreases |x|
  {
    hide Feed;
    if x == [] {
      assert x + y == y;
    } else {
      assert (x + y)[1..] == x[1..] + y;
      AbsorbAppend(Feed(c, x[0]), x[1..], y);
    }
  }

  lemma FeedQuiet(c: bv16)
    ensures Feed(c, false) == BitStep(c)
  {
    hide BitStep;
    assert c ^ 0 == c;
  }

  /** Zero bits keep a zero register at zero and never bring another one there. */
  lemma {:induction false} AbsorbQuiet(c: bv16, bits: seq<bool>)
    requires Quiet(bits)
    ensures Absorb(c, bits) == 0 <==> c == 0
    decreases |bits|
  {
    hide Feed, BitStep;
    if bits != [] {
      FeedQuiet(c);
      BitStepZero(c);
      AbsorbQuiet(Feed(c, false), bits[1..]);
    }
  }

  // ----- A word fed in bit by bit is that word XOR-ed in -----

  function Shift(c: bv16, n: nat): bv16
    decreases n
  {
    if n == 0 then c else Shift(BitStep(c), n - 1)
  }

  function ShiftRight(w: bv16, n: nat): bv16
    decreases n
  {
    if n == 0 then w else ShiftRight(w >> 1, n - 1)
  }

  lemma PeelOdd(p: bv16, c: bv16, w: bv16)
    requires Sum(p, c, w) && Odd(w)
    ensures Sum(BitStep(p), Feed(c, Odd(w)), w >> 1)
  {
    assert Sum(p, c ^ 1, w ^ 1);
    assert BitStep(w ^ 1) == w >> 1;
    BitStepLinear(p, c ^ 1, w ^ 1);
  }

  lemma PeelEven(p: bv16, c: bv16, w: bv16)
    requires Sum(p, c, w) && !Odd(w)
    ensures Sum(BitStep(p), Feed(c, Odd(w)), w >> 1)
  {
    assert c ^ 0 == c;
    BitStepLinear(p, c, w);
  }

  lemma {:induction false} ShiftIsAbsorb(p: bv16, c: bv16, w: bv16, n: nat)
    requires Sum(p, c, w)
    ensures Sum(Shift(p, n), Absorb(c, Bits(w, n)), ShiftRight(w, n))
    decreases n
  {
    hide Sum, Feed, BitStep, Odd;
    if n > 0 {
      if Odd(w) { PeelOdd(p, c, w); } else { PeelEven(p, c, w); }
      ShiftIsAbsorb(BitStep(p), Feed(c, Odd(w)), w >> 1, n - 1);
      assert Bits(w, n)[0] == Odd(w) && Bits(w, n)[1..] == Bits(w >> 1, n - 1);
    }
  }

  lemma SumOfSelf(u: bv16)
    ensures Sum(0, u, u)
  {}

  lemma XorIsSum(a: bv16, b: bv16)
    ensures Sum(a ^ b, a, b)
  {}

  lemma SumOfEquals(p: bv16, u: bv16, v: bv16)
    requires Sum(p, u, v) && u == v
    ensures p == 0
  {}

  lemma SumAlone(p: bv16, u: bv16)
    requires Sum(p, u, 0)
    ensures p == u
  {}

  lemma SumIsZero(p: bv16, u: bv16, v: bv16)
    requires Sum(p, u, v)
    ensures p == 0 ==> u == v
  {}

  lemma {:induction false} ShiftZero(c: bv16, n: nat)
    ensures Shift(c, n) == 0 <==> c == 0
    decreases n
  {
    hide BitStep;
    if n > 0 {
      BitStepZero(c);
      ShiftZero(BitStep(c), n - 1);
    }
  }

  lemma {:induction false} ShiftLinear(p: bv16, u: bv16, v: bv16, n: nat)
    requires Sum(p, u, v)
    ensures Sum(Shift(p, n), Shift(u, n), Shift(v, n))
    decreases n
  {
    hide Sum, BitStep;
    if n > 0 {
      BitStepLinear(p, u, v);
      ShiftLinear(BitStep(p), BitStep(u), BitStep(v), n - 1);
    }
  }

  lemma {:induction false} ShiftInjective(a: bv16, b: bv16, n: nat)
    requires Shift(a, n) == Shift(b, n)
    ensures a == b
  {
    hide Shift, Sum;
    var p := a ^ b;
    XorIsSum(a, b);
    ShiftLinear(p, a, b, n);
    SumOfEquals(Shift(p, n), Shift(a, n), Shift(b, n));
    ShiftZero(p, n);
    SumIsZero(p, a, b);
  }

  lemma {:induction false} ShiftLast(c: bv16, n: nat)
    ensures Shift(c, n + 1) == BitStep(Shift(c, n))
    decreases n
  {
    hide BitStep;
    if n > 0 {
      ShiftLast(BitStep(c), n - 1);
    }
  }

  lemma {:induction false} ShiftRightAdd(w: bv16, m: nat, n: nat)
    ensures ShiftRight(w, m + n) == ShiftRight(ShiftRight(w, m), n)
    decreases m
  {
    if m > 0 {
      ShiftRightAdd(w >> 1, m - 1, n);
    }
  }

  lemma ShiftRightEight(w: bv16)
    ensures ShiftRight(w, 8) == w >> 8
  {}

  lemma ShiftRightByte(b: bv8)
    ensures ShiftRight(b as bv16, 8) == 0
  {}

  lemma ShiftRightWord(w: bv16)
    ensures ShiftRight(w, 16) == 0
  {
    ShiftRightAdd(w, 8, 8);
    ShiftRightEight(w);
    ShiftRightEight(w >> 8);
  }

  lemma WireBitsOfOne(b: bv8)
    ensures WireBits([b]) == Bits(b as bv16, 8)
  {}

  /** Feeding the low `n` bits of a word that has no others is XOR-ing it in and shifting `n` times. */
  lemma AbsorbNarrow(c: bv16, w: bv16, n: nat)
    requires ShiftRight(w, n) == 0
    ensures Absorb(c, Bits(w, n)) == Shift(c ^ w, n)
  {
    hide Absorb, Shift, ShiftRight, Bits, Sum;
    var p := c ^ w;
    XorIsSum(c, w);
    ShiftIsAbsorb(p, c, w, n);
    SumAlone(Shift(p, n), Absorb(c, Bits(w, n)));
  }

  lemma AbsorbByte(c: bv16, b: bv8)
    ensures Absorb(c, WireBits([b])) == Shift(c ^ (b as bv16), 8)
  {
    hide Absorb, Shift, ShiftRight, Bits, WireBits;
    ShiftRightByte(b);
    WireBitsOfOne(b);
    AbsorbNarrow(c, b as bv16, 8);
  }

  lemma AbsorbWord(c: bv16, w: bv16)
    ensures Absorb(c, Bits(w, 16)) == Shift(c ^ w, 16)
  {
    hide Absorb, Shift, ShiftRight, Bits;
    ShiftRightWord(w);
    AbsorbNarrow(c, w, 16);
  }

  lemma {:induction false} WireBitsAppend(x: seq<bv8>, y: seq<bv8>)
    ensures WireBits(x + y) == WireBits(x) + WireBits(y)
    decreases |x|
  {
    hide Bits;
    if x == [] {
      assert x + y == y;
    } else {
      assert (x + y)[1..] == x[1..] + y;
      WireBitsAppend(x[1..], y);
      var b := Bits(x[0] as bv16, 8);
      assert WireBits(x + y) == b + WireBits(x[1..] + y);
      assert b + (WireBits(x[1..]) + WireBits(y)) == (b + WireBits(x[1..])) + WireBits(y);
    }
  }

  lemma ChecksumAppend(x: seq<bv8>, y: seq<bv8>)
    ensures Checksum(x + y) == Absorb(Checksum(x), WireBits(y))
  {
    hide WireBits, Absorb;
    WireBitsAppend(x, y);
    AbsorbAppend(0xFFFF, WireBits(x), WireBits(y));
  }

  /** src/scan.rs's two nested loops, for every byte string. */
  method Crc16(bytes: seq<bv8>) returns (crc: bv16)
    ensures crc == Checksum(bytes)
  {
    hide Checksum, BitStep, Odd;
    crc := 0xFFFF;
    assert Checksum([]) == 0xFFFF by { EmptyChecksum(); }
    for n := 0 to |bytes|
      invariant crc == Checksum(bytes[..n])
    {
      ghost var before := crc;
      var b := bytes[n];
      crc := crc ^ (b as bv16);
      for k := 0 to 8
        invariant crc == Shift(before ^ (b as bv16), k)
      {
        ShiftLast(before ^ (b as bv16), k);
        BitStepIs(crc);
        crc := if crc & 1 != 0 then (crc >> 1) ^ 0xA001 else crc >> 1;
      }
      AbsorbByte(before, b);
      assert bytes[..n + 1] == bytes[..n] + [b];
      ChecksumAppend(bytes[..n], [b]);
    }
    assert bytes[..|bytes|] == bytes;
  }

  lemma EmptyChecksum()
    ensures Checksum([]) == 0xFFFF
  {}

  lemma BitStepIs(c: bv16)
    ensures BitStep(c) == if c & 1 != 0 then (c >> 1) ^ 0xA001 else c >> 1
  {}
}
