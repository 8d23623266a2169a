/** The checksum of src/scan.rs as the remainder of a polynomial division over GF(2). A polynomial is
    its coefficients, highest degree first; addition is `Differences`. The register read low bit
    first is such a sequence, which is what "reflected" means. */
module CrcDivision {
  import opened Crc
  import opened CrcDetection

  function Zeros(n: nat): (z: seq<bool>)
    ensures |z| == n
  {
    seq(n, k => false)
  }

  /** x^16 + x^15 + x^2 + 1 without its leading term. */
  function Generator(): (g: seq<bool>)
    ensures |g| == 16
  {
    seq(16, k => k == 0 || k == 13 || k == 15)
  }

  /** `s` with `r` added to its leading coefficients. */
  function AddHead(r: seq<bool>, s: seq<bool>): (t: seq<bool>)
    requires |r| <= |s|
    ensures |t| == |s|
    ensures forall k :: 0 <= k < |s| ==> t[k] == if k < |r| then r[k] != s[k] else s[k]
  {
    seq(|s|, k requires 0 <= k < |s| => if k < |r| then r[k] != s[k] else s[k])
  }

  /** One step of long division: the leading term is cancelled against the generator's. */
  function Cancel(p: seq<bool>): (t: seq<bool>)
    requires |p| > 16
    ensures |t| == |p| - 1
  {
    if p[0] then AddHead(Generator(), p[1..]) else p[1..]
  }

  function Remainder(p: seq<bool>): (r: seq<bool>)
    requires |p| >= 16
    ensures |r| == 16
    decreases |p|
  {
    if |p| == 16 then p else Remainder(Cancel(p))
  }

  function Quotient(p: seq<bool>): (q: seq<bool>)
    requires |p| >= 16
    ensures |q| == |p| - 16
    decreases |p|
  {
    if |p| == 16 then [] else [p[0]] + Quotient(Cancel(p))
  }

  /** `q` times the generator. */
  function Times(q: seq<bool>): (p: seq<bool>)
    ensures |p| == |q| + 16
    decreases |q|
  {
    if q == [] then Zeros(16)
    else AddHead([q[0]] + if q[0] then Generator() else Zeros(16), [false] + Times(q[1..]))
  }

  /** Quotient times generator plus remainder. */
  function Recombine(q: seq<bool>, r: seq<bool>): (p: seq<bool>)
    requires |r| == 16
    ensures |p| == |q| + 16
  {
    Differences(Times(q), Zeros(|q|) + r)
  }

  // ----- Long division is division with remainder -----

  lemma RecombineAt(q: seq<bool>, r: seq<bool>, k: nat)
    requires q != [] && |r| == 16 && k < |q| + 15
    ensures Recombine(q, r)[0] == q[0]
    ensures Recombine(q, r)[k + 1]
         == (Recombine(q[1..], r)[k] != (q[0] && k < 16 && Generator()[k]))
  {
    assert Times(q)[k + 1] == (Times(q[1..])[k] != (q[0] && k < 16 && Generator()[k]));
    assert (Zeros(|q|) + r)[k + 1] == (Zeros(|q| - 1) + r)[k];
  }

  lemma CancelAt(p: seq<bool>, k: nat)
    requires |p| > 16 && k + 1 < |p|
    ensures Cancel(p)[k] == (p[k + 1] != (p[0] && k < 16 && Generator()[k]))
  {}

  /** Quotient times generator, plus the remainder, is the polynomial that was divided. */
  lemma {:induction false} Divides(p: seq<bool>)
    requires |p| >= 16
    ensures Recombine(Quotient(p), Remainder(p)) == p
    decreases |p|
  {
    hide Recombine, Generator, Cancel;
    var q, r := Quotient(p), Remainder(p);
    if |p| == 16 {
      assert Recombine([], p) == p by { RecombineNothing(p); }
    } else {
      Divides(Cancel(p));
      assert q[1..] == Quotient(Cancel(p));
      RecombineAt(q, r, 0);
      forall m | 0 < m < |p|
        ensures Recombine(q, r)[m] == p[m]
      {
        RecombineAt(q, r, m - 1);
        CancelAt(p, m - 1);
      }
    }
  }

  lemma RecombineNothing(p: seq<bool>)
    requires |p| == 16
    ensures Recombine([], p) == p
  {}

  /** And there is only one quotient and one remainder. */
  lemma {:induction false} DivisionUnique(q: seq<bool>, r: seq<bool>, q': seq<bool>, r': seq<bool>)
    requires |q| == |q'| && |r| == |r'| == 16
    requires Recombine(q, r) == Recombine(q', r')
    ensures q == q' && r == r'
    decreases |q|
  {
    hide Recombine, Generator;
    if q == [] {
      RecombineNothing(r);
      RecombineNothing(r');
    } else {
      RecombineAt(q, r, 0);
      RecombineAt(q', r', 0);
      forall k | 0 <= k < |q| + 15
        ensures Recombine(q[1..], r)[k] == Recombine(q'[1..], r')[k]
      {
        RecombineAt(q, r, k);
        RecombineAt(q', r', k);
      }
      DivisionUnique(q[1..], r, q'[1..], r');
      assert q == [q[0]] + q[1..] && q' == [q'[0]] + q'[1..];
    }
  }

  // ----- The register carries the remainder -----

  lemma DifferencesCons(a: bool, x: seq<bool>, b: bool, y: seq<bool>)
    requires |x| == |y|
    ensures Differences([a] + x, [b] + y) == [a != b] + Differences(x, y)
  {}

  lemma {:induction false} BitsOfSum(p: bv16, u: bv16, v: bv16, n: nat)
    requires Sum(p, u, v)
    ensures Bits(p, n) == Differences(Bits(u, n), Bits(v, n))
    decreases n
  {
    hide Sum, Odd;
    if n > 0 {
      OddOfSum(p, u, v);
      HalvesOfSum(p, u, v);
      BitsOfSum(p >> 1, u >> 1, v >> 1, n - 1);
      DifferencesCons(Odd(u), Bits(u >> 1, n - 1), Odd(v), Bits(v >> 1, n - 1));
    }
  }

  lemma BitsPeel(w: bv16, n: nat)
    requires n > 0
    ensures Bits(w, n) == [Odd(w)] + Bits(w >> 1, n - 1)
  {}

  lemma GeneratorBits()
    ensures Bits(0xA001, 16) == Generator()
  {
    hide Bits;
    BitsPeel(0xA001, 16); BitsPeel(0x5000, 15); BitsPeel(0x2800, 14); BitsPeel(0x1400, 13);
    BitsPeel(0xA00, 12); BitsPeel(0x500, 11); BitsPeel(0x280, 10); BitsPeel(0x140, 9);
    BitsPeel(0xA0, 8); BitsPeel(0x50, 7); BitsPeel(0x28, 6); BitsPeel(0x14, 5);
    BitsPeel(0xA, 4); BitsPeel(5, 3); BitsPeel(2, 2); BitsPeel(1, 1);
  }

  lemma BitsOfHalf(c: bv16)
    ensures Bits(c >> 1, 16) == Bits(c, 16)[1..] + [false]
  {
    hide Bits, ShiftRight, Odd;
    BitsPeel(c, 16);
    BitsSplit(c >> 1, 15, 1);
    ShiftRightOnce(c);
    ShiftRightWord(c);
    BitsOfZero(1);
  }

  lemma StepBits(p: bv16)
    ensures Bits(BitStep(p), 16) == AddHead(if Odd(p) then Generator() else [], Bits(p, 16)[1..] + [false])
  {
    hide Bits, Generator;
    BitsOfHalf(p);
    if Odd(p) {
      XorIsSum(p >> 1, 0xA001);
      BitsOfSum((p >> 1) ^ 0xA001, p >> 1, 0xA001, 16);
      GeneratorBits();
    }
  }

  lemma BitBits(b: bool)
    ensures Bits(Bit(b), 16) == [b] + Zeros(15)
  {
    hide Bits;
    BitsPeel(Bit(b), 16);
    assert Bit(b) >> 1 == 0 && Odd(Bit(b)) == b;
    BitsOfZero(15);
  }

  lemma StepOfSumBits(p: bv16, c: bv16, u: bv16, b: bool)
    requires Sum(p, c, u) && Bits(u, 16) == [b] + Zeros(15)
    ensures Bits(BitStep(p), 16)
         == AddHead(if Bits(c, 16)[0] != b then Generator() else [], Bits(c, 16)[1..] + [false])
  {
    hide Bits, BitStep, Sum, Odd, Generator, AddHead;
    BitsOfSum(p, c, u, 16);
    StepBits(p);
    BitsPeel(p, 16);
    assert Bits(p, 16)[0] == (Bits(c, 16)[0] != b);
    assert Bits(p, 16)[1..] == Bits(c, 16)[1..];
  }

  /** The register's bits after one wire bit: each moves down a place, and the generator is added
      when what was carried out is a one. */
  lemma FeedBits(c: bv16, b: bool)
    ensures Bits(Feed(c, b), 16)
         == AddHead(if Bits(c, 16)[0] != b then Generator() else [], Bits(c, 16)[1..] + [false])
  {
    hide Bits, BitStep, Bit, Sum, Odd, Generator, AddHead;
    XorIsSum(c, Bit(b));
    BitBits(b);
    StepOfSumBits(c ^ Bit(b), c, Bit(b), b);
  }

  /** Feeding one wire bit is one step of long division on register and message together. */
  lemma FeedDivides(c: bv16, b: bool, rest: seq<bool>)
    requires |rest| >= 16
    ensures AddHead(Bits(Feed(c, b), 16), rest) == Cancel(AddHead(Bits(c, 16), [b] + rest))
  {
    hide Bits, Feed, Generator;
    FeedBits(c, b);
    HeadCancel(Bits(c, 16), b, rest);
  }

  lemma HeadCancel(r: seq<bool>, b: bool, rest: seq<bool>)
    requires |r| == 16 <= |rest|
    ensures AddHead(AddHead(if r[0] != b then Generator() else [], r[1..] + [false]), rest)
         == Cancel(AddHead(r, [b] + rest))
  {}

  /** From any register and over any bits: what comes out, low bit first, is the remainder of the
      bits times x^16 with the register added in front. */
  lemma {:induction false} AbsorbIsRemainder(c: bv16, bits: seq<bool>)
    ensures Bits(Absorb(c, bits), 16) == Remainder(AddHead(Bits(c, 16), bits + Zeros(16)))
    decreases |bits|
  {
    hide Bits, Feed, Cancel;
    if bits == [] {
      assert bits + Zeros(16) == Zeros(16);
      assert AddHead(Bits(c, 16), Zeros(16)) == Bits(c, 16);
    } else {
      assert bits + Zeros(16) == [bits[0]] + (bits[1..] + Zeros(16));
      FeedDivides(c, bits[0], bits[1..] + Zeros(16));
      AbsorbIsRemainder(Feed(c, bits[0]), bits[1..]);
    }
  }

  lemma BitsOfAllOnes()
    ensures Bits(0xFFFF, 16) == seq(16, k => true)
  {
    hide Bits;
    BitsPeel(0xFFFF, 16); BitsPeel(0x7FFF, 15); BitsPeel(0x3FFF, 14); BitsPeel(0x1FFF, 13);
    BitsPeel(0xFFF, 12); BitsPeel(0x7FF, 11); BitsPeel(0x3FF, 10); BitsPeel(0x1FF, 9);
    BitsPeel(0xFF, 8); BitsPeel(0x7F, 7); BitsPeel(0x3F, 6); BitsPeel(0x1F, 5);
    BitsPeel(0xF, 4); BitsPeel(7, 3); BitsPeel(3, 2); BitsPeel(1, 1);
  }

  /** The checksum of any message, low bit first, is the remainder on division by
      x^16 + x^15 + x^2 + 1 of the message's wire bits times x^16, its first sixteen inverted. */
  lemma ChecksumIsRemainder(message: seq<bv8>)
    ensures Bits(Checksum(message), 16)
         == Remainder(AddHead(seq(16, k => true), WireBits(message) + Zeros(16)))
  {
    hide Absorb, WireBits, Remainder;
    BitsOfAllOnes();
    AbsorbIsRemainder(0xFFFF, WireBits(message));
  }
}
