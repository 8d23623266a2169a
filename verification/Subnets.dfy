/** IPv4 networks (src/parse.rs). Addresses are 32-bit numbers, and shifting and masking them is
    written out, bit by bit, as the machine does it. */
module Subnets {
  import opened Wrappers

  const MAX_SCAN_PREFIX: nat := 22
  const MIN_GUESS_PREFIX: nat := 16

  function Pow2(n: nat): (r: nat)
    ensures r > 0
  {
    if n == 0 then 1 else 2 * Pow2(n - 1)
  }

  const U32: nat := 0x1_0000_0000

  predicate IsU32(a: nat) {
    a < U32
  }

  /** Bitwise and. */
  function And(a: nat, b: nat): nat {
    if a == 0 || b == 0 then 0 else 2 * And(a / 2, b / 2) + (if a % 2 == 1 && b % 2 == 1 then 1 else 0)
  }

  /** Shifted left by `k`, what goes past 32 bits dropped. */
  function ShiftLeft(a: nat, k: nat): nat {
    if k == 0 then a else 2 * ShiftLeft(a, k - 1) % U32
  }

  function Mask(prefix: nat): nat
    requires prefix <= 32
  {
    if prefix == 0 then 0 else ShiftLeft(U32 - 1, 32 - prefix)
  }

  datatype Subnet = Subnet(network: nat, prefix: nat)

  /** The network an address is in. */
  function NetworkOf(addr: nat, prefix: nat): Subnet
    requires prefix <= 32
  {
    Subnet(And(addr, Mask(prefix)), prefix)
  }

  predicate Contains(s: Subnet, addr: nat)
    requires s.prefix <= 32
  {
    NetworkOf(addr, s.prefix).network == s.network
  }

  function Size(s: Subnet): nat
    requires s.prefix <= 32
  {
    Pow2(32 - s.prefix)
  }

  /** A requested range, its prefix already read: no larger than a /22. */
  function ParseSubnet(addr: nat, prefix: nat): Option<Subnet> {
    if prefix > 32 || prefix < MAX_SCAN_PREFIX then None else Some(NetworkOf(addr, prefix))
  }

  /** The range scanned for the device's own address. */
  function DefaultSubnet(addr: nat, prefix: nat): Option<Subnet>
    requires prefix <= 32
  {
    if prefix < MIN_GUESS_PREFIX then None
    else Some(NetworkOf(addr, if prefix < MAX_SCAN_PREFIX then MAX_SCAN_PREFIX else prefix))
  }

  // ----- Masking clears the low bits -----

  /** `a` without its low `k` bits. */
  function High(a: nat, k: nat): nat
    decreases k
  {
    if k == 0 then a else High(a / 2, k - 1)
  }

  /** `a` with `k` zero bits behind it, none dropped. */
  function Raise(a: nat, k: nat): nat
    decreases k
  {
    if k == 0 then a else 2 * Raise(a, k - 1)
  }

  /** And-ing with `w` ones changes nothing below 2^w. */
  lemma {:induction false} AndOnes(a: nat, w: nat)
    requires a < Pow2(w)
    ensures And(a, Pow2(w) - 1) == a
    decreases w
  {
    if w > 0 {
      var b := Pow2(w) - 1;
      assert b % 2 == 1 && b / 2 == Pow2(w - 1) - 1;
      AndOnes(a / 2, w - 1);
    }
  }

  /** And-ing with anything raised by `k` bits ignores the low `k` bits. */
  lemma {:induction false} AndRaised(a: nat, m: nat, k: nat)
    ensures And(a, Raise(m, k)) == Raise(And(High(a, k), m), k)
    decreases k
  {
    if k > 0 {
      AndRaised(a / 2, m, k - 1);
      AndDouble(a, Raise(m, k - 1));
    }
  }

  lemma {:induction false} AndDouble(a: nat, half: nat)
    ensures And(a, 2 * half) == 2 * And(a / 2, half)
  {
    if a != 0 && half != 0 {
      assert 2 * half / 2 == half && 2 * half % 2 == 0;
    }
  }

  lemma {:induction false} RaisedOnes(w: nat, k: nat)
    ensures Raise(Pow2(w) - 1, k) == Pow2(w + k) - Pow2(k)
    decreases k
  {
    if k > 0 {
      RaisedOnes(w, k - 1);
    }
  }

  lemma {:induction false} Pow2Grows(m: nat, n: nat)
    requires m <= n
    ensures Pow2(m) <= Pow2(n)
    decreases n
  {
    if m < n {
      Pow2Grows(m, n - 1);
    }
  }

  lemma {:induction false} Pow2Add(m: nat, n: nat)
    ensures Raise(Pow2(m), n) == Pow2(m + n)
    decreases n
  {
    if n > 0 {
      Pow2Add(m, n - 1);
    }
  }

  lemma TwoToThe32()
    ensures Pow2(32) == U32
  {
    assert Pow2(3) == 8;
    assert Pow2(6) == 64;
    assert Pow2(9) == 512;
    assert Pow2(12) == 4096;
    assert Pow2(15) == 32768;
    assert Pow2(18) == 262144;
    assert Pow2(21) == 2097152;
    assert Pow2(24) == 16777216;
    assert Pow2(27) == 134217728;
    assert Pow2(30) == 1073741824;
  }

  /** What the shift drops is exactly what does not fit. */
  lemma {:induction false} ShiftedOnes(k: nat)
    requires k <= 32
    ensures ShiftLeft(U32 - 1, k) == U32 - Pow2(k)
    decreases k
  {
    TwoToThe32();
    Pow2Grows(k, 32);
    if k > 0 {
      ShiftedOnes(k - 1);
      WrapOnce(2 * ShiftLeft(U32 - 1, k - 1));
    }
  }

  lemma WrapOnce(x: nat)
    requires U32 <= x < 2 * U32
    ensures x % U32 == x - U32
  {}

  lemma {:induction false} HighFits(a: nat, w: nat, k: nat)
    requires a < Pow2(w + k)
    ensures High(a, k) < Pow2(w)
    decreases k
  {
    if k > 0 {
      HighFits(a / 2, w, k - 1);
    }
  }

  /** A network's address is the address with the bits beyond the prefix cleared. */
  lemma NetworkClearsLow(addr: nat, prefix: nat)
    requires prefix <= 32 && IsU32(addr)
    ensures NetworkOf(addr, prefix).network == Raise(High(addr, 32 - prefix), 32 - prefix)
  {
    hide Pow2, And, Raise, High, ShiftLeft;
    var k := 32 - prefix;
    TwoToThe32();
    HighFits(addr, prefix, k);
    if prefix == 0 {
      OnePower();
      AndZero(addr);
      RaisedZero(k);
    } else {
      ShiftedOnes(k);
      RaisedOnes(prefix, k);
      AndRaised(addr, Pow2(prefix) - 1, k);
      AndOnes(High(addr, k), prefix);
    }
  }

  lemma OnePower()
    ensures Pow2(0) == 1
  {}

  lemma AndZero(a: nat)
    ensures And(a, 0) == 0
  {}

  lemma {:induction false} RaisedZero(k: nat)
    ensures Raise(0, k) == 0
    decreases k
  {
    if k > 0 {
      RaisedZero(k - 1);
    }
  }

  // ----- Networks are ranges -----

  lemma {:induction false} ClearedBelow(a: nat, k: nat)
    ensures Raise(High(a, k), k) <= a < Raise(High(a, k), k) + Pow2(k)
    decreases k
  {
    if k > 0 {
      ClearedBelow(a / 2, k - 1);
    }
  }

  lemma {:induction false} RaiseApart(x: nat, y: nat, k: nat)
    requires x < y
    ensures Raise(x, k) + Pow2(k) <= Raise(y, k)
    decreases k
  {
    if k > 0 {
      RaiseApart(x, y, k - 1);
    }
  }

  lemma ClearedIsRange(a: nat, q: nat, k: nat)
    ensures Raise(High(a, k), k) == Raise(q, k) <==> Raise(q, k) <= a < Raise(q, k) + Pow2(k)
    ensures Raise(High(a, k), k) == Raise(q, k) ==> High(a, k) == q
  {}

  /** For every network and every prefix, /0 and /32 included: the addresses in it are those from the
      network address up to, and not including, that plus its size, and all of them fit 32 bits. */
  lemma ContainsIsRange(base: nat, prefix: nat, addr: nat)
    requires prefix <= 32 && IsU32(base) && IsU32(addr)
    ensures var s := NetworkOf(base, prefix);
            && (Contains(s, addr) <==> s.network <= addr < s.network + Size(s))
            && s.network + Size(s) <= U32
  {
    hide Raise, High, Pow2, NetworkOf;
    var k := 32 - prefix;
    NetworkPrefix(base, prefix);
    NetworkPrefix(addr, prefix);
    NetworkClearsLow(base, prefix);
    NetworkClearsLow(addr, prefix);
    ClearedIsRange(addr, High(base, k), k);
    TwoToThe32();
    HighFits(base, prefix, k);
    RaiseApart(High(base, k), Pow2(prefix), k);
    Pow2Add(prefix, k);
  }

  lemma NetworkPrefix(addr: nat, prefix: nat)
    requires prefix <= 32
    ensures NetworkOf(addr, prefix).prefix == prefix
  {}

  lemma {:induction false} HighTwice(a: nat, j: nat, k: nat)
    ensures High(High(a, j), k) == High(a, j + k)
    decreases j
  {
    if j > 0 {
      HighTwice(a / 2, j - 1, k);
    }
  }

  /** A network lies inside the larger networks of the same address. */
  lemma Narrower(addr: nat, a: nat, prefix: nat, p: nat)
    requires prefix <= p <= 32 && IsU32(addr) && IsU32(a)
    requires Contains(NetworkOf(addr, p), a)
    ensures Contains(NetworkOf(addr, prefix), a)
  {
    hide Raise, High, Pow2, NetworkOf;
    NetworkPrefix(addr, p);
    NetworkPrefix(addr, prefix);
    NetworkClearsLow(addr, p);
    NetworkClearsLow(a, p);
    NetworkClearsLow(addr, prefix);
    NetworkClearsLow(a, prefix);
    ClearedIsRange(a, High(addr, 32 - p), 32 - p);
    HighTwice(addr, 32 - p, p - prefix);
    HighTwice(a, 32 - p, p - prefix);
  }

  /** A requested range is accepted exactly up to 1024 addresses; the range guessed for the device's own
      address is given for prefixes of 16 and up, contains the address, lies inside the device's own
      network, and is all of that, or 1024 addresses of it if there are more. */
  lemma ScanRangesFit(addr: nat, prefix: nat)
    requires prefix <= 32 && IsU32(addr)
    ensures ParseSubnet(addr, prefix).Some? <==> Pow2(32 - prefix) <= 1024
    ensures DefaultSubnet(addr, prefix).Some? <==> prefix >= 16
    ensures var d := DefaultSubnet(addr, prefix);
            d.Some? ==>
              && d.value.prefix <= 32 && Contains(d.value, addr)
              && Size(d.value) == Min(1024, Size(NetworkOf(addr, prefix)))
              && forall a: nat :: IsU32(a) && Contains(d.value, a) ==> Contains(NetworkOf(addr, prefix), a)
  {
    TenAndEleven();
    hide Pow2, And, ShiftLeft;
    if prefix >= 22 {
      Pow2Grows(32 - prefix, 10);
    } else {
      Pow2Grows(11, 32 - prefix);
    }
    if prefix >= 16 {
      var p := if prefix < MAX_SCAN_PREFIX then MAX_SCAN_PREFIX else prefix;
      Pow2Grows(32 - p, 10);
      forall a: nat | IsU32(a) && Contains(NetworkOf(addr, p), a)
        ensures Contains(NetworkOf(addr, prefix), a)
      {
        Narrower(addr, a, prefix, p);
      }
    }
  }

  lemma TenAndEleven()
    ensures Pow2(10) == 1024 && Pow2(11) == 2048
  {
    assert Pow2(3) == 8;
    assert Pow2(6) == 64;
    assert Pow2(9) == 512;
  }
}
