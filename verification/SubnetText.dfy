/** Scan ranges as text (src/parse.rs): `a.b.c.d/p`, or a bare address. */
module SubnetText {
  import opened Wrappers
  import opened Text
  import opened Subnets

  // ----- Reading -----

  /** What is before the first `c` and what is after it. */
  function SplitOnce(s: string, c: char): Option<(string, string)> {
    if s == "" then None
    else if s[0] == c then Some(("", s[1..]))
    else
      var rest := SplitOnce(s[1..], c);
      if rest.None? then None else Some(([s[0]] + rest.value.0, rest.value.1))
  }

  /** One to three digits, no zero in front, no more than 255. */
  function ParseOctet(s: string): Option<nat> {
    if 1 <= |s| <= 3 && Digits(s) && (s[0] == '0' ==> |s| == 1) && Number(s) <= 255 then Some(Number(s)) else None
  }

  /** `count` octets with dots between them, most significant first. */
  function ParseOctets(s: string, count: nat): Option<nat>
    decreases count
  {
    if count == 0 then None
    else if count == 1 then ParseOctet(s)
    else
      match SplitOnce(s, '.')
      case None => None
      case Some((first, rest)) =>
        var high, low := ParseOctet(first), ParseOctets(rest, count - 1);
        if high.None? || low.None? then None else Some(high.value * Power256(count - 1) + low.value)
  }

  function Power256(n: nat): (r: nat)
    ensures r > 0
  {
    if n == 0 then 1 else 256 * Power256(n - 1)
  }

  datatype RangeError = BadPrefix | BadAddress | TooLarge

  /** `parse_subnet`. */
  function ParseRange(text: string): Result<Subnet, RangeError> {
    var s := Trim(text);
    var parts := SplitOnce(s, '/');
    var prefix := if parts.Some? then ParseU8(parts.value.1) else Some(32);
    if prefix.None? then Err(BadPrefix)
    else
      var addr := ParseOctets(if parts.Some? then parts.value.0 else s, 4);
      if addr.None? then Err(BadAddress)
      else if prefix.value > 32 then Err(BadPrefix)
      else
        var subnet := ParseSubnet(addr.value, prefix.value);
        if subnet.None? then Err(TooLarge) else Ok(subnet.value)
  }

  // ----- Printing -----

  function Quotient(a: nat, m: nat): (q: nat)
    requires m > 0
  {
    a / m
  }

  function Rest(a: nat, m: nat): (r: nat)
    requires m > 0
    ensures r < m && Quotient(a, m) * m + r == a
  {
    a % m
  }

  function ShowOctets(a: nat, count: nat): string
    decreases count
  {
    if count <= 1 then Decimal(a)
    else
      var m := Power256(count - 1);
      Decimal(Quotient(a, m)) + "." + ShowOctets(Rest(a, m), count - 1)
  }

  function ShowAddress(a: nat): string {
    ShowOctets(a, 4)
  }

  function Show(s: Subnet): string {
    ShowAddress(s.network) + "/" + Decimal(s.prefix)
  }

  // ----- What is printed is read back -----

  lemma {:induction false} SplitFirst(before: string, c: char, after: string)
    requires forall k :: 0 <= k < |before| ==> before[k] != c
    ensures SplitOnce(before + [c] + after, c) == Some((before, after))
    decreases |before|
  {
    var s := before + [c] + after;
    if before == "" {
      assert s == [c] + after && s[1..] == after;
    } else {
      assert s[0] == before[0] && s[1..] == before[1..] + [c] + after;
      SplitFirst(before[1..], c, after);
      assert [s[0]] + before[1..] == before;
    }
  }

  lemma {:induction false} SplitNowhere(s: string, c: char)
    requires forall k :: 0 <= k < |s| ==> s[k] != c
    ensures SplitOnce(s, c) == None
    decreases |s|
  {
    if s != "" {
      SplitNowhere(s[1..], c);
    }
  }

  lemma OctetRead(n: nat)
    requires n < 256
    ensures ParseOctet(Decimal(n)) == Some(n)
  {
    hide Decimal, Number;
    DecimalRead(n);
  }

  lemma DivBelow(a: nat, m: nat)
    requires m > 0 && a < 256 * m
    ensures Quotient(a, m) < 256
  {}

  lemma {:induction false} OctetsRead(a: nat, count: nat)
    requires 1 <= count && a < Power256(count)
    ensures ParseOctets(ShowOctets(a, count), count) == Some(a)
    decreases count
  {
    if count == 1 {
      assert Power256(1) == 256 * Power256(0);
      OctetRead(a);
    } else {
      var m := Power256(count - 1);
      var high, low := Decimal(Quotient(a, m)), ShowOctets(Rest(a, m), count - 1);
      DivBelow(a, m);
      hide Power256, ParseOctet, Quotient, Rest, Decimal;
      OctetRead(Quotient(a, m));
      OctetsRead(Rest(a, m), count - 1);
      NoDot(high);
      SplitFirst(high, '.', low);
      assert ShowOctets(a, count) == high + ['.'] + low;
    }
  }

  lemma NoDot(s: string)
    requires Digits(s)
    ensures forall k :: 0 <= k < |s| ==> s[k] != '.'
  {}

  predicate AddressChars(s: string) {
    forall k :: 0 <= k < |s| ==> IsDigit(s[k]) || s[k] == '.'
  }

  lemma {:induction false} OctetsChars(a: nat, count: nat)
    ensures AddressChars(ShowOctets(a, count)) && ShowOctets(a, count) != ""
    decreases count
  {
    if count > 1 {
      OctetsChars(Rest(a, Power256(count - 1)), count - 1);
    }
  }

  lemma Power256Four()
    ensures Power256(4) == U32
  {
    assert Power256(2) == 65536;
  }

  lemma AddressRead(a: nat)
    requires IsU32(a)
    ensures ParseOctets(ShowAddress(a), 4) == Some(a)
    ensures AddressChars(ShowAddress(a)) && ShowAddress(a) != ""
  {
    Power256Four();
    OctetsRead(a, 4);
    OctetsChars(a, 4);
  }

  lemma RangeTight(address: string, tail: string)
    requires AddressChars(address) && address != ""
    requires tail == "" || (|tail| > 1 && tail[0] == '/' && Digits(tail[1..]))
    ensures Tight(address + tail)
  {
    var s := address + tail;
    assert s[0] == address[0];
    if tail != "" {
      assert s[|s| - 1] == tail[1..][|tail| - 2];
    }
  }

  /** What a range comes to, by its address and prefix. */
  function RangeOf(addr: nat, prefix: nat): Result<Subnet, RangeError> {
    if prefix > 32 then Err(BadPrefix)
    else if prefix < MAX_SCAN_PREFIX then Err(TooLarge)
    else Ok(NetworkOf(addr, prefix))
  }

  /** Every address with every prefix up to 255, printed with any white space around it, is accepted
      exactly from /22 to /32, and as the network the address is in. */
  lemma RangeRead(addr: nat, prefix: nat, before: string, after: string)
    requires IsU32(addr) && prefix < 256 && Blank(before) && Blank(after)
    ensures ParseRange(before + (ShowAddress(addr) + "/" + Decimal(prefix)) + after) == RangeOf(addr, prefix)
  {
    hide ShowAddress, Decimal, ParseOctets, Integer, Trim, NetworkOf, Digits;
    var address, digits := ShowAddress(addr), Decimal(prefix);
    AddressRead(addr);
    IntegerRead(prefix, false);
    DigitsFollow(digits);
    RangeTight(address, "/" + digits);
    var s := address + "/" + digits;
    assert s == address + ("/" + digits);
    TrimIs(before, s, after);
    NoSlash(address);
    SplitFirst(address, '/', digits);
  }

  lemma DigitsFollow(digits: string)
    requires Digits(digits)
    ensures Digits(("/" + digits)[1..])
  {
    assert ("/" + digits)[1..] == digits;
  }

  lemma NoSlash(s: string)
    requires AddressChars(s)
    ensures forall k :: 0 <= k < |s| ==> s[k] != '/'
  {}

  /** A bare address is the one address. */
  lemma BareAddressRead(addr: nat, before: string, after: string)
    requires IsU32(addr) && Blank(before) && Blank(after)
    ensures ParseRange(before + ShowAddress(addr) + after) == Ok(NetworkOf(addr, 32))
  {
    hide ShowAddress, ParseOctets, Trim, NetworkOf;
    var address := ShowAddress(addr);
    AddressRead(addr);
    RangeTight(address, "");
    assert address + "" == address;
    TrimIs(before, address, after);
    NoSlash(address);
    SplitNowhere(address, '/');
  }

  lemma NetworkTwice(addr: nat, prefix: nat)
    requires IsU32(addr) && prefix <= 32
    ensures var s := NetworkOf(addr, prefix);
            IsU32(s.network) && s.prefix == prefix && NetworkOf(s.network, prefix) == s
  {
    hide NetworkOf, Pow2;
    var s := NetworkOf(addr, prefix);
    NetworkPrefix(addr, prefix);
    SizePositive(s);
    ContainsIsRange(addr, prefix, addr);
    ContainsIsRange(addr, prefix, s.network);
    NetworkPrefix(s.network, prefix);
  }

  lemma SizePositive(s: Subnet)
    requires s.prefix <= 32
    ensures Size(s) > 0
  {}

  /** Every range that may be scanned is read back as it is printed. */
  lemma RangeRoundTrip(addr: nat, prefix: nat)
    requires IsU32(addr) && MAX_SCAN_PREFIX <= prefix <= 32
    ensures ParseRange(Show(NetworkOf(addr, prefix))) == Ok(NetworkOf(addr, prefix))
  {
    hide ParseRange, NetworkOf, ShowAddress;
    var s := NetworkOf(addr, prefix);
    NetworkTwice(addr, prefix);
    RangeRead(s.network, prefix, "", "");
    assert "" + Show(s) + "" == Show(s);
  }

  // ----- Nothing else is accepted -----

  lemma {:induction false} SplitIs(s: string, c: char)
    requires SplitOnce(s, c).Some?
    ensures var parts := SplitOnce(s, c).value;
            s == parts.0 + [c] + parts.1 && forall k :: 0 <= k < |parts.0| ==> parts.0[k] != c
    decreases |s|
  {
    if s[0] != c {
      SplitIs(s[1..], c);
      assert s == [s[0]] + s[1..];
    }
  }

  lemma OctetIs(s: string)
    requires ParseOctet(s).Some?
    ensures ParseOctet(s).value < 256 && s == Decimal(ParseOctet(s).value)
  {
    hide Decimal, Number, Zeros;
    var zeros := DigitsAre(s);
    if zeros > 0 {
      ZerosFirst(zeros);
      assert s[0] == Zeros(zeros)[0];
    }
    assert zeros == 0 && Zeros(0) == "" by { NoZeros(); }
    assert "" + Decimal(Number(s)) == Decimal(Number(s));
  }

  lemma {:induction false} ZerosFirst(n: nat)
    requires n > 0
    ensures Zeros(n)[0] == '0'
    decreases n
  {
    if n > 1 {
      ZerosFirst(n - 1);
    }
  }

  /** Digits of a number in base `m`. */
  lemma PutTogether(high: nat, low: nat, m: nat)
    requires m > 0 && low < m
    ensures Quotient(high * m + low, m) == high && Rest(high * m + low, m) == low
  {
    var a := high * m + low;
    var q, r := Quotient(a, m), Rest(a, m);
    if q < high {
      MoreTimes(q, high, m);
    } else if high < q {
      MoreTimes(high, q, m);
    }
  }

  lemma MoreTimes(x: nat, y: nat, m: nat)
    requires x < y
    ensures x * m + m <= y * m
  {
    assert (x + 1) * m <= y * m;
  }

  lemma {:induction false} OctetsAre(s: string, count: nat)
    requires ParseOctets(s, count).Some?
    ensures ParseOctets(s, count).value < Power256(count)
    ensures s == ShowOctets(ParseOctets(s, count).value, count)
    decreases count
  {
    if count == 1 {
      OctetIs(s);
      assert Power256(1) == 256 * Power256(0);
    } else {
      var parts := SplitOnce(s, '.').value;
      var m := Power256(count - 1);
      var high, low := ParseOctet(parts.0).value, ParseOctets(parts.1, count - 1).value;
      assert ParseOctets(s, count) == Some(high * m + low);
      assert Power256(count) == 256 * m;
      SplitIs(s, '.');
      OctetIs(parts.0);
      OctetsAre(parts.1, count - 1);
      hide Power256, ParseOctet, ParseOctets, Quotient, Rest, Decimal, SplitOnce;
      PutTogether(high, low, m);
      MoreTimes(high, 256, m);
      assert ShowOctets(high * m + low, count) == Decimal(high) + "." + ShowOctets(low, count - 1);
    }
  }

  /** `s` names the range: an address alone, or with a slash and a prefix from 22 to 32 after it, which may
      have a plus and zeros in front. */
  ghost predicate Names(s: string, subnet: Subnet) {
    exists addr: nat ::
      && IsU32(addr)
      && (NamesAlone(s, subnet, addr) || exists p, n: nat :: NamesWith(s, subnet, addr, p, n))
  }

  predicate NamesAlone(s: string, subnet: Subnet, addr: nat) {
    s == ShowAddress(addr) && subnet == NetworkOf(addr, 32)
  }

  ghost predicate NamesWith(s: string, subnet: Subnet, addr: nat, p: string, n: nat) {
    s == ShowAddress(addr) + "/" + p && Spells(p, n) && MAX_SCAN_PREFIX <= n <= 32 && subnet == NetworkOf(addr, n)
  }

  lemma OctetsInRange(s: string)
    requires ParseOctets(s, 4).Some?
    ensures IsU32(ParseOctets(s, 4).value) && s == ShowAddress(ParseOctets(s, 4).value)
  {
    Power256Four();
    OctetsAre(s, 4);
  }

  lemma AcceptedIsNamed(text: string, subnet: Subnet)
    requires ParseRange(text) == Ok(subnet)
    ensures Names(Trim(text), subnet)
  {
    hide ShowAddress, ParseOctets, Integer, Spells, Trim, NetworkOf, SplitOnce;
    var s := Trim(text);
    var parts := SplitOnce(s, '/');
    if parts.Some? {
      SplitIs(s, '/');
      var addr, n := ParseOctets(parts.value.0, 4).value, ParseU8(parts.value.1).value;
      OctetsInRange(parts.value.0);
      IntegerSpelled(parts.value.1, n);
      assert NamesWith(s, subnet, addr, parts.value.1, n);
    } else {
      var addr := ParseOctets(s, 4).value;
      OctetsInRange(s);
      assert NamesAlone(s, subnet, addr);
    }
  }

  lemma NamedIsAccepted(text: string, subnet: Subnet)
    requires Names(Trim(text), subnet)
    ensures ParseRange(text) == Ok(subnet)
  {
    hide ShowAddress, ParseOctets, Integer, Spells, Trim, NetworkOf, SplitOnce;
    var s := Trim(text);
    var addr: nat :|
      && IsU32(addr)
      && (NamesAlone(s, subnet, addr) || exists p, n: nat :: NamesWith(s, subnet, addr, p, n));
    AddressRead(addr);
    NoSlash(ShowAddress(addr));
    if NamesAlone(s, subnet, addr) {
      SplitNowhere(s, '/');
    } else {
      var p, n: nat :| NamesWith(s, subnet, addr, p, n);
      SplitFirst(ShowAddress(addr), '/', p);
      IntegerSpelled(p, n);
    }
  }

  /** For every text: it is accepted, as a given range, if and only if without the white space around it
      it names that range. Every other text is refused. */
  lemma AcceptedExactly(text: string, subnet: Subnet)
    ensures ParseRange(text) == Ok(subnet) <==> Names(Trim(text), subnet)
  {
    hide ParseRange, Names;
    if ParseRange(text) == Ok(subnet) {
      AcceptedIsNamed(text, subnet);
    }
    if Names(Trim(text), subnet) {
      NamedIsAccepted(text, subnet);
    }
  }
}
