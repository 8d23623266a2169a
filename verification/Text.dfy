/** Trimming and decimal numbers, as Rust's standard library does them for src/parse.rs. */
module Text {
  import opened Wrappers

  // ----- White space -----

  /** Unicode's White_Space. */
  predicate White(c: char) {
    var u := c as int;
    || 9 <= u <= 13 || u == 0x20 || u == 0x85 || u == 0xA0 || u == 0x1680
    || 0x2000 <= u <= 0x200A || u == 0x2028 || u == 0x2029 || u == 0x202F || u == 0x205F || u == 0x3000
  }

  predicate Blank(s: string) {
    forall k :: 0 <= k < |s| ==> White(s[k])
  }

  function TrimStart(s: string): string {
    if s != "" && White(s[0]) then TrimStart(s[1..]) else s
  }

  function TrimEnd(s: string): string {
    if s != "" && White(s[|s| - 1]) then TrimEnd(s[..|s| - 1]) else s
  }

  function Trim(s: string): string {
    TrimEnd(TrimStart(s))
  }

  /** Nothing to trim. */
  predicate Tight(s: string) {
    s == "" || (!White(s[0]) && !White(s[|s| - 1]))
  }

  lemma {:induction false} TrimStartIs(a: string, s: string)
    requires Blank(a) && (s == "" || !White(s[0]))
    ensures TrimStart(a + s) == s
    decreases |a|
  {
    if a == "" {
      assert a + s == s;
    } else {
      assert (a + s)[0] == a[0] && (a + s)[1..] == a[1..] + s;
      TrimStartIs(a[1..], s);
    }
  }

  lemma {:induction false} TrimEndIs(s: string, b: string)
    requires Blank(b) && (s == "" || !White(s[|s| - 1]))
    ensures TrimEnd(s + b) == s
    decreases |b|
  {
    if b == "" {
      assert s + b == s;
    } else {
      var t := s + b;
      assert t[|t| - 1] == b[|b| - 1] && t[..|t| - 1] == s + b[..|b| - 1];
      TrimEndIs(s, b[..|b| - 1]);
    }
  }

  /** Trimming takes off the white space around a text and no more. */
  lemma TrimIs(a: string, s: string, b: string)
    requires Blank(a) && Blank(b) && Tight(s)
    ensures Trim(a + s + b) == s
  {
    assert a + s + b == a + (s + b);
    if s == "" {
      assert Blank(a + b) && a + (s + b) == (a + b) + "";
      TrimStartIs(a + b, "");
      TrimEndIs("", "");
    } else {
      assert (s + b)[0] == s[0];
      TrimStartIs(a, s + b);
      TrimEndIs(s, b);
    }
  }

  lemma TrimTight(s: string)
    requires Tight(s)
    ensures Trim(s) == s
  {
    assert "" + s + "" == s;
    TrimIs("", s, "");
  }

  // ----- Decimal numbers -----

  predicate IsDigit(c: char) {
    '0' <= c <= '9'
  }

  predicate Digits(s: string) {
    forall k :: 0 <= k < |s| ==> IsDigit(s[k])
  }

  function DigitOf(d: nat): (c: char)
    requires d < 10
    ensures IsDigit(c) && c as int == '0' as int + d
  {
    '0' + d as char
  }

  function ValueOf(c: char): (d: nat)
    requires IsDigit(c)
    ensures d < 10
  {
    c as int - '0' as int
  }

  function Decimal(n: nat): (s: string)
    ensures s != "" && Digits(s)
  {
    if n < 10 then [DigitOf(n)] else Decimal(n / 10) + [DigitOf(n % 10)]
  }

  function Number(s: string): nat
    requires Digits(s)
  {
    if s == "" then 0 else 10 * Number(s[..|s| - 1]) + ValueOf(s[|s| - 1])
  }

  /** A number printed is read back, and has no zero in front unless it is zero. */
  lemma {:induction false} DecimalRead(n: nat)
    ensures Number(Decimal(n)) == n
    ensures Decimal(n)[0] == '0' <==> n == 0
    ensures n < 10 ==> |Decimal(n)| == 1
    ensures n < 100 ==> |Decimal(n)| <= 2
    ensures n < 1000 ==> |Decimal(n)| <= 3
    decreases n
  {
    if n >= 10 {
      DecimalRead(n / 10);
      var d := Decimal(n);
      assert d[..|d| - 1] == Decimal(n / 10) && d[0] == Decimal(n / 10)[0];
    } else {
      assert Decimal(n)[..0] == "";
    }
  }

  lemma DigitsTight(s: string)
    requires Digits(s)
    ensures Tight(s) && forall k :: 0 <= k < |s| ==> !White(s[k])
  {}

  /** Digits, a plus or minus in front if `signed`, only a plus if not; nothing else. */
  function Integer(s: string, signed: bool): Option<int> {
    var sign := s != "" && (s[0] == '+' || (signed && s[0] == '-'));
    var digits := if sign then s[1..] else s;
    if digits == "" || !Digits(digits) then None
    else
      var n: int := Number(digits);
      Some(if sign && s[0] == '-' then -n else n)
  }

  function Bounded(n: Option<int>, low: int, high: int): Option<int> {
    if n.Some? && low <= n.value <= high then n else None
  }

  /** `str::parse::<i64>`. */
  function ParseI64(s: string): Option<int> {
    Bounded(Integer(s, true), -0x8000_0000_0000_0000, 0x7FFF_FFFF_FFFF_FFFF)
  }

  /** `str::parse::<u8>`. */
  function ParseU8(s: string): Option<int> {
    Bounded(Integer(s, false), 0, 255)
  }

  lemma IntegerRead(n: nat, signed: bool)
    ensures Integer(Decimal(n), signed) == Some(n)
  {
    DecimalRead(n);
    assert IsDigit(Decimal(n)[0]);
  }

  /** A number printed with its sign. */
  function ShowInt(n: int): string {
    if n < 0 then "-" + Decimal(-n) else Decimal(n)
  }

  lemma ShowIntTight(n: int)
    ensures ShowInt(n) != "" && Tight(ShowInt(n)) && forall k :: 0 <= k < |ShowInt(n)| ==> !White(ShowInt(n)[k])
  {
    hide Decimal;
    DigitsTight(Decimal(if n < 0 then -n else n));
  }

  /** A signed type takes either sign, an unsigned one no minus. */
  lemma SignedRead(n: int)
    ensures Integer(ShowInt(n), true) == Some(n)
    ensures n < 0 ==> Integer(ShowInt(n), false) == None
  {
    if n < 0 {
      DecimalRead(-n);
      var s := "-" + Decimal(-n);
      assert s[1..] == Decimal(-n);
      assert !IsDigit(s[0]);
    } else {
      IntegerRead(n, true);
    }
  }

  function Zeros(n: nat): (s: string)
    ensures |s| == n && Digits(s)
  {
    if n == 0 then "" else Zeros(n - 1) + "0"
  }

  /** Zeros in front change nothing. */
  lemma {:induction false} NumberOfZeros(n: nat, s: string)
    requires Digits(s)
    ensures Digits(Zeros(n) + s) && Number(Zeros(n) + s) == Number(s)
    decreases n + |s|
  {
    if s != "" {
      var t := Zeros(n) + s;
      assert t[..|t| - 1] == Zeros(n) + s[..|s| - 1];
      NumberOfZeros(n, s[..|s| - 1]);
    } else if n > 0 {
      assert Zeros(n) + "" == Zeros(n) && Zeros(n)[..n - 1] == Zeros(n - 1) + "";
      NumberOfZeros(n - 1, "");
    } else {
      assert Zeros(0) + "" == "";
    }
  }

  /** One more digit behind a printed number with zeros in front. */
  lemma DigitBehind(zeros: nat, m: nat, last: char)
    requires IsDigit(last)
    ensures m > 0 ==> Decimal(10 * m + ValueOf(last)) == Decimal(m) + [last]
    ensures m == 0 ==> Zeros(zeros) + Decimal(m) == Zeros(zeros + 1) && Decimal(ValueOf(last)) == [last]
  {
    assert DigitOf(ValueOf(last)) == last;
  }

  /** Digits are a printed number with zeros in front. */
  lemma {:induction false} DigitsAre(s: string) returns (zeros: nat)
    requires Digits(s) && s != ""
    ensures s == Zeros(zeros) + Decimal(Number(s))
    decreases |s|
  {
    hide Zeros, Decimal;
    var before, last := s[..|s| - 1], s[|s| - 1];
    assert s == before + [last];
    var m := Number(before);
    assert Number(s) == 10 * m + ValueOf(last);
    if before == "" {
      zeros := 0;
      DigitBehind(0, 0, last);
      NoZeros();
      assert s == [last] == "" + [last];
    } else {
      zeros := DigitsAre(before);
      DigitBehind(zeros, m, last);
      hide Number;
      Regroup(Zeros(zeros), Decimal(m), [last]);
      if m == 0 {
        zeros := zeros + 1;
      }
    }
  }

  lemma NoZeros()
    ensures Zeros(0) == ""
  {}

  lemma Regroup(a: string, b: string, c: string)
    ensures (a + b) + c == a + (b + c)
  {}

  /** A number as `str::parse` takes it for an unsigned type. */
  ghost predicate Spells(s: string, n: nat) {
    exists zeros: nat :: s == Zeros(zeros) + Decimal(n) || s == "+" + (Zeros(zeros) + Decimal(n))
  }

  /** It takes a printed number, zeros in front of that, a plus in front of those, and nothing else. */
  lemma IntegerSpelled(s: string, n: nat)
    ensures Integer(s, false) == Some(n) <==> Spells(s, n)
  {
    hide Number, Decimal, Zeros;
    if Integer(s, false) == Some(n) {
      var digits := if s[0] == '+' then s[1..] else s;
      var zeros := DigitsAre(digits);
      assert s[0] == '+' ==> s == "+" + digits;
    }
    if Spells(s, n) {
      var zeros: nat :| s == Zeros(zeros) + Decimal(n) || s == "+" + (Zeros(zeros) + Decimal(n));
      var digits := Zeros(zeros) + Decimal(n);
      NumberOfZeros(zeros, Decimal(n));
      DecimalRead(n);
      assert IsDigit(digits[0]);
      assert s != digits ==> s[0] == '+' && s[1..] == digits;
    }
  }
}
