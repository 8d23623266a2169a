/** The wifi list from nmcli's text (src/parse.rs): lines, fields, and what each field says. */
module WifiText {
  import opened Wrappers
  import opened Text
  import opened Terse
  import opened Wifi

  /** The first of the words that white space separates. */
  function FirstWord(s: string): string {
    WordAt(TrimStart(s))
  }

  function WordAt(s: string): string {
    if s == "" || White(s[0]) then "" else [s[0]] + WordAt(s[1..])
  }

  /** Nothing, and nmcli's dashes, are no text. */
  function NonEmpty(s: string): Option<string> {
    var t := Trim(s);
    if t != "" && t != "--" then Some(t) else None
  }

  /** What a row of at least four fields says of a network. */
  function NetworkFrom(fields: seq<string>): Network
    requires |fields| >= 4
  {
    var security := NonEmpty(fields[2]);
    Network(
      Trim(fields[0]), ParseI64(Trim(fields[1])),
      if security.Some? then security.value else "open",
      ParseI64(FirstWord(fields[3])))
  }

  /** The network on a line, if the line is not blank and has four fields. */
  function NetworkOn(line: string): seq<Network> {
    if Trim(line) != "" && |Split(line)| >= 4 then [NetworkFrom(Split(line))] else []
  }

  function NetworksIn(lines: seq<string>): seq<Network> {
    if lines == [] then [] else NetworkOn(lines[0]) + NetworksIn(lines[1..])
  }

  /** `nmcli_wifi_list`, from the text on. */
  method NmcliWifiList(out: string) returns (list: seq<Network>)
    ensures StrongestFirst(NetworksIn(Lines(out)), list)
  {
    hide StrongestFirst, Lines, NetworksIn, NetworkOn, Split, Trim, NetworkFrom;
    var lines := Lines(out);
    var rows: seq<Network> := [];
    assert lines[0..] == lines;
    for i := 0 to |lines|
      invariant rows + NetworksIn(lines[i..]) == NetworksIn(lines)
    {
      NextNetwork(rows, lines, i);
      NetworkOnIs(lines[i]);
      if Trim(lines[i]) == "" {
        continue;
      }
      var fields := SplitTerse(lines[i]);
      if |fields| >= 4 {
        rows := rows + [NetworkFrom(fields)];
      }
    }
    NoNetworks(rows, lines);
    list := WifiList(rows);
  }

  lemma NetworkOnIs(line: string)
    ensures NetworkOn(line) == if Trim(line) != "" && |Split(line)| >= 4 then [NetworkFrom(Split(line))] else []
  {}

  lemma NextNetwork(rows: seq<Network>, lines: seq<string>, i: nat)
    requires i < |lines|
    ensures rows + NetworksIn(lines[i..]) == (rows + NetworkOn(lines[i])) + NetworksIn(lines[i + 1..])
    ensures rows + [] == rows
  {
    hide NetworkOn;
    assert lines[i..][0] == lines[i] && lines[i..][1..] == lines[i + 1..];
  }

  lemma NoNetworks(rows: seq<Network>, lines: seq<string>)
    ensures rows + NetworksIn(lines[|lines|..]) == rows
  {}

  // ----- What nmcli prints is read for what it is -----

  /** An access point, and what is known of it. */
  datatype AccessPoint = AccessPoint(ssid: string, signal: Option<int>, security: string, freq: Option<int>)

  predicate Readable(n: Option<int>) {
    n.Some? ==> -0x8000_0000_0000_0000 <= n.value <= 0x7FFF_FFFF_FFFF_FFFF
  }

  predicate Printable(a: AccessPoint) {
    OneLine(a.ssid) && OneLine(a.security) && Readable(a.signal) && Readable(a.freq)
  }

  /** nmcli's row for it; what is not known is left out. */
  function RowOf(a: AccessPoint): (fields: seq<string>)
    ensures |fields| == 4
  {
    [a.ssid, if a.signal.Some? then ShowInt(a.signal.value) else "", a.security,
     if a.freq.Some? then ShowInt(a.freq.value) + " MHz" else ""]
  }

  /** What the list should say of it. */
  function NetworkOf(a: AccessPoint): Network {
    var security := Trim(a.security);
    Network(Trim(a.ssid), a.signal, if security == "" || security == "--" then "open" else security, a.freq)
  }

  function RowsOf(points: seq<AccessPoint>): (rows: seq<seq<string>>)
    ensures |rows| == |points| && forall i :: 0 <= i < |points| ==> rows[i] == RowOf(points[i])
  {
    if points == [] then [] else [RowOf(points[0])] + RowsOf(points[1..])
  }

  function NetworksOf(points: seq<AccessPoint>): (networks: seq<Network>)
    ensures |networks| == |points| && forall i :: 0 <= i < |points| ==> networks[i] == NetworkOf(points[i])
  {
    if points == [] then [] else [NetworkOf(points[0])] + NetworksOf(points[1..])
  }

  lemma SignalRead(n: Option<int>)
    requires Readable(n)
    ensures ParseI64(Trim(if n.Some? then ShowInt(n.value) else "")) == n
  {
    hide ShowInt, Integer, Trim;
    TrimTight("");
    NoInteger();
    if n.Some? {
      ShowIntTight(n.value);
      TrimTight(ShowInt(n.value));
      SignedRead(n.value);
    }
  }

  lemma NoInteger()
    ensures Integer("", true) == None
  {}

  lemma {:induction false} WordOf(word: string, after: string)
    requires (forall k :: 0 <= k < |word| ==> !White(word[k])) && (after == "" || White(after[0]))
    ensures WordAt(word + after) == word
    decreases |word|
  {
    if word == "" {
      assert word + after == after;
    } else {
      assert (word + after)[0] == word[0] && (word + after)[1..] == word[1..] + after;
      WordOf(word[1..], after);
    }
  }

  lemma FreqRead(n: Option<int>)
    requires Readable(n)
    ensures ParseI64(FirstWord(if n.Some? then ShowInt(n.value) + " MHz" else "")) == n
  {
    hide Integer;
    NoInteger();
    if n.Some? {
      var word := ShowInt(n.value);
      ShowIntTight(n.value);
      WordOf(word, " MHz");
      assert (word + " MHz")[0] == word[0];
      hide ShowInt, WordAt;
      assert TrimStart(word + " MHz") == word + " MHz";
      SignedRead(n.value);
    }
  }

  lemma RowRead(a: AccessPoint)
    requires Printable(a)
    ensures NetworkFrom(RowOf(a)) == NetworkOf(a)
  {
    hide ParseI64, Trim, FirstWord, ShowInt;
    SignalRead(a.signal);
    FreqRead(a.freq);
  }

  lemma WordOneLine(s: string)
    requires forall k :: 0 <= k < |s| ==> !White(s[k])
    ensures OneLine(s) && OneLine(s + " MHz") && OneLine("")
  {}

  lemma RowIsRow(a: AccessPoint)
    requires Printable(a)
    ensures Row(RowOf(a)) && !EndsInReturn(RowOf(a)[3]) && ChopRow(RowOf(a)) == RowOf(a)
  {
    hide ShowInt;
    if a.signal.Some? {
      ShowIntTight(a.signal.value);
      WordOneLine(ShowInt(a.signal.value));
    }
    if a.freq.Some? {
      ShowIntTight(a.freq.value);
      WordOneLine(ShowInt(a.freq.value));
      var last := RowOf(a)[3];
      assert last[|last| - 1] == 'z';
    }
    ChopRowIs(RowOf(a));
  }

  lemma {:induction false} NotBlank(s: string, k: nat)
    requires k < |s| && !White(s[k])
    ensures Trim(s) != ""
  {
    hide White;
    var j := StartStays(s, k);
    EndStays(TrimStart(s), j);
  }

  lemma {:induction false} StartStays(s: string, k: nat) returns (j: nat)
    requires k < |s| && !White(s[k])
    ensures j < |TrimStart(s)| && !White(TrimStart(s)[j])
    decreases |s|
  {
    hide White;
    if White(s[0]) {
      j := StartStays(s[1..], k - 1);
    } else {
      j := k;
    }
  }

  lemma {:induction false} EndStays(s: string, k: nat)
    requires k < |s| && !White(s[k])
    ensures TrimEnd(s) != ""
    decreases |s|
  {
    if White(s[|s| - 1]) {
      EndStays(s[..|s| - 1], k);
    }
  }

  /** A line of more than one field has a colon in it, so it is not blank. */
  lemma LineNotBlank(fields: seq<string>)
    requires |fields| > 1
    ensures Trim(Join(fields)) != ""
  {
    var k := |Escape(fields[0])|;
    assert Join(fields)[k] == ':';
    NotBlank(Join(fields), k);
  }

  lemma RowsAreTable(points: seq<AccessPoint>)
    requires forall i :: 0 <= i < |points| ==> Printable(points[i])
    ensures Table(RowsOf(points))
  {
    forall i | 0 <= i < |points|
      ensures Row(RowsOf(points)[i])
    {
      RowIsRow(points[i]);
    }
  }

  /** Whatever the networks are called, colons, backslashes and white space included, the list that
      nmcli prints is read as the networks it was printed for. */
  lemma {:induction false} WifiTableRead(points: seq<AccessPoint>)
    requires forall i :: 0 <= i < |points| ==> Printable(points[i])
    ensures Table(RowsOf(points))
    ensures NetworksIn(Lines(Render(RowsOf(points)))) == NetworksOf(points)
    decreases |points|
  {
    RowsAreTable(points);
    hide Split, Join, Trim, RowOf, NetworkFrom, NetworkOf, Printable, ChopRow, Chop, Row;
    if points != [] {
      var row, rest := RowOf(points[0]), RowsOf(points[1..]);
      assert RowsOf(points)[0] == row && RowsOf(points)[1..] == rest;
      WifiTableRead(points[1..]);
      RowIsRow(points[0]);
      JoinOneLine(row);
      JoinEnds(row);
      FirstLine(Join(row), Render(rest));
      TerseRoundTrip(row);
      LineNotBlank(row);
      RowRead(points[0]);
      assert ([Join(row)] + Lines(Render(rest)))[1..] == Lines(Render(rest));
    }
  }

  /** The list has the name, with a signal at least that of the access point. */
  ghost predicate ListsPoint(list: seq<Network>, a: AccessPoint) {
    exists k ::
      && 0 <= k < |list| && list[k].ssid == Trim(a.ssid)
      && (a.signal.Some? ==> list[k].signal.Some? && a.signal.value <= list[k].signal.value)
  }

  lemma RowListed(rows: seq<Network>, list: seq<Network>, i: nat, a: AccessPoint)
    requires StrongestFirst(rows, list) && i < |rows| && rows[i] == NetworkOf(a) && RealName(Trim(a.ssid))
    ensures ListsPoint(list, a)
  {
    hide StandsBefore, RealName, Trim;
    assert ListsName(list, rows[i].ssid);
    var k :| 0 <= k < |list| && list[k].ssid == rows[i].ssid;
    assert NoBetter(rows[i].signal, list[k].signal);
  }

  lemma ListedIsRow(rows: seq<Network>, list: seq<Network>, k: nat) returns (i: nat)
    requires StrongestFirst(rows, list) && k < |list|
    ensures i < |rows| && rows[i] == list[k]
  {
    hide StandsBefore, RealName;
    assert FirstOfBest(rows, list[k]);
    i :| i < |rows| && rows[i] == list[k];
  }

  lemma HigherFirst(rows: seq<Network>, list: seq<Network>, k: nat, l: nat)
    requires StrongestFirst(rows, list) && k < l < |list| && list[l].signal.Some?
    ensures list[k].signal.Some? && list[k].signal.value >= list[l].signal.value
  {
    hide FirstOfBest, RealName, ListsName;
    assert StandsBefore(rows, list[k], list[l]);
  }

  /** So of what nmcli prints for any access points the list has, in numbers: every name, with the highest
      signal any access point of that name has, higher ones first. */
  lemma PrintedListed(points: seq<AccessPoint>, list: seq<Network>)
    requires forall i :: 0 <= i < |points| ==> Printable(points[i])
    requires Table(RowsOf(points)) && StrongestFirst(NetworksIn(Lines(Render(RowsOf(points)))), list)
    ensures forall i :: 0 <= i < |points| && RealName(Trim(points[i].ssid)) ==> ListsPoint(list, points[i])
    ensures forall k :: 0 <= k < |list| ==> exists i :: 0 <= i < |points| && list[k] == NetworkOf(points[i])
    ensures forall k, l :: 0 <= k < l < |list| && list[l].signal.Some? ==>
              list[k].signal.Some? && list[k].signal.value >= list[l].signal.value
  {
    hide Lines, Render, NetworksIn, Trim, Printable, StrongestFirst, ListsPoint, RealName, NetworkOf;
    WifiTableRead(points);
    var rows := NetworksOf(points);
    forall i | 0 <= i < |points| && RealName(Trim(points[i].ssid))
      ensures ListsPoint(list, points[i])
    {
      RowListed(rows, list, i, points[i]);
    }
    forall k | 0 <= k < |list|
      ensures exists i :: 0 <= i < |points| && list[k] == NetworkOf(points[i])
    {
      var i := ListedIsRow(rows, list, k);
      assert list[k] == NetworkOf(points[i]);
    }
    forall k, l | 0 <= k < l < |list| && list[l].signal.Some?
      ensures list[k].signal.Some? && list[k].signal.value >= list[l].signal.value
    {
      HigherFirst(rows, list, k, l);
    }
  }
}
