/** nmcli's terse output (src/parse.rs) and what `net_apply` reads from it (src/netapply.rs): fields
    separated by colons, a colon or backslash in a value escaped by a backslash. */
module Terse {
  import opened Wrappers

  // ----- Splitting a line -----

  /** `c` put in front of the first field. */
  function PushFront(c: char, fields: seq<string>): (r: seq<string>)
    requires fields != []
    ensures |r| == |fields|
  {
    [[c] + fields[0]] + fields[1..]
  }

  /** The fields of a line. A backslash at the very end stands for nothing. */
  function Split(line: string): (r: seq<string>)
    ensures r != []
    decreases |line|
  {
    if line == "" then [""]
    else if line[0] == '\\' then
      if |line| == 1 then [""] else PushFront(line[1], Split(line[2..]))
    else if line[0] == ':' then [""] + Split(line[1..])
    else PushFront(line[0], Split(line[1..]))
  }

  /** `more` continues where `fields` stops, in the middle of its last field. */
  function Glue(fields: seq<string>, more: seq<string>): seq<string>
    requires fields != [] && more != []
  {
    fields[..|fields| - 1] + [fields[|fields| - 1] + more[0]] + more[1..]
  }

  function PushLast(fields: seq<string>, c: char): (r: seq<string>)
    requires fields != []
    ensures |r| == |fields|
  {
    fields[|fields| - 1 := fields[|fields| - 1] + [c]]
  }

  lemma GlueStep(fields: seq<string>, c: char, more: seq<string>)
    requires fields != [] && more != []
    ensures Glue(PushLast(fields, c), more) == Glue(fields, PushFront(c, more))
    ensures Glue(fields + [""], more) == Glue(fields, [""] + more)
  {
    var f := fields[|fields| - 1];
    assert f + [c] + more[0] == f + ([c] + more[0]);
    assert "" + more[0] == more[0] && f + "" == f;
    assert (fields + [""])[..|fields|] == fields;
    assert fields[..|fields| - 1] + [f] == fields;
  }

  method SplitTerse(line: string) returns (fields: seq<string>)
    ensures fields == Split(line)
  {
    hide Glue, PushFront;
    fields := [""];
    var i := 0;
    GlueNothing(Split(line));
    assert line[0..] == line;
    while i < |line|
      invariant i <= |line| && fields != []
      invariant Glue(fields, Split(line[i..])) == Split(line)
    {
      var c := line[i];
      var rest := line[i..];
      assert rest[1..] == line[i + 1..];
      if c == '\\' {
        if i + 1 < |line| {
          assert rest[2..] == line[i + 2..] && rest[1] == line[i + 1];
          GlueStep(fields, line[i + 1], Split(line[i + 2..]));
          fields := PushLast(fields, line[i + 1]);
          i := i + 2;
        } else {
          assert line[i + 1..] == "";
          i := i + 1;
        }
      } else if c == ':' {
        GlueStep(fields, c, Split(line[i + 1..]));
        fields := fields + [""];
        i := i + 1;
      } else {
        GlueStep(fields, c, Split(line[i + 1..]));
        fields := PushLast(fields, c);
        i := i + 1;
      }
    }
    GlueEnd(fields);
  }

  lemma GlueNothing(more: seq<string>)
    requires more != []
    ensures Glue([""], more) == more
  {
    assert "" + more[0] == more[0];
  }

  lemma GlueEnd(fields: seq<string>)
    requires fields != []
    ensures Glue(fields, [""]) == fields
  {
    assert fields[|fields| - 1] + "" == fields[|fields| - 1];
  }

  // ----- Splitting undoes joining -----

  function Escape(s: string): string {
    if s == "" then ""
    else (if s[0] == ':' || s[0] == '\\' then ['\\', s[0]] else [s[0]]) + Escape(s[1..])
  }

  function Join(fields: seq<string>): string
    requires fields != []
  {
    if |fields| == 1 then Escape(fields[0]) else Escape(fields[0]) + ":" + Join(fields[1..])
  }

  /** An escaped value is read whole into the field it starts. */
  lemma {:induction false} SplitEscaped(s: string, rest: string)
    ensures Split(Escape(s) + rest) == [s + Split(rest)[0]] + Split(rest)[1..]
    decreases |s|
  {
    hide PushFront;
    if s == "" {
      assert "" + rest == rest && "" + Split(rest)[0] == Split(rest)[0];
    } else {
      hide Split, Escape;
      EscapeFirst(s, rest);
      SplitFirst(s[0], Escape(s[1..]) + rest);
      SplitEscaped(s[1..], rest);
      PushFrontIs(s, Split(rest));
    }
  }

  lemma EscapeFirst(s: string, rest: string)
    requires s != ""
    ensures Escape(s) + rest
         == (if s[0] == ':' || s[0] == '\\' then ['\\', s[0]] else [s[0]]) + (Escape(s[1..]) + rest)
  {}

  lemma PushFrontIs(s: string, tail: seq<string>)
    requires s != "" && tail != []
    ensures PushFront(s[0], [s[1..] + tail[0]] + tail[1..]) == [s + tail[0]] + tail[1..]
  {
    assert ([s[1..] + tail[0]] + tail[1..])[1..] == tail[1..];
    assert [s[0]] + (s[1..] + tail[0]) == s + tail[0];
  }

  lemma SplitFirst(c: char, after: string)
    ensures Split((if c == ':' || c == '\\' then ['\\', c] else [c]) + after) == PushFront(c, Split(after))
  {}

  /** For every list of fields but the empty one, whatever characters they hold. */
  lemma {:induction false} TerseRoundTrip(fields: seq<string>)
    requires fields != []
    ensures Split(Join(fields)) == fields
    decreases |fields|
  {
    if |fields| == 1 {
      SplitEscaped(fields[0], "");
      assert Escape(fields[0]) + "" == Escape(fields[0]);
      assert fields[0] + "" == fields[0];
    } else {
      var rest := ":" + Join(fields[1..]);
      assert Join(fields) == Escape(fields[0]) + rest;
      SplitEscaped(fields[0], rest);
      assert rest[1..] == Join(fields[1..]);
      TerseRoundTrip(fields[1..]);
      assert Split(rest) == [""] + fields[1..];
      assert fields[0] + "" == fields[0];
    }
  }

  lemma ColonRead(rest: string)
    ensures Split(":" + rest) == [""] + Split(rest)
  {
    assert (":" + rest)[1..] == rest;
  }

  lemma JoinStep(fields: seq<string>, rest: string)
    requires |fields| > 1
    ensures Join(fields) + rest == Escape(fields[0]) + (":" + (Join(fields[1..]) + rest))
  {
    assert Join(fields) == Escape(fields[0]) + ":" + Join(fields[1..]);
    hide Escape, Join;
    Regroup(Escape(fields[0]), ":", Join(fields[1..]), rest);
  }

  lemma Regroup(a: string, b: string, c: string, d: string)
    ensures a + b + c + d == a + (b + (c + d))
  {}

  lemma {:induction false} SplitJoined(fields: seq<string>, rest: string)
    requires fields != []
    ensures Split(Join(fields) + rest) == Glue(fields, Split(rest))
    decreases |fields|
  {
    hide Split, Escape;
    if |fields| == 1 {
      SplitEscaped(fields[0], rest);
    } else {
      hide Join, Glue;
      var more := Join(fields[1..]) + rest;
      JoinStep(fields, rest);
      SplitEscaped(fields[0], ":" + more);
      ColonRead(more);
      SplitJoined(fields[1..], rest);
      GlueRest(fields, Split(rest));
    }
  }

  lemma GlueRest(fields: seq<string>, more: seq<string>)
    requires |fields| > 1 && more != []
    ensures Glue(fields, more) == [fields[0] + ""] + Glue(fields[1..], more)
  {
    assert fields[0] + "" == fields[0];
    assert fields[1..][..|fields| - 2] == fields[1..|fields| - 1];
    assert fields[..|fields| - 1] == [fields[0]] + fields[1..|fields| - 1];
  }

  /** A backslash that ends the line stands for nothing, and before any other character, special or not,
      for that character. */
  lemma BackslashReads(fields: seq<string>, c: char)
    requires fields != []
    ensures Split(Join(fields) + "\\") == fields
    ensures Split(Join(fields) + ['\\', c]) == fields[|fields| - 1 := fields[|fields| - 1] + [c]]
  {
    hide Split, Join, Glue;
    SplitJoined(fields, "\\");
    SplitJoined(fields, ['\\', c]);
    BackslashAlone(c);
    GlueEnd(fields);
    GlueChar(fields, c);
  }

  lemma BackslashAlone(c: char)
    ensures Split("\\") == [""] && Split(['\\', c]) == [[c]]
  {
    assert ['\\', c][2..] == "" && [c] + "" == [c];
  }

  lemma GlueChar(fields: seq<string>, c: char)
    requires fields != []
    ensures Glue(fields, [[c]]) == fields[|fields| - 1 := fields[|fields| - 1] + [c]]
  {}

  // ----- Lines -----

  /** The end of a line: its newline, or the text's. */
  function LineEnd(s: string): (n: nat)
    ensures n <= |s|
    ensures forall k :: 0 <= k < n ==> s[k] != '\n'
    ensures n < |s| ==> s[n] == '\n'
  {
    if s == "" || s[0] == '\n' then 0 else 1 + LineEnd(s[1..])
  }

  /** The text's lines, without their newlines; a carriage return before a newline goes with it. */
  function Lines(s: string): seq<string>
    decreases |s|
  {
    if s == "" then []
    else
      var n := LineEnd(s);
      if n == |s| then [s]
      else
        var line := if n > 0 && s[n - 1] == '\r' then s[..n - 1] else s[..n];
        [line] + Lines(s[n + 1..])
  }

  predicate OneLine(s: string) {
    forall k :: 0 <= k < |s| ==> s[k] != '\n'
  }

  predicate Row(fields: seq<string>) {
    fields != [] && forall k :: 0 <= k < |fields| ==> OneLine(fields[k])
  }

  predicate Table(rows: seq<seq<string>>) {
    forall i :: 0 <= i < |rows| ==> Row(rows[i])
  }

  /** What nmcli prints for these rows. */
  function Render(rows: seq<seq<string>>): string
    requires Table(rows)
  {
    if rows == [] then "" else Join(rows[0]) + "\n" + Render(rows[1..])
  }

  predicate EndsInReturn(s: string) {
    s != "" && s[|s| - 1] == '\r'
  }

  /** A carriage return at the end of a line is taken for part of the line's end. */
  function Chop(line: string): string {
    if EndsInReturn(line) then line[..|line| - 1] else line
  }

  /** The row its line is read back as. */
  function ChopRow(fields: seq<string>): (r: seq<string>)
    requires fields != []
    ensures r != []
  {
    fields[..|fields| - 1] + [Chop(fields[|fields| - 1])]
  }

  lemma {:induction false} EscapeOneLine(s: string)
    requires OneLine(s)
    ensures OneLine(Escape(s))
  {
    if s != "" {
      EscapeOneLine(s[1..]);
    }
  }

  lemma {:induction false} JoinOneLine(fields: seq<string>)
    requires Row(fields)
    ensures OneLine(Join(fields))
    decreases |fields|
  {
    EscapeOneLine(fields[0]);
    if |fields| > 1 {
      JoinOneLine(fields[1..]);
    }
  }

  /** Escaping keeps the end of a value, and what is before a carriage return there. */
  lemma {:induction false} EscapeEnds(s: string)
    ensures EndsInReturn(Escape(s)) <==> EndsInReturn(s)
    ensures Chop(Escape(s)) == Escape(Chop(s))
    decreases |s|
  {
    if |s| > 1 {
      EscapeEnds(s[1..]);
      var first := if s[0] == ':' || s[0] == '\\' then ['\\', s[0]] else [s[0]];
      assert Escape(s[1..]) != "" && Escape(s) == first + Escape(s[1..]);
      ChopAfter(first, Escape(s[1..]));
      if EndsInReturn(s) {
        assert Chop(s)[1..] == Chop(s[1..]) && Chop(s)[0] == s[0];
      }
    } else if |s| == 1 {
      assert s[1..] == "" && Escape(s) == if s[0] == ':' || s[0] == '\\' then ['\\', s[0]] else [s[0]];
    }
  }

  lemma ChopAfter(before: string, line: string)
    requires line != ""
    ensures Chop(before + line) == before + Chop(line)
    ensures EndsInReturn(before + line) <==> EndsInReturn(line)
  {
    if EndsInReturn(line) {
      assert (before + line)[..|before + line| - 1] == before + line[..|line| - 1];
    }
  }

  lemma {:induction false} JoinEnds(fields: seq<string>)
    requires fields != []
    ensures Chop(Join(fields)) == Join(ChopRow(fields))
    decreases |fields|
  {
    if |fields| == 1 {
      EscapeEnds(fields[0]);
    } else {
      JoinEnds(fields[1..]);
      ChopRowRest(fields);
      hide ChopRow, Escape;
      ChopJoined(Escape(fields[0]), Join(fields[1..]));
    }
  }

  lemma ChopRowRest(fields: seq<string>)
    requires |fields| > 1
    ensures |ChopRow(fields)| == |fields| && ChopRow(fields)[0] == fields[0]
    ensures ChopRow(fields)[1..] == ChopRow(fields[1..])
  {}

  lemma ChopJoined(before: string, line: string)
    ensures Chop(before + ":" + line) == before + ":" + Chop(line)
  {
    assert before + ":" + line == (before + ":") + line;
    if line != "" {
      ChopAfter(before + ":", line);
    }
  }

  lemma FirstLine(line: string, rest: string)
    requires OneLine(line)
    ensures Lines(line + "\n" + rest) == [Chop(line)] + Lines(rest)
  {
    var s := line + "\n" + rest;
    var n := LineEnd(s);
    assert s[|line|] == '\n';
    assert forall k :: 0 <= k < |line| ==> s[k] == line[k] && s[k] != '\n';
    assert n == |line|;
    assert s[..n] == line && s[n + 1..] == rest;
    if n > 0 {
      assert s[n - 1] == line[n - 1] && s[..n - 1] == line[..n - 1];
    }
  }

  // ----- Looking rows up -----

  function SplitAll(lines: seq<string>): seq<seq<string>> {
    if lines == [] then [] else [Split(lines[0])] + SplitAll(lines[1..])
  }

  function ChopAll(rows: seq<seq<string>>): (r: seq<seq<string>>)
    requires Table(rows)
    ensures |r| == |rows| && forall i :: 0 <= i < |rows| ==> r[i] == ChopRow(rows[i])
  {
    if rows == [] then [] else [ChopRow(rows[0])] + ChopAll(rows[1..])
  }

  lemma {:induction false} TableRead(rows: seq<seq<string>>)
    requires Table(rows)
    ensures SplitAll(Lines(Render(rows))) == ChopAll(rows)
    decreases |rows|
  {
    hide Split, Join, ChopRow;
    if rows != [] {
      JoinOneLine(rows[0]);
      FirstLine(Join(rows[0]), Render(rows[1..]));
      JoinEnds(rows[0]);
      TerseRoundTrip(ChopRow(rows[0]));
      TableRead(rows[1..]);
      var line := Join(ChopRow(rows[0]));
      assert ([line] + Lines(Render(rows[1..])))[1..] == Lines(Render(rows[1..]));
    }
  }

  lemma LastLine(line: string)
    requires OneLine(line)
    ensures Lines(line) == if line == "" then [] else [line]
  {}

  /** A last line that is not ended is read too, and as it stands. */
  lemma {:induction false} UnendedTableRead(rows: seq<seq<string>>, last: seq<string>)
    requires Table(rows) && Row(last) && Join(last) != ""
    ensures SplitAll(Lines(Render(rows) + Join(last))) == ChopAll(rows) + [last]
    decreases |rows|
  {
    hide Split, Join, ChopRow;
    if rows == [] {
      JoinOneLine(last);
      assert "" + Join(last) == Join(last);
      LastLine(Join(last));
      TerseRoundTrip(last);
      assert [Join(last)][1..] == [];
    } else {
      JoinOneLine(rows[0]);
      var rest := Render(rows[1..]) + Join(last);
      assert Render(rows) + Join(last) == Join(rows[0]) + "\n" + rest;
      FirstLine(Join(rows[0]), rest);
      JoinEnds(rows[0]);
      TerseRoundTrip(ChopRow(rows[0]));
      UnendedTableRead(rows[1..], last);
      var line := Join(ChopRow(rows[0]));
      assert ([line] + Lines(rest))[1..] == Lines(rest);
    }
  }

  /** No line of the table ends in a carriage return. */
  predicate Clean(rows: seq<seq<string>>)
    requires Table(rows)
  {
    forall i :: 0 <= i < |rows| ==> !EndsInReturn(rows[i][|rows[i]| - 1])
  }

  lemma ChopRowIs(fields: seq<string>)
    requires fields != []
    ensures ChopRow(fields) == fields <==> !EndsInReturn(fields[|fields| - 1])
  {
    var last := fields[|fields| - 1];
    assert fields == fields[..|fields| - 1] + [last];
    if EndsInReturn(last) {
      assert ChopRow(fields)[|fields| - 1] == Chop(last) && |Chop(last)| < |last|;
    }
  }

  /** The rows of a printed table, whose values have no newlines, are read back as they were printed
      exactly if no line ends in a carriage return. */
  lemma TableRoundTrip(rows: seq<seq<string>>)
    requires Table(rows)
    ensures SplitAll(Lines(Render(rows))) == rows <==> Clean(rows)
  {
    hide ChopRow;
    TableRead(rows);
    forall i | 0 <= i < |rows|
      ensures ChopAll(rows)[i] == rows[i] <==> !EndsInReturn(rows[i][|rows[i]| - 1])
    {
      ChopRowIs(rows[i]);
    }
    assert Clean(rows) ==> ChopAll(rows) == rows;
  }

  /** The name in the first row of at least two fields that `matches`. */
  function FirstRow(rows: seq<seq<string>>, matches: seq<string> -> bool): Option<string> {
    if rows == [] then None
    else if |rows[0]| >= 2 && matches(rows[0]) then Some(rows[0][0])
    else FirstRow(rows[1..], matches)
  }

  function OnDevice(device: string): seq<string> -> bool {
    (row: seq<string>) => |row| >= 2 && row[1] == device
  }

  /** The profile active on `device`. */
  function ActiveConnectionOn(out: string, device: string): Option<string> {
    FirstRow(SplitAll(Lines(out)), OnDevice(device))
  }

  function ForLte(wanted: Option<string>): seq<string> -> bool {
    (row: seq<string>) => |row| >= 2 && if wanted.Some? then row[0] == wanted.value else row[1] == "gsm"
  }

  /** The profile `lte` changes: the one named, if it is there, or else the first gsm profile. */
  function LteConnection(out: string, wanted: Option<string>): Option<string> {
    FirstRow(SplitAll(Lines(out)), ForLte(wanted))
  }

  /** Row `i` is the first of at least two fields that `matches`. */
  ghost predicate FirstMatch(rows: seq<seq<string>>, i: nat, matches: seq<string> -> bool) {
    && i < |rows| && |rows[i]| >= 2 && matches(rows[i])
    && forall k :: 0 <= k < i ==> !(|rows[k]| >= 2 && matches(rows[k]))
  }

  lemma {:induction false} FirstRowIs(rows: seq<seq<string>>, matches: seq<string> -> bool)
    ensures match FirstRow(rows, matches)
            case Some(name) => exists i: nat :: FirstMatch(rows, i, matches) && rows[i][0] == name
            case None => forall k :: 0 <= k < |rows| ==> |rows[k]| < 2 || !matches(rows[k])
    decreases |rows|
  {
    if rows != [] {
      if |rows[0]| >= 2 && matches(rows[0]) {
        assert FirstMatch(rows, 0, matches);
      } else {
        FirstRowIs(rows[1..], matches);
        if FirstRow(rows, matches).Some? {
          var i: nat :| FirstMatch(rows[1..], i, matches) && rows[1..][i][0] == FirstRow(rows, matches).value;
          forall k | 0 <= k < i + 1
            ensures !(|rows[k]| >= 2 && matches(rows[k]))
          {
            if k > 0 {
              assert rows[k] == rows[1..][k - 1];
            }
          }
          assert FirstMatch(rows, i + 1, matches) && rows[i + 1][0] == FirstRow(rows, matches).value;
        }
      }
    }
  }

  /** A clean table is read as it is. */
  lemma CleanIsRead(rows: seq<seq<string>>)
    requires Table(rows) && Clean(rows)
    ensures ChopAll(rows) == rows
  {
    TableRead(rows);
    TableRoundTrip(rows);
  }

  /** On any table nmcli prints, whatever the names in it, the lookup finds the first row for the
      device, and nothing only when there is none; a carriage return at the end of a line is not part
      of its row. */
  lemma ActiveConnectionIsFirst(rows: seq<seq<string>>, device: string)
    requires Table(rows)
    ensures var read := ChopAll(rows);
            match ActiveConnectionOn(Render(rows), device)
            case Some(name) =>
              exists i: nat ::
                && i < |read| && |read[i]| >= 2 && read[i][1] == device && read[i][0] == name
                && forall k :: 0 <= k < i ==> |read[k]| < 2 || read[k][1] != device
            case None => forall k :: 0 <= k < |read| ==> |read[k]| < 2 || read[k][1] != device
    ensures Clean(rows) ==> ChopAll(rows) == rows
  {
    TableRead(rows);
    var read := ChopAll(rows);
    FirstRowIs(read, OnDevice(device));
    if i: nat :| FirstMatch(read, i, OnDevice(device)) && FirstRow(read, OnDevice(device)) == Some(read[i][0]) {
      forall k | 0 <= k < i
        ensures |read[k]| < 2 || read[k][1] != device
      {
        assert !(|read[k]| >= 2 && OnDevice(device)(read[k]));
      }
    }
    if Clean(rows) {
      CleanIsRead(rows);
    }
  }

  /** Likewise for the profile `lte` changes. A wanted name is found only as itself. */
  lemma LteConnectionIsFirst(rows: seq<seq<string>>, wanted: Option<string>)
    requires Table(rows)
    ensures var read := ChopAll(rows);
            match LteConnection(Render(rows), wanted)
            case Some(name) =>
              if wanted.Some? then
                name == wanted.value && exists i :: 0 <= i < |read| && |read[i]| >= 2 && read[i][0] == name
              else
                exists i: nat ::
                  && i < |read| && |read[i]| >= 2 && read[i][1] == "gsm" && read[i][0] == name
                  && forall k :: 0 <= k < i ==> |read[k]| < 2 || read[k][1] != "gsm"
            case None => forall k :: 0 <= k < |read| && |read[k]| >= 2 ==>
                           if wanted.Some? then read[k][0] != wanted.value else read[k][1] != "gsm"
    ensures Clean(rows) ==> ChopAll(rows) == rows
  {
    TableRead(rows);
    var read := ChopAll(rows);
    FirstRowIs(read, ForLte(wanted));
    if i: nat :| FirstMatch(read, i, ForLte(wanted)) && FirstRow(read, ForLte(wanted)) == Some(read[i][0]) {
      forall k | 0 <= k < i && wanted.None?
        ensures |read[k]| < 2 || read[k][1] != "gsm"
      {
        assert !(|read[k]| >= 2 && ForLte(wanted)(read[k]));
      }
    }
    if Clean(rows) {
      CleanIsRead(rows);
    }
  }
}
