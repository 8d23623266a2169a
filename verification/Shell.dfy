/** Quoting argument lists for `sh -c` (src/executor.rs), against the shell's own rules: quoting as in
    POSIX.1-2017 XCU section 2.2, splitting into words as in section 2.3. */
module Shell {
  import opened Wrappers

  // ----- Quoting -----

  predicate AsciiAlphanumeric(c: char) {
    'a' <= c <= 'z' || 'A' <= c <= 'Z' || '0' <= c <= '9'
  }

  predicate Safe(c: char) {
    || AsciiAlphanumeric(c)
    || c == '@' || c == '%' || c == '+' || c == '=' || c == ':' || c == ','
    || c == '.' || c == '/' || c == '-' || c == '_'
  }

  /** A single quote leaves the quotes, quotes itself, and enters them again. */
  function EscapeQuotes(s: string): string {
    if s == "" then ""
    else (if s[0] == '\'' then "'\"'\"'" else [s[0]]) + EscapeQuotes(s[1..])
  }

  function ShellQuote(s: string): string {
    if s != "" && forall k :: 0 <= k < |s| ==> Safe(s[k]) then s
    else "'" + EscapeQuotes(s) + "'"
  }

  function ShellJoin(argv: seq<string>): string {
    if argv == [] then ""
    else if |argv| == 1 then ShellQuote(argv[0])
    else ShellQuote(argv[0]) + " " + ShellJoin(argv[1..])
  }

  /** The script that runs `command`, from `cwd` when one is given. */
  function BuildScript(command: string, cwd: Option<string>): string {
    if cwd.Some? && cwd.value != "" then "cd -- " + ShellQuote(cwd.value) + " && " + command
    else command
  }

  // ----- The shell's reading -----

  datatype Mode = Plain | Single | Double

  /** A lexer between two characters: the words so far, the one being read if any, and the quotes. */
  datatype Lexer = Lexer(words: seq<string>, word: Option<string>, mode: Mode)

  predicate Blank(c: char) {
    c == ' ' || c == '\t'
  }

  /** Unquoted characters with a meaning of their own: operators, expansions, patterns, comments, the
      backslash, and the end of the line. */
  predicate Special(c: char) {
    || c == '|' || c == '&' || c == ';' || c == '<' || c == '>' || c == '('
    || c == ')' || c == '$' || c == '`' || c == '\\' || c == '*' || c == '?'
    || c == '[' || c == ']' || c == '#' || c == '~' || c == '{' || c == '}'
    || c == '!' || c == '\n'
  }

  /** One more character. Nothing when it means more than itself: an expansion, an operator. */
  function Read(l: Lexer, c: char): Option<Lexer> {
    var text := if l.word.Some? then l.word.value else "";
    match l.mode
    case Plain =>
      if Blank(c) then Some(if l.word.Some? then Lexer(l.words + [text], None, Plain) else l)
      else if c == '\'' then Some(Lexer(l.words, Some(text), Single))
      else if c == '"' then Some(Lexer(l.words, Some(text), Double))
      else if Special(c) then None
      else Some(Lexer(l.words, Some(text + [c]), Plain))
    case Single =>
      if c == '\'' then Some(l.(mode := Plain)) else Some(l.(word := Some(text + [c])))
    case Double =>
      if c == '"' then Some(l.(mode := Plain))
      else if c == '$' || c == '`' || c == '\\' then None
      else Some(l.(word := Some(text + [c])))
  }

  function ReadAll(l: Lexer, s: string): Option<Lexer>
    decreases |s|
  {
    if s == "" then Some(l)
    else
      var next := Read(l, s[0]);
      if next.None? then None else ReadAll(next.value, s[1..])
  }

  /** The words of a line made only of words: nothing if it has anything else, or an open quote. */
  function Words(s: string): Option<seq<string>> {
    var end := ReadAll(Lexer([], None, Plain), s);
    if end.None? || end.value.mode != Plain then None
    else Some(if end.value.word.Some? then end.value.words + [end.value.word.value] else end.value.words)
  }

  // ----- The shell reads back what was quoted -----

  lemma {:induction false} ReadAllAppend(l: Lexer, s: string, t: string)
    ensures ReadAll(l, s + t)
         == if ReadAll(l, s).None? then None else ReadAll(ReadAll(l, s).value, t)
    decreases |s|
  {
    if s == "" {
      assert s + t == t;
    } else {
      assert (s + t)[0] == s[0] && (s + t)[1..] == s[1..] + t;
      var next := Read(l, s[0]);
      if next.Some? {
        ReadAllAppend(next.value, s[1..], t);
      }
    }
  }

  lemma SafeReads(c: char)
    requires Safe(c)
    ensures !Blank(c) && !Special(c) && c != '\'' && c != '"'
  {}

  /** Safe characters, unquoted, are themselves. */
  lemma {:induction false} ReadSafe(words: seq<string>, text: string, s: string)
    requires forall k :: 0 <= k < |s| ==> Safe(s[k])
    ensures ReadAll(Lexer(words, Some(text), Plain), s) == Some(Lexer(words, Some(text + s), Plain))
    decreases |s|
  {
    if s == "" {
      assert text + s == text;
    } else {
      SafeReads(s[0]);
      ReadSafe(words, text + [s[0]], s[1..]);
      assert text + [s[0]] + s[1..] == text + s;
    }
  }

  /** Inside single quotes, escaped text is the text. */
  lemma {:induction false} ReadEscaped(words: seq<string>, text: string, s: string)
    ensures ReadAll(Lexer(words, Some(text), Single), EscapeQuotes(s)) == Some(Lexer(words, Some(text + s), Single))
    decreases |s|
  {
    if s == "" {
      assert text + s == text;
    } else {
      var first := if s[0] == '\'' then "'\"'\"'" else [s[0]];
      var l := Lexer(words, Some(text), Single);
      var next := Lexer(words, Some(text + [s[0]]), Single);
      assert ReadAll(l, first) == Some(next) by {
        if s[0] == '\'' {
          ReadQuotedQuote(words, text);
        } else {
          assert [s[0]][1..] == "";
        }
      }
      ReadAllAppend(l, first, EscapeQuotes(s[1..]));
      ReadEscaped(words, text + [s[0]], s[1..]);
      assert text + [s[0]] + s[1..] == text + s;
    }
  }

  lemma ReadQuotedQuote(words: seq<string>, text: string)
    ensures ReadAll(Lexer(words, Some(text), Single), "'\"'\"'") == Some(Lexer(words, Some(text + "'"), Single))
  {}

  /** A quoted word is read as that word, and the lexer is left unquoted after it. */
  lemma ReadQuoted(words: seq<string>, s: string)
    ensures ReadAll(Lexer(words, None, Plain), ShellQuote(s)) == Some(Lexer(words, Some(s), Plain))
  {
    var start := Lexer(words, None, Plain);
    if s != "" && forall k :: 0 <= k < |s| ==> Safe(s[k]) {
      SafeReads(s[0]);
      assert "" + [s[0]] == [s[0]];
      ReadSafe(words, [s[0]], s[1..]);
      assert [s[0]] + s[1..] == s;
    } else {
      var body := EscapeQuotes(s);
      assert ShellQuote(s) == "'" + (body + "'");
      ReadAllAppend(start, "'", body + "'");
      assert "'"[1..] == "";
      assert ReadAll(start, "'") == Some(Lexer(words, Some(""), Single));
      ReadAllAppend(Lexer(words, Some(""), Single), body, "'");
      ReadEscaped(words, "", s);
      assert "" + s == s;
      assert ReadAll(Lexer(words, Some(s), Single), "'") == Some(Lexer(words, Some(s), Plain));
    }
  }

  lemma {:induction false} ReadJoined(words: seq<string>, argv: seq<string>)
    requires argv != []
    ensures ReadAll(Lexer(words, None, Plain), ShellJoin(argv))
         == Some(Lexer(words + argv[..|argv| - 1], Some(argv[|argv| - 1]), Plain))
    decreases |argv|
  {
    hide ShellQuote, Read;
    var start := Lexer(words, None, Plain);
    ReadQuoted(words, argv[0]);
    if |argv| == 1 {
      assert words + argv[..0] == words;
    } else {
      var rest := ShellJoin(argv[1..]);
      assert ShellJoin(argv) == ShellQuote(argv[0]) + (" " + rest);
      ReadAllAppend(start, ShellQuote(argv[0]), " " + rest);
      ReadBlank(words, argv[0], rest);
      ReadJoined(words + [argv[0]], argv[1..]);
      assert words + [argv[0]] + argv[1..][..|argv| - 2] == words + argv[..|argv| - 1];
    }
  }

  lemma ReadBlank(words: seq<string>, text: string, rest: string)
    ensures ReadAll(Lexer(words, Some(text), Plain), " " + rest) == ReadAll(Lexer(words + [text], None, Plain), rest)
  {}

  /** For every list of arguments, empty ones and any mix of quotes included, the shell reads the joined
      line as exactly those words, with nothing expanded and no operator. */
  lemma ShellRoundTrip(argv: seq<string>)
    ensures Words(ShellJoin(argv)) == Some(argv)
  {
    hide ShellQuote, Read;
    if argv != [] {
      ReadJoined([], argv);
      hide ShellJoin;
      assert [] + argv[..|argv| - 1] == argv[..|argv| - 1];
      assert argv[..|argv| - 1] + [argv[|argv| - 1]] == argv;
    }
  }

  /** So different argument lists are different lines. */
  lemma ShellJoinInjective(a: seq<string>, b: seq<string>)
    requires ShellJoin(a) == ShellJoin(b)
    ensures a == b
  {
    ShellRoundTrip(a);
    ShellRoundTrip(b);
  }

  /** A directory, whatever its name, is one argument of the `cd` in front of the command. */
  lemma ScriptChangesDirectory(command: string, cwd: string)
    requires cwd != ""
    ensures exists prefix: string ::
              BuildScript(command, Some(cwd)) == prefix + " && " + command && Words(prefix) == Some(["cd", "--", cwd])
  {
    var prefix := ShellJoin(["cd", "--", cwd]);
    ShellRoundTrip(["cd", "--", cwd]);
    assert ["cd", "--", cwd][1..] == ["--", cwd] && ["--", cwd][1..] == [cwd];
    assert ShellJoin(["--", cwd]) == "--" + " " + ShellQuote(cwd);
    assert prefix == "cd" + " " + ("--" + " " + ShellQuote(cwd)) == "cd -- " + ShellQuote(cwd);
  }

  /** Without a directory, or with an empty one, the script is the command: a joined list of arguments is
      read as exactly those. */
  lemma ScriptRunsCommand(argv: seq<string>)
    ensures Words(BuildScript(ShellJoin(argv), None)) == Some(argv)
    ensures Words(BuildScript(ShellJoin(argv), Some(""))) == Some(argv)
  {
    hide Words, ShellJoin;
    ShellRoundTrip(argv);
  }
}
