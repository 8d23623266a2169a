/** Reading NetworkManager's replies about checkpoints (src/netapply.rs): a substring search that must
    come to the same as membership in a list. */
module Checkpoints {
  import opened Wrappers

  const PREFIX: string := "/org/freedesktop/NetworkManager/Checkpoint/"

  predicate Digit(c: char) {
    '0' <= c <= '9'
  }

  predicate Id(s: string) {
    s != "" && forall k :: 0 <= k < |s| ==> Digit(s[k])
  }

  // ----- The reply to CheckpointCreate -----

  /** Where `pattern` first occurs. */
  function Find(s: string, pattern: string): Option<nat>
    decreases |s|
  {
    if pattern <= s then Some(0)
    else if s == "" then None
    else
      var n := Find(s[1..], pattern);
      if n.Some? then Some(n.value + 1) else None
  }

  function LeadingDigits(s: string): (n: nat)
    ensures n <= |s|
  {
    if s != "" && Digit(s[0]) then 1 + LeadingDigits(s[1..]) else 0
  }

  /** The new checkpoint's path: the prefix and the number after it, if that is all there is to it. */
  function ParseCheckpointPath(out: string): Option<string> {
    var start := Find(out, PREFIX);
    if start.None? || |out| < start.value + |PREFIX| then None
    else
      var rest := out[start.value + |PREFIX|..];
      var n := LeadingDigits(rest);
      if n > 0 && (n == |rest| || rest[n] == '"' || rest[n] == ' ' || rest[n] == '\n')
      then Some(PREFIX + rest[..n]) else None
  }

  lemma {:induction false} FindAfter(before: string, pattern: string, after: string)
    requires pattern != "" && forall k :: 0 <= k < |before| ==> before[k] != pattern[0]
    ensures Find(before + pattern + after, pattern) == Some(|before|)
    decreases |before|
  {
    var s := before + pattern + after;
    if before == "" {
      assert s == pattern + after;
    } else {
      assert s[0] == before[0] && s[1..] == before[1..] + pattern + after;
      FindAfter(before[1..], pattern, after);
    }
  }

  lemma {:induction false} AllDigits(id: string, after: string)
    requires (forall k :: 0 <= k < |id| ==> Digit(id[k])) && (after == "" || !Digit(after[0]))
    ensures LeadingDigits(id + after) == |id|
    decreases |id|
  {
    if id == "" {
      assert "" + after == after;
    } else {
      assert (id + after)[1..] == id[1..] + after;
      AllDigits(id[1..], after);
    }
  }

  /** Whatever is printed around it, as long as nothing before it has a slash and a quote, a blank or a
      newline follows, the path is found. */
  lemma CreateReplyRead(before: string, id: string, after: string)
    requires Id(id) && forall k :: 0 <= k < |before| ==> before[k] != '/'
    requires after == "" || after[0] == '"' || after[0] == ' ' || after[0] == '\n'
    ensures ParseCheckpointPath(before + PREFIX + (id + after)) == Some(PREFIX + id)
  {
    var out := before + PREFIX + (id + after);
    FindAfter(before, PREFIX, id + after);
    assert out[|before| + |PREFIX|..] == id + after;
    AllDigits(id, after);
    assert (id + after)[..|id|] == id;
  }

  predicate Occurs(s: string, pattern: string, i: nat) {
    i <= |s| && pattern <= s[i..]
  }

  ghost predicate Contains(s: string, pattern: string) {
    exists i: nat :: Occurs(s, pattern, i)
  }

  lemma {:induction false} FindIs(s: string, pattern: string)
    ensures match Find(s, pattern)
            case Some(n) => Occurs(s, pattern, n) && forall k: nat :: k < n ==> !Occurs(s, pattern, k)
            case None => !Contains(s, pattern)
    decreases |s|
  {
    assert s[0..] == s;
    if !(pattern <= s) && s != "" {
      FindIs(s[1..], pattern);
      forall k: nat | 0 < k <= |s|
        ensures Occurs(s, pattern, k) <==> Occurs(s[1..], pattern, k - 1)
      {
        assert s[1..][k - 1..] == s[k..];
      }
    }
  }

  lemma {:induction false} DigitsLead(s: string)
    ensures forall k :: 0 <= k < LeadingDigits(s) ==> Digit(s[k])
    ensures LeadingDigits(s) < |s| ==> !Digit(s[LeadingDigits(s)])
  {
    if s != "" && Digit(s[0]) {
      DigitsLead(s[1..]);
    }
  }

  /** The path that stands at `i`, where the prefix first does: it and digits, and then a quote, a blank, a
      newline or nothing. */
  ghost predicate StandsFirst(out: string, path: string, i: nat) {
    && Occurs(out, path, i) && (forall k: nat :: k < i ==> !Occurs(out, PREFIX, k))
    && PREFIX <= path && Id(path[|PREFIX|..])
    && (i + |path| == |out| || (i + |path| < |out| && out[i + |path|] in {'"', ' ', '\n'}))
  }

  /** For every reply: a path is read from it if and only if it stands there so. */
  lemma PathFromReply(out: string, path: string)
    ensures ParseCheckpointPath(out) == Some(path) <==> exists i: nat :: StandsFirst(out, path, i)
  {
    FindIs(out, PREFIX);
    if ParseCheckpointPath(out) == Some(path) {
      var i := Find(out, PREFIX).value;
      var rest := out[i + |PREFIX|..];
      DigitsLead(rest);
      var id := rest[..LeadingDigits(rest)];
      assert out[i..] == PREFIX + rest;
      assert PREFIX + id <= PREFIX + rest;
      assert path[|PREFIX|..] == id;
      assert StandsFirst(out, path, i);
    }
    if i: nat :| StandsFirst(out, path, i) {
      StandsIsParsed(out, path, i);
    }
  }

  lemma FoundAt(out: string, path: string, i: nat)
    requires StandsFirst(out, path, i)
    ensures Find(out, PREFIX) == Some(i)
  {
    FindIs(out, PREFIX);
    assert out[i..][..|PREFIX|] == path[..|PREFIX|];
    assert Occurs(out, PREFIX, i);
  }

  lemma PartsOf(out: string, path: string, i: nat)
    requires StandsFirst(out, path, i)
    ensures path == PREFIX + path[|PREFIX|..]
    ensures i + |path| <= |out| && out[i + |PREFIX|..] == path[|PREFIX|..] + out[i + |path|..]
  {
    assert out[i..] == path + out[i + |path|..];
    assert out[i + |PREFIX|..] == out[i..][|PREFIX|..];
  }

  lemma StandsIsParsed(out: string, path: string, i: nat)
    requires StandsFirst(out, path, i)
    ensures ParseCheckpointPath(out) == Some(path)
  {
    FoundAt(out, path, i);
    PartsOf(out, path, i);
    hide Find, LeadingDigits, Occurs;
    var id, after := path[|PREFIX|..], out[i + |path|..];
    AllDigits(id, after);
    assert (id + after)[..|id|] == id;
  }

  // ----- The pending checkpoints -----

  predicate Unquoted(s: string) {
    forall k :: 0 <= k < |s| ==> s[k] != '"'
  }

  function Quoted(x: string): string {
    "\"" + x + "\""
  }

  /** Whether `path` is among the pending checkpoints that were printed. */
  ghost predicate CheckpointListed(out: string, path: string) {
    Contains(out, Quoted(path))
  }

  /** The paths with these numbers, quoted, with `gap` between them: what busctl and dbus-send print
      after their headers. */
  function List(ids: seq<string>, gap: string): string {
    if ids == [] then ""
    else Quoted(PREFIX + ids[0]) + (if |ids| == 1 then "" else gap) + List(ids[1..], gap)
  }

  lemma ContainsLater(a: string, s: string, pattern: string)
    requires Contains(s, pattern)
    ensures Contains(a + s, pattern)
  {
    var i: nat :| Occurs(s, pattern, i);
    assert (a + s)[|a| + i..] == s[i..];
    assert Occurs(a + s, pattern, |a| + i);
  }

  /** What an occurrence of quoted text looks like. */
  lemma OccursAt(s: string, x: string, i: nat)
    requires Occurs(s, Quoted(x), i)
    ensures i + |x| + 1 < |s| && s[i] == '"' && s[i + |x| + 1] == '"'
    ensures forall k :: 0 <= k < |x| ==> s[i + 1 + k] == x[k]
  {}

  /** Nothing quoted starts in unquoted text. */
  lemma SkipUnquoted(a: string, s: string, x: string)
    requires Unquoted(a)
    ensures Contains(a + s, Quoted(x)) <==> Contains(s, Quoted(x))
  {
    if Contains(a + s, Quoted(x)) {
      var i: nat :| Occurs(a + s, Quoted(x), i);
      assert i < |a| ==> (a + s)[i] == a[i];
      OccursAt(a + s, x, i);
      assert (a + s)[i..] == s[i - |a|..];
      assert Occurs(s, Quoted(x), i - |a|);
    }
    if Contains(s, Quoted(x)) {
      ContainsLater(a, s, Quoted(x));
    }
  }

  lemma QuotedFirst(s: string, x: string)
    requires Unquoted(x) && Quoted(x) <= s
    ensures |x| + 1 < |s| && s[|x| + 1] == '"'
    ensures forall m :: 1 <= m <= |x| ==> s[m] == x[m - 1] && s[m] != '"'
  {}

  lemma QuotedEnds(x: string, y: string, t: string)
    requires Unquoted(x) && Unquoted(y) && Quoted(x) <= Quoted(y) + t
    ensures x == y
  {
    hide Quoted, Unquoted;
    var s := Quoted(y) + t;
    QuotedFirst(s, x);
    QuotedFirst(s, y);
    assert |x| == |y|;
    forall k | 0 <= k < |x|
      ensures x[k] == y[k]
    {
      assert s[k + 1] == x[k + 1 - 1] == y[k + 1 - 1];
    }
  }

  /** Something quoted at the front is it, or it comes no sooner than the closing quote. */
  lemma AtQuote(x: string, y: string, t: string)
    requires Unquoted(x) && Unquoted(y)
    ensures Contains(Quoted(y) + t, Quoted(x)) <==> x == y || Contains("\"" + t, Quoted(x))
  {
    var s := Quoted(y) + t;
    assert s == ("\"" + y) + ("\"" + t);
    if x == y {
      assert s[0..] == s;
      assert Occurs(s, Quoted(x), 0);
    } else {
      if Contains(s, Quoted(x)) {
        var i: nat :| Occurs(s, Quoted(x), i);
        if i == 0 {
          assert s[0..] == s;
          QuotedEnds(x, y, t);
        }
        assert s[1..] == y + ("\"" + t) && s[i..] == s[1..][i - 1..];
        assert Occurs(y + ("\"" + t), Quoted(x), i - 1);
        SkipUnquoted(y, "\"" + t, x);
      }
      if Contains("\"" + t, Quoted(x)) {
        ContainsLater("\"" + y, "\"" + t, Quoted(x));
      }
    }
  }

  /** `x` is one of these paths. */
  ghost predicate Member(ids: seq<string>, x: string) {
    exists k :: 0 <= k < |ids| && x == PREFIX + ids[k]
  }

  lemma MemberStep(ids: seq<string>, x: string)
    requires ids != []
    ensures Member(ids, x) <==> x == PREFIX + ids[0] || Member(ids[1..], x)
  {}

  /** Between two quoted paths there is only the gap. */
  lemma GapPassed(x: string, gap: string, z: string, more: string)
    requires Unquoted(gap) && Unquoted(x) && x != gap
    ensures Contains("\"" + (gap + (Quoted(z) + more)), Quoted(x)) <==> Contains(Quoted(z) + more, Quoted(x))
  {
    hide Contains, Unquoted;
    var inner := z + "\"" + more;
    assert "\"" + inner == Quoted(z) + more;
    assert "\"" + (gap + ("\"" + inner)) == Quoted(gap) + inner;
    AtQuote(x, gap, inner);
  }

  /** A nonempty list starts with its first path, quoted. */
  lemma ListStarts(ids: seq<string>, gap: string, tail: string)
    requires ids != []
    ensures List(ids, gap) + tail
         == Quoted(PREFIX + ids[0]) + ((if |ids| == 1 then "" else gap) + (List(ids[1..], gap) + tail))
  {
    hide Quoted;
    Regroup(Quoted(PREFIX + ids[0]), if |ids| == 1 then "" else gap, List(ids[1..], gap), tail);
  }

  lemma Regroup(a: string, b: string, c: string, d: string)
    ensures a + b + c + d == a + (b + (c + d))
  {}

  lemma {:induction false} ListedFrom(ids: seq<string>, gap: string, tail: string, x: string)
    requires Unquoted(gap) && Unquoted(tail) && Unquoted(x) && x != gap
    requires forall k :: 0 <= k < |ids| ==> Unquoted(PREFIX + ids[k])
    ensures Contains(List(ids, gap) + tail, Quoted(x)) <==> Member(ids, x)
    decreases |ids|
  {
    hide Contains, Quoted, Unquoted, Member, List;
    if ids == [] {
      EmptyList(gap, tail, x);
      NothingQuoted(tail, x);
    } else {
      MemberStep(ids, x);
      ListedFrom(ids[1..], gap, tail, x);
      ListStarts(ids, gap, tail);
      var y, rest := PREFIX + ids[0], List(ids[1..], gap) + tail;
      if |ids| == 1 {
        EmptyList(gap, tail, x);
        assert "" + rest == rest == tail;
        AtQuote(x, y, tail);
        ClosingQuote(tail, x);
      } else {
        AtQuote(x, y, gap + rest);
        ListStarts(ids[1..], gap, tail);
        GapPassed(x, gap, PREFIX + ids[1],
                  (if |ids[1..]| == 1 then "" else gap) + (List(ids[1..][1..], gap) + tail));
      }
    }
  }

  lemma EmptyList(gap: string, tail: string, x: string)
    ensures List([], gap) + tail == tail && !Member([], x)
  {}

  lemma NothingQuoted(t: string, x: string)
    requires Unquoted(t)
    ensures !Contains(t, Quoted(x))
  {
    forall i: nat
      ensures !Occurs(t, Quoted(x), i)
    {
      if Occurs(t, Quoted(x), i) {
        OccursAt(t, x, i);
      }
    }
  }

  lemma ClosingQuote(t: string, x: string)
    requires Unquoted(t)
    ensures !Contains("\"" + t, Quoted(x))
  {
    var s := "\"" + t;
    forall i: nat
      ensures !Occurs(s, Quoted(x), i)
    {
      assert i + |x| + 1 < |s| ==> s[i + |x| + 1] == t[i + |x|];
      if Occurs(s, Quoted(x), i) {
        OccursAt(s, x, i);
      }
    }
  }

  lemma IdUnquoted(id: string)
    requires Id(id)
    ensures Unquoted(PREFIX + id)
  {
    assert Unquoted(id);
    hide Unquoted;
    PrefixUnquoted();
    UnquotedSum(PREFIX, id);
  }

  lemma PrefixUnquoted()
    ensures Unquoted(PREFIX)
  {}

  lemma UnquotedSum(a: string, b: string)
    requires Unquoted(a) && Unquoted(b)
    ensures Unquoted(a + b)
  {}

  /** On any list of pending checkpoints, printed with any header, spacing and ending that have no
      quotes (and no slash where the spacing starts), the search finds the new checkpoint exactly if
      it is in the list: number 4 is never taken for 41 or 14. */
  lemma ListedIffMember(header: string, gap: string, tail: string, ids: seq<string>, id: string)
    requires Unquoted(header) && Unquoted(gap) && Unquoted(tail) && (gap == "" || gap[0] != '/')
    requires Id(id) && forall k :: 0 <= k < |ids| ==> Id(ids[k])
    ensures CheckpointListed(header + (List(ids, gap) + tail), PREFIX + id) <==> id in ids
  {
    hide Contains, Unquoted, List;
    forall k | 0 <= k < |ids|
      ensures Unquoted(PREFIX + ids[k])
    {
      IdUnquoted(ids[k]);
    }
    IdUnquoted(id);
    assert (PREFIX + id)[0] == '/';
    SkipUnquoted(header, List(ids, gap) + tail, PREFIX + id);
    ListedFrom(ids, gap, tail, PREFIX + id);
    MemberIsIn(ids, id);
  }

  lemma MemberIsIn(ids: seq<string>, id: string)
    ensures Member(ids, PREFIX + id) <==> id in ids
  {
    forall k | 0 <= k < |ids|
      ensures PREFIX + id == PREFIX + ids[k] <==> id == ids[k]
    {
      assert (PREFIX + id)[|PREFIX|..] == id && (PREFIX + ids[k])[|PREFIX|..] == ids[k];
    }
  }
}
