/** Captured command output (src/executor.rs): two pipes read side by side into buffers of limited
    size, shared with whoever reports on the command. */
module Capture {
  import opened Wrappers

  newtype byte = x: int | 0 <= x < 256

  datatype Stream = Stdout | Stderr

  /** What one read of a pipe brings: never nothing, which is the pipe's end. */
  type Read = s: seq<byte> | s != [] witness [0]

  datatype Chunk = Chunk(stream: Stream, bytes: Read)

  datatype Captured = Captured(
    limit: nat, stdout: seq<byte>, stderr: seq<byte>,
    stdoutTruncated: bool, stderrTruncated: bool, version: nat)

  function Nothing(limit: nat): Captured {
    Captured(limit, [], [], false, false, 0)
  }

  function Take(s: seq<byte>, n: nat): (r: seq<byte>)
    ensures r <= s
  {
    if |s| <= n then s else s[..n]
  }

  predicate Within(l: Captured) {
    |l.stdout| <= l.limit && |l.stderr| <= l.limit
  }

  /** One read put away: what there is room for is kept, the rest is noted as cut off. */
  function Absorbed(l: Captured, c: Chunk): (r: Captured)
    requires Within(l)
    ensures Within(r) && r.limit == l.limit
  {
    var buf := if c.stream == Stdout then l.stdout else l.stderr;
    var room := l.limit - |buf|;
    var kept := buf + Take(c.bytes, room);
    var cut := |c.bytes| > room;
    var version := l.version + if room > 0 then 1 else 0;
    if c.stream == Stdout then
      l.(stdout := kept, stdoutTruncated := l.stdoutTruncated || cut, version := version)
    else
      l.(stderr := kept, stderrTruncated := l.stderrTruncated || cut, version := version)
  }

  function AbsorbedAll(l: Captured, cs: seq<Chunk>): (r: Captured)
    requires Within(l)
    ensures Within(r) && r.limit == l.limit
    decreases |cs|
  {
    if cs == [] then l else AbsorbedAll(Absorbed(l, cs[0]), cs[1..])
  }

  class LiveOutput {
    const limit: nat
    var stdout: seq<byte>
    var stderr: seq<byte>
    var stdoutTruncated: bool
    var stderrTruncated: bool
    var version: nat

    function State(): Captured
      reads this
    {
      Captured(limit, stdout, stderr, stdoutTruncated, stderrTruncated, version)
    }

    constructor (limit: nat)
      ensures State() == Nothing(limit)
    {
      this.limit := limit;
      stdout, stderr, stdoutTruncated, stderrTruncated, version := [], [], false, false, 0;
    }

    /** What a capture task does with one read, holding the lock. */
    method Absorb(c: Chunk)
      requires Within(State())
      modifies this
      ensures State() == Absorbed(old(State()), c) && Within(State())
    {
      var buf := if c.stream == Stdout then stdout else stderr;
      var room := if limit >= |buf| then limit - |buf| else 0;
      var n := |c.bytes|;
      if n > room {
        if c.stream == Stdout {
          stdoutTruncated := true;
        } else {
          stderrTruncated := true;
        }
      }
      if room > 0 {
        buf := buf + c.bytes[..if n < room then n else room];
        if c.stream == Stdout {
          stdout := buf;
        } else {
          stderr := buf;
        }
        version := version + 1;
      }
    }

    /** The two capture tasks, their reads coming in this order. */
    method AbsorbAll(cs: seq<Chunk>)
      requires Within(State())
      modifies this
      ensures State() == AbsorbedAll(old(State()), cs) && Within(State())
    {
      for i := 0 to |cs|
        invariant Within(State())
        invariant AbsorbedAll(State(), cs[i..]) == AbsorbedAll(old(State()), cs)
      {
        assert cs[i..][0] == cs[i] && cs[i..][1..] == cs[i + 1..];
        Absorb(cs[i]);
      }
    }
  }

  // ----- What is kept -----

  /** Everything one pipe brought. */
  function Total(cs: seq<Chunk>, stream: Stream): seq<byte>
    decreases |cs|
  {
    if cs == [] then []
    else (if cs[0].stream == stream then cs[0].bytes else []) + Total(cs[1..], stream)
  }

  /** `buf` is as much of `all` as fits, and `cut` says whether that is less than all. */
  predicate Keeps(buf: seq<byte>, cut: bool, limit: nat, all: seq<byte>) {
    buf == Take(all, limit) && (cut <==> |all| > limit)
  }

  function BytesFor(c: Chunk, stream: Stream): seq<byte> {
    if c.stream == stream then c.bytes else []
  }

  /** The buffers of `l` keep `out` and `err`. */
  predicate KeepsBoth(l: Captured, out: seq<byte>, err: seq<byte>) {
    && Keeps(l.stdout, l.stdoutTruncated, l.limit, out)
    && Keeps(l.stderr, l.stderrTruncated, l.limit, err)
  }

  lemma KeepsStep(l: Captured, c: Chunk, out: seq<byte>, err: seq<byte>)
    requires Within(l) && KeepsBoth(l, out, err)
    ensures KeepsBoth(Absorbed(l, c), out + BytesFor(c, Stdout), err + BytesFor(c, Stderr))
  {}

  lemma {:induction false} KeepsPrefixes(l: Captured, cs: seq<Chunk>, out: seq<byte>, err: seq<byte>)
    requires Within(l) && KeepsBoth(l, out, err)
    ensures KeepsBoth(AbsorbedAll(l, cs), out + Total(cs, Stdout), err + Total(cs, Stderr))
    decreases |cs|
  {
    hide KeepsBoth, Absorbed, BytesFor;
    if cs == [] {
      assert out + [] == out && err + [] == err;
    } else {
      var c := cs[0];
      KeepsStep(l, c, out, err);
      KeepsPrefixes(Absorbed(l, c), cs[1..], out + BytesFor(c, Stdout), err + BytesFor(c, Stderr));
      TotalStep(cs, Stdout);
      TotalStep(cs, Stderr);
      assert out + BytesFor(c, Stdout) + Total(cs[1..], Stdout) == out + Total(cs, Stdout);
      assert err + BytesFor(c, Stderr) + Total(cs[1..], Stderr) == err + Total(cs, Stderr);
    }
  }

  lemma TotalStep(cs: seq<Chunk>, stream: Stream)
    requires cs != []
    ensures Total(cs, stream) == BytesFor(cs[0], stream) + Total(cs[1..], stream)
  {}

  /** However the pipes are cut into reads and the reads interleaved: each buffer holds the first
      `limit` bytes its pipe brought, or all of them, and is marked truncated exactly when that is
      not all. */
  lemma CaptureIsPrefix(limit: nat, cs: seq<Chunk>)
    ensures var m := AbsorbedAll(Nothing(limit), cs);
            && |m.stdout| == Min(|Total(cs, Stdout)|, limit) && m.stdout <= Total(cs, Stdout)
            && |m.stderr| == Min(|Total(cs, Stderr)|, limit) && m.stderr <= Total(cs, Stderr)
            && (m.stdoutTruncated <==> |Total(cs, Stdout)| > limit)
            && (m.stderrTruncated <==> |Total(cs, Stderr)| > limit)
  {
    KeepsPrefixes(Nothing(limit), cs, [], []);
    assert [] + Total(cs, Stdout) == Total(cs, Stdout) && [] + Total(cs, Stderr) == Total(cs, Stderr);
  }

  // ----- The version -----

  /** Nothing captured is ever taken back, no mark is, and the version stays exactly as long as no byte is added. */
  lemma {:induction false} VersionTells(l: Captured, cs: seq<Chunk>)
    requires Within(l)
    ensures var m := AbsorbedAll(l, cs);
            && l.stdout <= m.stdout && l.stderr <= m.stderr && l.version <= m.version
            && (l.stdoutTruncated ==> m.stdoutTruncated) && (l.stderrTruncated ==> m.stderrTruncated)
            && (m.version == l.version <==> m.stdout == l.stdout && m.stderr == l.stderr)
    decreases |cs|
  {
    if cs != [] {
      VersionTells(Absorbed(l, cs[0]), cs[1..]);
    }
  }

  lemma {:induction false} AbsorbedAllAppend(l: Captured, x: seq<Chunk>, y: seq<Chunk>)
    requires Within(l)
    ensures AbsorbedAll(l, x + y) == AbsorbedAll(AbsorbedAll(l, x), y)
    decreases |x|
  {
    if x == [] {
      assert x + y == y;
    } else {
      assert (x + y)[1..] == x[1..] + y;
      AbsorbedAllAppend(Absorbed(l, x[0]), x[1..], y);
    }
  }

  /** The version does not tell of everything: a read changes what was captured and leaves the version as
      it is exactly when the buffer was just full, and the mark is all that changes. */
  lemma TruncationUnversioned(l: Captured, c: Chunk)
    requires Within(l)
    ensures var m := Absorbed(l, c);
            m.version == l.version && m != l <==>
              if c.stream == Stdout then |l.stdout| == l.limit && !l.stdoutTruncated
              else |l.stderr| == l.limit && !l.stderrTruncated
  {}
}
