/** Progress while a command or a typed method runs (src/app.rs). The clock is ideal: a pause takes
    just its time, sending takes none. Times are milliseconds since the start. */
module Streaming {
  import opened Wrappers
  import opened Capture

  /** How often to look: at the streaming interval, but no less often than the heartbeat. */
  function Tick(interval: nat, heartbeat: nat): nat {
    if 0 < interval < heartbeat then interval else heartbeat
  }

  /** One progress update; without streaming it carries no output. */
  datatype Update = Update(time: nat, live: Option<Captured>)

  /** The time before the `k`-th of these, the start counting as one. */
  function Before(times: seq<nat>, k: nat): nat
    requires k <= |times|
  {
    if k == 0 then 0 else times[k - 1]
  }

  /** Consecutive updates, and the last and the end, are no further apart than `gap`. */
  predicate Regular(times: seq<nat>, end: nat, gap: nat) {
    && (forall k :: 0 <= k < |times| ==> Before(times, k) < times[k] <= Before(times, k) + gap)
    && Before(times, |times|) <= end <= Before(times, |times|) + gap
  }

  function Times(sent: seq<Update>): (r: seq<nat>)
    ensures |r| == |sent|
  {
    seq(|sent|, k requires 0 <= k < |sent| => sent[k].time)
  }

  function Flatten(ticks: seq<seq<Chunk>>): seq<Chunk> {
    if ticks == [] then [] else Flatten(ticks[..|ticks| - 1]) + ticks[|ticks| - 1]
  }

  /** The buffers after the reads of the first `n` ticks. */
  function LiveAt(limit: nat, ticks: seq<seq<Chunk>>, n: nat): (r: Captured)
    requires n <= |ticks|
    ensures Within(r)
  {
    AbsorbedAll(Nothing(limit), Flatten(ticks[..n]))
  }

  predicate SameBytes(a: Captured, b: Captured) {
    a.stdout == b.stdout && a.stderr == b.stderr
  }

  /** Each update's buffers are those of the tick it was sent at. */
  ghost predicate Snapshots(sent: seq<Update>, limit: nat, ticks: seq<seq<Chunk>>, tick: nat) {
    forall k :: 0 <= k < |sent| && sent[k].live.Some? ==>
      exists n: nat :: n <= |ticks| && sent[k].time == n * tick && sent[k].live.value == LiveAt(limit, ticks, n)
  }

  /** By the `n`-th tick all bytes captured so far have been sent, if there are any. */
  ghost predicate UpToDate(sent: seq<Update>, limit: nat, ticks: seq<seq<Chunk>>, tick: nat, n: nat)
    requires n <= |ticks|
  {
    || SameBytes(LiveAt(limit, ticks, n), Nothing(limit))
    || exists k :: 0 <= k < |sent| && sent[k].time <= n * tick && sent[k].live.Some?
                   && SameBytes(sent[k].live.value, LiveAt(limit, ticks, n))
  }

  /** The output the `k`-th update is news against: that of the one before, or none. */
  function Known(sent: seq<Update>, k: nat, limit: nat): Captured
    requires k <= |sent|
  {
    if k > 0 && sent[k - 1].live.Some? then sent[k - 1].live.value else Nothing(limit)
  }

  predicate WorthSending(sent: seq<Update>, k: nat, limit: nat, heartbeat: nat)
    requires k < |sent|
  {
    || (sent[k].live.Some? && !SameBytes(sent[k].live.value, Known(sent, k, limit)))
    || sent[k].time >= heartbeat + (if k == 0 then 0 else sent[k - 1].time)
  }

  /** Every update has output that is news, or comes a heartbeat after the one before or the start. */
  ghost predicate Worthwhile(sent: seq<Update>, limit: nat, heartbeat: nat) {
    forall k :: 0 <= k < |sent| ==> WorthSending(sent, k, limit, heartbeat)
  }

  lemma StillWorthSending(sent: seq<Update>, u: Update, k: nat, limit: nat, heartbeat: nat)
    requires k < |sent| && WorthSending(sent, k, limit, heartbeat)
    ensures WorthSending(sent + [u], k, limit, heartbeat)
  {
    assert (sent + [u])[k] == sent[k];
    assert k > 0 ==> (sent + [u])[k - 1] == sent[k - 1];
  }

  lemma MoreWorthwhile(sent: seq<Update>, u: Update, limit: nat, heartbeat: nat)
    requires Worthwhile(sent, limit, heartbeat)
    requires || (u.live.Some? && !SameBytes(u.live.value, Known(sent, |sent|, limit)))
             || u.time >= heartbeat + (if sent == [] then 0 else sent[|sent| - 1].time)
    ensures Worthwhile(sent + [u], limit, heartbeat)
  {
    var longer := sent + [u];
    assert WorthSending(longer, |sent|, limit, heartbeat) by {
      assert longer[|sent|] == u && (|sent| > 0 ==> longer[|sent| - 1] == sent[|sent| - 1]);
    }
    hide WorthSending;
    forall k | 0 <= k < |longer|
      ensures WorthSending(longer, k, limit, heartbeat)
    {
      if k < |sent| {
        StillWorthSending(sent, u, k, limit, heartbeat);
      }
    }
  }

  /** A new version is news. */
  lemma VersionIsNews(sent: seq<Update>, limit: nat, ticks: seq<seq<Chunk>>, tick: nat, n: nat, sentVersion: nat)
    requires Current(sent, limit, ticks, tick, true, n, sentVersion) && n < |ticks|
    requires LiveAt(limit, ticks, n + 1).version != sentVersion
    ensures !SameBytes(LiveAt(limit, ticks, n + 1), Known(sent, |sent|, limit))
  {
    LiveStarts(limit, ticks);
    hide LiveAt, Snapshots, UpToDate;
    LiveGrows(limit, ticks, n, n + 1);
    LiveGrows(limit, ticks, 0, n);
    if sent == [] {
      assert SameBytes(LiveAt(limit, ticks, 0), LiveAt(limit, ticks, n));
    } else {
      assert sent[|sent| - 1].live.Some?;
      assert SameBytes(Known(sent, |sent|, limit), LiveAt(limit, ticks, n));
    }
  }

  lemma LiveStarts(limit: nat, ticks: seq<seq<Chunk>>)
    ensures LiveAt(limit, ticks, 0) == Nothing(limit)
  {}

  lemma LiveNext(limit: nat, ticks: seq<seq<Chunk>>, n: nat)
    requires n < |ticks|
    ensures LiveAt(limit, ticks, n + 1) == AbsorbedAll(LiveAt(limit, ticks, n), ticks[n])
  {
    assert ticks[..n + 1][..n] == ticks[..n];
    AbsorbedAllAppend(Nothing(limit), Flatten(ticks[..n]), ticks[n]);
  }

  /** Later buffers extend earlier ones, and are the same while the version is. */
  lemma {:induction false} LiveGrows(limit: nat, ticks: seq<seq<Chunk>>, m: nat, n: nat)
    requires m <= n <= |ticks|
    ensures var a, b := LiveAt(limit, ticks, m), LiveAt(limit, ticks, n);
            && a.stdout <= b.stdout && a.stderr <= b.stderr && a.version <= b.version
            && (a.stdoutTruncated ==> b.stdoutTruncated) && (a.stderrTruncated ==> b.stderrTruncated)
            && (a.version == b.version <==> SameBytes(a, b))
    decreases n - m
  {
    hide LiveAt;
    if m < n {
      LiveGrows(limit, ticks, m, n - 1);
      LiveNext(limit, ticks, n - 1);
      VersionTells(LiveAt(limit, ticks, n - 1), ticks[n - 1]);
    }
  }

  /** Updates so far came regularly, and the last is not yet a heartbeat ago. */
  ghost predicate Timely(times: seq<nat>, tick: nat, heartbeat: nat, now: nat, lastSent: nat) {
    && lastSent <= now < lastSent + heartbeat
    && lastSent == Before(times, |times|)
    && Regular(times, now, heartbeat + tick)
  }

  /** Updates so far carry the buffers of their ticks, and the last is up to date. */
  ghost predicate Current(sent: seq<Update>, limit: nat, ticks: seq<seq<Chunk>>, tick: nat, streaming: bool, n: nat,
                          sentVersion: nat)
  {
    && n <= |ticks|
    && (forall k :: 0 <= k < |sent| ==> sent[k].live.Some? == streaming)
    && Snapshots(sent, limit, ticks, tick)
    && (streaming ==>
          && sentVersion == LiveAt(limit, ticks, n).version
          && (if sent == [] then sentVersion == 0 else SameBytes(sent[|sent| - 1].live.value, LiveAt(limit, ticks, n)))
          && forall m :: 0 <= m <= n ==> UpToDate(sent, limit, ticks, tick, m))
  }

  lemma TicksAdd(m: nat, n: nat, tick: nat)
    requires m <= n
    ensures (n + 1) * tick == n * tick + tick
    ensures m * tick <= n * tick
  {}

  lemma SkippedTimely(times: seq<nat>, tick: nat, heartbeat: nat, now: nat, lastSent: nat)
    requires Timely(times, tick, heartbeat, now, lastSent) && now + tick - lastSent < heartbeat
    ensures Timely(times, tick, heartbeat, now + tick, lastSent)
  {}

  lemma SentTimely(times: seq<nat>, tick: nat, heartbeat: nat, now: nat, lastSent: nat)
    requires Timely(times, tick, heartbeat, now, lastSent) && tick > 0
    ensures Timely(times + [now + tick], tick, heartbeat, now + tick, now + tick)
  {
    hide Before;
    var longer := times + [now + tick];
    LastIsBefore(times, now + tick);
    forall k | 0 <= k < |longer|
      ensures Before(longer, k) < longer[k] <= Before(longer, k) + heartbeat + tick
    {
      EarlierIsBefore(times, now + tick, k);
      if k < |times| {
        assert longer[k] == times[k];
      }
    }
  }

  lemma LastIsBefore(times: seq<nat>, t: nat)
    ensures Before(times + [t], |times| + 1) == t
  {}

  lemma EarlierIsBefore(times: seq<nat>, t: nat, k: nat)
    requires k <= |times|
    ensures Before(times + [t], k) == Before(times, k)
  {}

  /** A tick without news changes nothing that was captured. */
  lemma SkippedCurrent(sent: seq<Update>, limit: nat, ticks: seq<seq<Chunk>>, tick: nat, streaming: bool, n: nat,
                       sentVersion: nat)
    requires Current(sent, limit, ticks, tick, streaming, n, sentVersion) && n < |ticks|
    requires streaming ==> LiveAt(limit, ticks, n + 1).version == sentVersion
    ensures Current(sent, limit, ticks, tick, streaming, n + 1, sentVersion)
  {
    hide LiveAt;
    LiveGrows(limit, ticks, n, n + 1);
    TicksAdd(n, n, tick);
    if streaming {
      SameUpToDate(sent, limit, ticks, tick, n);
    }
  }

  lemma SameUpToDate(sent: seq<Update>, limit: nat, ticks: seq<seq<Chunk>>, tick: nat, n: nat)
    requires n < |ticks| && UpToDate(sent, limit, ticks, tick, n)
    requires SameBytes(LiveAt(limit, ticks, n), LiveAt(limit, ticks, n + 1))
    ensures UpToDate(sent, limit, ticks, tick, n + 1)
  {}

  lemma MoreUpToDate(sent: seq<Update>, u: Update, limit: nat, ticks: seq<seq<Chunk>>, tick: nat, m: nat)
    requires m <= |ticks| && UpToDate(sent, limit, ticks, tick, m)
    ensures UpToDate(sent + [u], limit, ticks, tick, m)
  {
    hide LiveAt;
    if !SameBytes(LiveAt(limit, ticks, m), Nothing(limit)) {
      var k :| 0 <= k < |sent| && sent[k].time <= m * tick && sent[k].live.Some?
                && SameBytes(sent[k].live.value, LiveAt(limit, ticks, m));
      assert (sent + [u])[k] == sent[k];
    }
  }

  lemma SnapshotAdded(sent: seq<Update>, u: Update, limit: nat, ticks: seq<seq<Chunk>>, tick: nat, n: nat)
    requires Snapshots(sent, limit, ticks, tick) && n <= |ticks|
    requires u.time == n * tick && (u.live.Some? ==> u.live.value == LiveAt(limit, ticks, n))
    ensures Snapshots(sent + [u], limit, ticks, tick)
  {}

  lemma SentCurrent(sent: seq<Update>, limit: nat, ticks: seq<seq<Chunk>>, tick: nat, streaming: bool, n: nat,
                    sentVersion: nat)
    requires Current(sent, limit, ticks, tick, streaming, n, sentVersion) && n < |ticks|
    ensures var live := LiveAt(limit, ticks, n + 1);
            Current(sent + [Update((n + 1) * tick, if streaming then Some(live) else None)],
                    limit, ticks, tick, streaming, n + 1, live.version)
  {
    hide LiveAt, UpToDate, Snapshots;
    var live := LiveAt(limit, ticks, n + 1);
    var u := Update((n + 1) * tick, if streaming then Some(live) else None);
    SnapshotAdded(sent, u, limit, ticks, tick, n + 1);
    if streaming {
      forall m: nat | m <= n + 1
        ensures UpToDate(sent + [u], limit, ticks, tick, m)
      {
        if m <= n {
          MoreUpToDate(sent, u, limit, ticks, tick, m);
        } else {
          LastUpToDate(sent, u, limit, ticks, tick, m);
        }
      }
    }
  }

  lemma LastUpToDate(sent: seq<Update>, u: Update, limit: nat, ticks: seq<seq<Chunk>>, tick: nat, n: nat)
    requires n <= |ticks| && u == Update(n * tick, Some(LiveAt(limit, ticks, n)))
    ensures UpToDate(sent + [u], limit, ticks, tick, n)
  {
    hide LiveAt;
    assert (sent + [u])[|sent|] == u;
  }

  lemma NothingWorthwhile(limit: nat, heartbeat: nat)
    ensures Worthwhile([], limit, heartbeat)
  {}

  lemma AtStart(limit: nat, ticks: seq<seq<Chunk>>, tick: nat, heartbeat: nat, streaming: bool)
    requires heartbeat > 0
    ensures LiveAt(limit, ticks, 0) == Nothing(limit)
    ensures Timely([], tick, heartbeat, 0, 0) && Current([], limit, ticks, tick, streaming, 0, 0)
  {}

  /** `Gateway::stream`: the command's output comes in `ticks`, one entry for each pause, and `last`
      in the pause in which it ends. However much comes when, each update carries both buffers whole, as
      they were at that moment, and has output that is news or comes a heartbeat after the one before. The
      updates are never further apart than a heartbeat and a tick; and at every tick, with streaming on,
      everything captured so far has been sent. A tick is the shorter of interval and heartbeat. */
  method StreamOutput(live: LiveOutput, interval: nat, heartbeat: nat, ticks: seq<seq<Chunk>>, last: seq<Chunk>)
    returns (sent: seq<Update>)
    requires live.State() == Nothing(live.limit) && heartbeat > 0
    modifies live
    ensures live.State() == AbsorbedAll(LiveAt(live.limit, ticks, |ticks|), last)
    ensures forall k :: 0 <= k < |sent| ==> sent[k].live.Some? == (interval > 0)
    ensures Worthwhile(sent, live.limit, heartbeat)
    ensures interval > 0 ==>
              && Regular(Times(sent), |ticks| * Min(interval, heartbeat), heartbeat + Min(interval, heartbeat))
              && Snapshots(sent, live.limit, ticks, Min(interval, heartbeat))
              && forall m :: 0 <= m <= |ticks| ==> UpToDate(sent, live.limit, ticks, Min(interval, heartbeat), m)
    ensures interval == 0 ==> Regular(Times(sent), |ticks| * heartbeat, 2 * heartbeat)
  {
    hide LiveAt, AbsorbedAll, Regular, Snapshots, UpToDate, Timely, Current, Worthwhile, SameBytes;
    var streaming := interval > 0;
    var tick := Tick(interval, heartbeat);
    assert tick == if interval == 0 then heartbeat else Min(interval, heartbeat);
    var now: nat, lastSent: nat, sentVersion: nat := 0, 0, 0;
    sent := [];
    assert Times(sent) == [];
    AtStart(live.limit, ticks, tick, heartbeat, streaming);
    NothingWorthwhile(live.limit, heartbeat);
    for n := 0 to |ticks|
      invariant live.State() == LiveAt(live.limit, ticks, n) && now == n * tick && lastSent <= now
      invariant Timely(Times(sent), tick, heartbeat, now, lastSent)
      invariant Worthwhile(sent, live.limit, heartbeat)
      invariant lastSent == if sent == [] then 0 else sent[|sent| - 1].time
      invariant Current(sent, live.limit, ticks, tick, streaming, n, sentVersion)
    {
      LiveNext(live.limit, ticks, n);
      live.AbsorbAll(ticks[n]);
      TicksAdd(n, n, tick);
      ghost var before := now;
      now := now + tick;
      var hasNew := streaming && live.version != sentVersion;
      if !hasNew && now - lastSent < heartbeat {
        SkippedTimely(Times(sent), tick, heartbeat, before, lastSent);
        SkippedCurrent(sent, live.limit, ticks, tick, streaming, n, sentVersion);
        continue;
      }
      if hasNew {
        VersionIsNews(sent, live.limit, ticks, tick, n, sentVersion);
      }
      SentTimely(Times(sent), tick, heartbeat, before, lastSent);
      SentCurrent(sent, live.limit, ticks, tick, streaming, n, sentVersion);
      var update := Update(now, if streaming then Some(live.State()) else None);
      assert Times(sent + [update]) == Times(sent) + [now];
      MoreWorthwhile(sent, update, live.limit, heartbeat);
      sent := sent + [update];
      sentVersion := live.version;
      lastSent := now;
    }
    live.AbsorbAll(last);
    StreamEnds(sent, live.limit, ticks, tick, heartbeat, streaming, |ticks|, now, lastSent, sentVersion);
  }

  lemma StreamEnds(sent: seq<Update>, limit: nat, ticks: seq<seq<Chunk>>, tick: nat, heartbeat: nat, streaming: bool,
                   n: nat, now: nat, lastSent: nat, sentVersion: nat)
    requires Timely(Times(sent), tick, heartbeat, now, lastSent)
    requires Current(sent, limit, ticks, tick, streaming, n, sentVersion)
    ensures Regular(Times(sent), now, heartbeat + tick)
    ensures forall k :: 0 <= k < |sent| ==> sent[k].live.Some? == streaming
    ensures Snapshots(sent, limit, ticks, tick)
    ensures streaming ==> forall m :: 0 <= m <= n ==> UpToDate(sent, limit, ticks, tick, m)
  {}

  /** So a consumer never sees output go back: each update's bytes begin with the bytes of the one
      before, and the result begins with those of the last. */
  lemma SnapshotsArePrefixes(sent: seq<Update>, limit: nat, ticks: seq<seq<Chunk>>, tick: nat, last: seq<Chunk>,
                             i: nat, j: nat)
    requires Snapshots(sent, limit, ticks, tick) && tick > 0
    requires i <= j < |sent| && sent[i].live.Some? && sent[j].live.Some? && sent[i].time <= sent[j].time
    ensures var a, b, end := sent[i].live.value, sent[j].live.value, AbsorbedAll(LiveAt(limit, ticks, |ticks|), last);
            && a.stdout <= b.stdout <= end.stdout
            && a.stderr <= b.stderr <= end.stderr
  {
    hide LiveAt, AbsorbedAll;
    var m: nat :| m <= |ticks| && sent[i].time == m * tick && sent[i].live.value == LiveAt(limit, ticks, m);
    var n: nat :| n <= |ticks| && sent[j].time == n * tick && sent[j].live.value == LiveAt(limit, ticks, n);
    if m > n {
      TicksAdd(n + 1, m, tick);
      TicksAdd(n, n, tick);
    }
    LiveGrows(limit, ticks, m, n);
    LiveGrows(limit, ticks, n, |ticks|);
    VersionTells(LiveAt(limit, ticks, |ticks|), last);
  }

  // ----- Marks -----

  /** Some update comes within `gap` of any moment after the start that is as long before the end. */
  lemma {:induction false} NextUpdate(times: seq<nat>, end: nat, gap: nat, t: nat, k: nat)
    requires Regular(times, end, gap) && t + gap <= end && k <= |times| && Before(times, k) < t
    ensures exists i :: k <= i < |times| && t <= times[i] <= t + gap
    decreases |times| - k
  {
    hide Before;
    if k < |times| && times[k] < t {
      assert Before(times, k + 1) == times[k] by { BeforeNext(times, k); }
      NextUpdate(times, end, gap, t, k + 1);
    }
  }

  lemma BeforeNext(times: seq<nat>, k: nat)
    requires k < |times|
    ensures Before(times, k + 1) == times[k]
  {}

  /** The version does not tell of a buffer that is marked as cut off, but with streaming on the mark is
      sent within a heartbeat and a tick of being made, unless the command ends before. */
  lemma MarksArrive(sent: seq<Update>, limit: nat, ticks: seq<seq<Chunk>>, tick: nat, heartbeat: nat, m: nat)
    requires Regular(Times(sent), |ticks| * tick, heartbeat + tick) && Snapshots(sent, limit, ticks, tick)
    requires tick > 0 && 0 < m <= |ticks| && forall k :: 0 <= k < |sent| ==> sent[k].live.Some?
    requires m * tick + heartbeat + tick <= |ticks| * tick
    ensures exists k ::
              && 0 <= k < |sent| && m * tick <= sent[k].time <= m * tick + heartbeat + tick
              && (LiveAt(limit, ticks, m).stdoutTruncated ==> sent[k].live.value.stdoutTruncated)
              && (LiveAt(limit, ticks, m).stderrTruncated ==> sent[k].live.value.stderrTruncated)
  {
    hide LiveAt, Regular;
    TicksAdd(1, m, tick);
    NextUpdate(Times(sent), |ticks| * tick, heartbeat + tick, m * tick, 0);
    var k :| 0 <= k < |Times(sent)| && m * tick <= Times(sent)[k] <= m * tick + heartbeat + tick;
    var n: nat :| n <= |ticks| && sent[k].time == n * tick && sent[k].live.value == LiveAt(limit, ticks, n);
    if n < m {
      TicksAdd(n + 1, m, tick);
      TicksAdd(n, n, tick);
    }
    LiveGrows(limit, ticks, m, n);
  }
}
