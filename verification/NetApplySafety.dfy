/** What `net_apply` never does, over every schedule of tool results, delays and cancellations, and
    wherever the program is cut short. */
module NetApplySafety {
  import opened Wrappers
  import opened NetworkManager
  import opened NetApply

  // ----- What each part adds to the log -----

  function Kinds(log: seq<Event>): (r: seq<Request>)
    ensures |r| == |log|
  {
    seq(|log|, i requires 0 <= i < |log| => log[i].request)
  }

  /** Events `from` up to `to` are changes, all but the last of them good. */
  ghost predicate Changes(log: seq<Event>, from: nat, to: nat) {
    && from <= to <= |log|
    && (forall i :: from <= i < to ==> log[i].request.Apply?)
    && (forall i :: from <= i < to - 1 ==> log[i].good)
  }

  /** Events `from` up to `to` are platform checks started before `until`, none but the last good. */
  ghost predicate Checks(log: seq<Event>, from: nat, to: nat, until: int) {
    && from <= to <= |log|
    && (forall i :: from <= i < to ==> log[i].request.PlatformCheck? && log[i].start < until)
    && (forall i :: from <= i < to - 1 ==> !log[i].good)
  }

  /** What waiting for the rollback asks, in order. */
  predicate Awaits(kinds: seq<Request>) {
    kinds == [] || kinds == [ListPending] || kinds == [ListPending, Rollback]
  }

  /** From event `from` on only the rollback is waited for, asked about no sooner than `rollbackBy`. */
  ghost predicate Waits(log: seq<Event>, from: nat, rollbackBy: nat) {
    && from <= |log|
    && Awaits(Kinds(log[from..]))
    && (from < |log| ==> log[from].start >= rollbackBy)
  }

  lemma {:induction false} ApplyAdds(env: Schedule, w: World, changes: seq<NetworkManager.Change>, wait: nat)
    ensures var (w', ok) := ApplyAll(env, w, changes, wait);
            && w.log <= w'.log && Changes(w'.log, |w.log|, |w'.log|)
            && (if ok then
                  && |w'.log| == |w.log| + |changes|
                  && (changes != [] ==> w'.log[|w'.log| - 1].good)
                else w'.cancelled || (|w'.log| > |w.log| && !w'.log[|w'.log| - 1].good))
    decreases |changes|
  {
    if changes != [] {
      var (w1, a) := Call(env, w, Apply(changes[0], wait));
      if a.Good? {
        ApplyAdds(env, w1, changes[1..], wait);
      }
    }
  }

  lemma {:induction false} PollAdds(env: Schedule, w: World, until: int)
    requires w.clock < until
    ensures var (w', ok) := Poll(env, w, until);
            && w.log <= w'.log && Checks(w'.log, |w.log|, |w'.log|, until)
            && (ok ==> |w'.log| > |w.log| && w'.log[|w'.log| - 1].good)
    decreases Left(w, until)
  {
    hide CallEvent, Left;
    var (w1, a) := Call(env, w, PlatformCheck);
    if !w.cancelled {
      CallIs(env, w, PlatformCheck);
      CallStarts(env, w, PlatformCheck);
    }
    if !a.Good? && !w1.cancelled && w1.clock + VERIFY_POLL < until {
      PollLess(env, w, until);
      PollAdds(env, Sleep(env, w1, VERIFY_POLL), until);
    }
  }

  lemma VerifyAdds(env: Schedule, w: World, until: int)
    ensures var (w', ok) := Verify(env, w, until);
            && w.log <= w'.log && Checks(w'.log, |w.log|, |w'.log|, until)
            && (ok ==> |w'.log| > |w.log| && w'.log[|w'.log| - 1].good)
  {
    if w.clock < until {
      PollAdds(env, w, until);
    }
  }

  lemma AwaitAdds(env: Schedule, w: World, rollbackBy: nat)
    ensures var (w', note) := AwaitRollback(env, w, rollbackBy);
            && w.log <= w'.log && Waits(w'.log, |w.log|, rollbackBy)
            && (!w'.cancelled && note == NoNote ==>
                  |w'.log| == |w.log| + 1 && w'.log[|w.log|].good && w'.log[|w.log|].before.pending.None?)
  {}

  // ----- The whole of a run from the checkpoint on -----

  /** How a run ends after its checks: it may destroy the checkpoint after a good check, or roll it
      back after a failed change; if either fails, or neither was called for, it may wait. */
  ghost predicate Ends(log: seq<Event>, from: nat, a: nat, v: nat, rollbackBy: nat) {
    && from <= a <= v <= |log|
    && (|| Waits(log, v, rollbackBy)
        || (&& v < |log| && (log[v].good ==> |log| == v + 1) && Waits(log, v + 1, rollbackBy)
            && ((log[v].request.Destroy? && v > a && log[v - 1].good)
                || (log[v].request.Rollback? && v == a > from && !log[a - 1].good))))
  }

  /** Changes up to `a`, checks up to `v`, and then the end. */
  ghost predicate Shape(log: seq<Event>, from: nat, a: nat, v: nat, made: bool, changes: nat, until: int,
                        rollbackBy: nat)
  {
    && Changes(log, from, a)
    && Checks(log, a, v, until)
    && Ends(log, from, a, v, rollbackBy)
    && (v > a ==> a == from + changes && (a > from ==> log[a - 1].good))
    && (v < |log| ==> made)
  }

  lemma ChangesKept(l: seq<Event>, l': seq<Event>, from: nat, to: nat)
    requires Changes(l, from, to) && l <= l'
    ensures Changes(l', from, to)
  {}

  lemma ChecksKept(l: seq<Event>, l': seq<Event>, from: nat, to: nat, until: int)
    requires Checks(l, from, to, until) && l <= l'
    ensures Checks(l', from, to, until)
  {}

  lemma WaitsForNothing(l: seq<Event>, rollbackBy: nat)
    ensures Waits(l, |l|, rollbackBy)
  {}

  lemma UnderCheckpointShape(env: Schedule, w: World, changes: seq<NetworkManager.Change>, wait: nat, made: bool,
                             until: int, rollbackBy: nat)
    returns (a: nat, v: nat)
    ensures var w' := UnderCheckpoint(env, w, changes, wait, made, until, rollbackBy).0;
            w.log <= w'.log && Shape(w'.log, |w.log|, a, v, made, |changes|, until, rollbackBy)
  {
    hide ApplyAll, Verify, AwaitRollback, Changes, Checks, Waits, CallEvent;
    var w' := UnderCheckpoint(env, w, changes, wait, made, until, rollbackBy).0;
    var (w1, ok) := ApplyAll(env, w, changes, wait);
    ApplyAdds(env, w, changes, wait);
    a, v := |w1.log|, |w1.log|;
    WaitsForNothing(w'.log, rollbackBy);
    if !ok {
      if !w1.cancelled && made {
        var (w2, b) := Call(env, w1, Rollback);
        CallIs(env, w1, Rollback);
        WaitsForNothing(w2.log, rollbackBy);
        AwaitAdds(env, w2, rollbackBy);
      }
    } else {
      var (w2, reachable) := Verify(env, w1, until);
      VerifyAdds(env, w1, until);
      v := |w2.log|;
      if !w2.cancelled && made {
        if reachable {
          var (w3, b) := Call(env, w2, Destroy);
          CallIs(env, w2, Destroy);
          WaitsForNothing(w3.log, rollbackBy);
          AwaitAdds(env, w3, rollbackBy);
        } else {
          AwaitAdds(env, w2, rollbackBy);
        }
      }
      ChecksKept(w2.log, w'.log, a, v, until);
    }
    ChangesKept(w1.log, w'.log, |w.log|, a);
    if ok == false {
      NoChecks(w'.log, a, until);
    }
  }

  lemma NoChecks(l: seq<Event>, a: nat, until: int)
    requires a <= |l|
    ensures Checks(l, a, a, until)
  {}

  lemma CallStarts(env: Schedule, w: World, request: Request)
    ensures CallEvent(w, request, env(w.calls)).start == w.clock
  {}

  lemma CallIs(env: Schedule, w: World, request: Request)
    requires !w.cancelled
    ensures var (w', a) := Call(env, w, request);
            && |w'.log| == |w.log| + 1 && w.log <= w'.log
            && w'.log[|w.log|].request == request && (a.Good? <==> w'.log[|w.log|].good)
            && w'.log[|w.log|] == CallEvent(w, request, env(w.calls))
            && w'.cancelled == env(w.calls).cancel
  {}

  // ----- The whole of a run -----

  /** Lookups up to `r`, attempts to create the checkpoint up to `c`, none but the last finding a tool. */
  ghost predicate Opens(log: seq<Event>, rollback: nat, r: nat, c: nat) {
    && r <= c <= |log| && r <= 1 && c <= r + 2
    && (forall i :: 0 <= i < r ==> log[i].request == Lookup)
    && (forall i :: r <= i < c ==> log[i].request == Create(rollback))
    && (forall i :: r <= i < c - 1 ==> !log[i].ran)
  }

  /** Lookups up to `r`, attempts to create the checkpoint up to `c`, changes up to `a`, checks up to
      `v`, and then the end. */
  ghost predicate RunShape(log: seq<Event>, start: nat, op: NetOp, rollback: nat, r: nat, c: nat, a: nat, v: nat) {
    && Opens(log, rollback, r, c)
    && (c < |log| ==>
          && c > r
          && (log[c - 1].good || (Harmless(op) && !log[c - 1].ran))
          && Shape(log, c, a, v, log[c - 1].good, |Commands(op, Effect(0, Config(0, 0)))|,
                   log[r].start + 1000 * rollback - VERIFY_MARGIN,
                   log[c - 1].end + 1000 * rollback + ROLLBACK_GRACE))
  }

  /** `CreateCheckpoint` makes one call, or two when the first finds no tool. */
  lemma CreateAdds(env: Schedule, w: World, rollback: nat)
    ensures var (w', made) := CreateCheckpoint(env, w, rollback);
            && w.log <= w'.log && |w'.log| <= |w.log| + 2
            && (forall i :: |w.log| <= i < |w'.log| ==> w'.log[i].request == Create(rollback))
            && (forall i :: |w.log| <= i < |w'.log| - 1 ==> !w'.log[i].ran)
            && (made.Created? ==> |w'.log| > |w.log| && w'.log[|w'.log| - 1].good)
            && (|w'.log| > |w.log| ==> w'.clock == w'.log[|w'.log| - 1].end)
            && (made.Unavailable? && !w'.cancelled ==> |w'.log| > |w.log| && !w'.log[|w'.log| - 1].ran)
            && (|w'.log| > |w.log| ==> w'.log[|w.log|].start == w.clock)
            && (w'.log == w.log ==> w'.cancelled)
            && (!made.Created? && |w'.log| > |w.log| ==> !w'.log[|w'.log| - 1].good)
  {}

  lemma ResolveAdds(env: Schedule, w: World, op: NetOp)
    ensures var (w', failed) := Resolve(env, w, op);
            && w.log <= w'.log && |w'.log| <= |w.log| + 1
            && (forall i :: |w.log| <= i < |w'.log| ==> w'.log[i].request == Lookup)
  {}

  lemma CancelledStays(env: Schedule, w: World, changes: seq<NetworkManager.Change>, wait: nat, made: bool,
                       until: int, rollbackBy: nat)
    requires w.cancelled
    ensures UnderCheckpoint(env, w, changes, wait, made, until, rollbackBy).0.log == w.log
  {}

  /** The log of `w2`, after lookup and checkpoint, which started from an empty one by way of `w1`. */
  lemma Opened(env: Schedule, w: World, w1: World, op: NetOp, rollback: nat)
    requires w.log == [] && w1 == Resolve(env, w, op).0
    ensures var (w2, made) := CreateCheckpoint(env, w1, rollback);
            && w1.log <= w2.log && Opens(w1.log, rollback, |w1.log|, |w1.log|)
            && Opens(w2.log, rollback, |w1.log|, |w2.log|)
  {
    hide Resolve, CreateCheckpoint;
    ResolveAdds(env, w, op);
    CreateAdds(env, w1, rollback);
  }

  lemma OpensStill(log: seq<Event>, more: seq<Event>, rollback: nat, r: nat, c: nat)
    requires Opens(log, rollback, r, c) && log <= more
    ensures Opens(more, rollback, r, c)
  {}

  lemma RunHasShape(env: Schedule, w: World, op: NetOp, effect: Effect, rollback: nat)
    returns (r: nat, c: nat, a: nat, v: nat)
    requires w.log == []
    ensures RunShape(Run(env, w, op, effect, rollback).0.log, w.clock, op, rollback, r, c, a, v)
  {
    hide Resolve, CreateCheckpoint, UnderCheckpoint, Shape, NmcliWait, Harmless, Opens;
    var (w1, failed) := Resolve(env, w, op);
    Opened(env, w, w1, op, rollback);
    r, c, a, v := |w1.log|, |w1.log|, |w1.log|, |w1.log|;
    if failed.None? {
      var (w2, made) := CreateCheckpoint(env, w1, rollback);
      CreateAdds(env, w1, rollback);
      c := |w2.log|;
      if !made.Refused? && !(made.Unavailable? && !Harmless(op)) {
        var changes, wait := Commands(op, effect), NmcliWait(rollback);
        var until, due := Until(w1, rollback), By(w2, rollback);
        if w2.cancelled {
          CancelledStays(env, w2, changes, wait, made.Created?, until, due);
        } else {
          a, v := UnderCheckpointShape(env, w2, changes, wait, made.Created?, until, due);
          OpensStill(w2.log, Run(env, w, op, effect, rollback).0.log, rollback, r, c);
        }
      }
    }
  }

  // ----- The discipline of every run -----

  /** No attempt to create a checkpoint but the last finds its tool, and none follows a change. */
  ghost predicate OneCheckpoint(log: seq<Event>) {
    forall i, j :: 0 <= i < j < |log| && log[j].request.Create? ==>
      && !log[i].request.Apply?
      && (log[i].request.Create? ==> !log[i].ran)
  }

  /** Every change comes after a checkpoint NetworkManager confirmed, unless the operation is harmless
      and no D-Bus tool was found. */
  ghost predicate ChangesGuarded(log: seq<Event>, op: NetOp) {
    forall j :: 0 <= j < |log| && log[j].request.Apply? ==>
      || (exists i :: 0 <= i < j && log[i].request.Create? && log[i].good)
      || (Harmless(op) && forall i :: 0 <= i < j && log[i].request.Create? ==> !log[i].ran)
  }

  /** A checkpoint is destroyed only straight after a good platform check, never after a rollback was
      asked for; once that is confirmed nothing more is asked, and until it is only the rollback is
      waited for. */
  ghost predicate DestroyedRightly(log: seq<Event>) {
    forall j :: 0 <= j < |log| && log[j].request.Destroy? ==>
      && j > 0 && log[j - 1].request.PlatformCheck? && log[j - 1].good
      && (forall i :: 0 <= i < j ==> !log[i].request.Rollback? && !log[i].request.Destroy?)
      && (log[j].good ==> j == |log| - 1)
      && (forall i :: j < i < |log| ==> log[i].request.ListPending? || log[i].request.Rollback?)
  }

  lemma ShapeOneCheckpoint(log: seq<Event>, start: nat, op: NetOp, rollback: nat, r: nat, c: nat, a: nat, v: nat)
    requires RunShape(log, start, op, rollback, r, c, a, v)
    ensures OneCheckpoint(log)
  {
    ShapeKinds(log, start, op, rollback, r, c, a, v);
  }

  lemma ShapeGuards(log: seq<Event>, start: nat, op: NetOp, rollback: nat, r: nat, c: nat, a: nat, v: nat)
    requires RunShape(log, start, op, rollback, r, c, a, v)
    ensures ChangesGuarded(log, op)
  {
    ShapeKinds(log, start, op, rollback, r, c, a, v);
  }

  lemma ShapeDestroysRightly(log: seq<Event>, start: nat, op: NetOp, rollback: nat, r: nat, c: nat, a: nat, v: nat)
    requires RunShape(log, start, op, rollback, r, c, a, v)
    ensures DestroyedRightly(log)
  {
    hide RunShape;
    ShapeKinds(log, start, op, rollback, r, c, a, v);
  }

  /** Which requests come where. */
  lemma ShapeKinds(log: seq<Event>, start: nat, op: NetOp, rollback: nat, r: nat, c: nat, a: nat, v: nat)
    requires RunShape(log, start, op, rollback, r, c, a, v)
    ensures r <= c <= |log|
    ensures forall i :: 0 <= i < |log| && log[i].request.Create? ==> r <= i < c
    ensures forall i :: 0 <= i < |log| && log[i].request.Apply? ==> c <= i
    ensures forall i :: 0 <= i < |log| && (log[i].request.Rollback? || log[i].request.Destroy?) ==> c < |log| && v <= i
    ensures forall i :: 0 <= i < |log| && log[i].request.Destroy? ==>
              i == v && v > 0 && log[v - 1].request.PlatformCheck? && log[v - 1].good
                  && (log[v].good ==> v == |log| - 1)
    ensures forall i :: v < i < |log| && c < |log| ==> log[i].request.ListPending? || log[i].request.Rollback?
  {
    if c < |log| {
      EndKinds(log, c, a, v, log[c - 1].end + 1000 * rollback + ROLLBACK_GRACE);
    }
  }

  /** For every operation and over every schedule. */
  lemma TraceDiscipline(env: Schedule, w: World, op: NetOp, effect: Effect, rollback: nat)
    requires w.log == []
    ensures var log := Run(env, w, op, effect, rollback).0.log;
            OneCheckpoint(log) && ChangesGuarded(log, op) && DestroyedRightly(log)
  {
    hide Run, RunShape, OneCheckpoint, ChangesGuarded, DestroyedRightly;
    var log := Run(env, w, op, effect, rollback).0.log;
    var r, c, a, v := RunHasShape(env, w, op, effect, rollback);
    ShapeOneCheckpoint(log, w.clock, op, rollback, r, c, a, v);
    ShapeGuards(log, w.clock, op, rollback, r, c, a, v);
    ShapeDestroysRightly(log, w.clock, op, rollback, r, c, a, v);
  }

  // ----- Cancellation -----

  /** What had been started when the request was first found cancelled, be it in a call or in a pause, is
      all that ever was; a call it was cancelled in is the last. And the flag stays set. */
  ghost predicate Calm(w: World) {
    && (w.cancelled <==> w.upTo.Some?)
    && (w.upTo.Some? ==> |w.log| == w.upTo.value)
    && forall i :: 0 <= i < |w.log| && w.log[i].cancelled ==> i == |w.log| - 1 && w.cancelled
  }

  /** Nothing has been started yet. */
  predicate Fresh(w: World) {
    w.log == [] && w.upTo == if w.cancelled then Some(0) else None
  }

  lemma CallCalm(env: Schedule, w: World, request: Request)
    requires Calm(w)
    ensures Calm(Call(env, w, request).0)
    ensures w.cancelled ==> Call(env, w, request).0 == w
  {}

  lemma SleepCalm(env: Schedule, w: World, duration: nat)
    requires Calm(w)
    ensures Calm(Sleep(env, w, duration))
  {}

  lemma {:induction false} ApplyCalm(env: Schedule, w: World, changes: seq<NetworkManager.Change>, wait: nat)
    requires Calm(w)
    ensures Calm(ApplyAll(env, w, changes, wait).0)
    decreases |changes|
  {
    hide Call, Calm;
    if changes != [] {
      CallCalm(env, w, Apply(changes[0], wait));
      ApplyCalm(env, Call(env, w, Apply(changes[0], wait)).0, changes[1..], wait);
    }
  }

  lemma {:induction false} PollCalm(env: Schedule, w: World, until: int)
    requires Calm(w)
    ensures Calm(Poll(env, w, until).0)
    decreases Left(w, until)
  {
    hide Calm;
    var (w1, a) := Call(env, w, PlatformCheck);
    CallCalm(env, w, PlatformCheck);
    if !a.Good? && !w1.cancelled && w1.clock + VERIFY_POLL < until {
      SleepCalm(env, w1, VERIFY_POLL);
      PollCalm(env, Sleep(env, w1, VERIFY_POLL), until);
    }
  }

  lemma AwaitCalm(env: Schedule, w: World, rollbackBy: nat)
    requires Calm(w)
    ensures Calm(AwaitRollback(env, w, rollbackBy).0)
  {
    hide Call, Calm, Sleep;
    var w1 := Sleep(env, w, if rollbackBy > w.clock then rollbackBy - w.clock else 0);
    SleepCalm(env, w, if rollbackBy > w.clock then rollbackBy - w.clock else 0);
    CallCalm(env, w1, ListPending);
    CallCalm(env, Call(env, w1, ListPending).0, Rollback);
  }

  lemma UnderCheckpointCalm(env: Schedule, w: World, changes: seq<NetworkManager.Change>, wait: nat, made: bool,
                            until: int, rollbackBy: nat)
    requires Calm(w)
    ensures Calm(UnderCheckpoint(env, w, changes, wait, made, until, rollbackBy).0)
  {
    hide Call, Calm, ApplyAll, Poll, AwaitRollback;
    var (w1, ok) := ApplyAll(env, w, changes, wait);
    ApplyCalm(env, w, changes, wait);
    PollCalm(env, w1, until);
    var w2 := Verify(env, w1, until).0;
    CallCalm(env, w1, Rollback);
    CallCalm(env, w2, Destroy);
    AwaitCalm(env, Call(env, w1, Rollback).0, rollbackBy);
    AwaitCalm(env, Call(env, w2, Destroy).0, rollbackBy);
    AwaitCalm(env, w2, rollbackBy);
  }

  /** Once the request is cancelled no tool is started, whether that happened during a call, between
      checks, or while waiting for the rollback: what had been started by then is all there is. A request
      cancelled before anything started runs nothing. */
  lemma NothingAfterCancel(env: Schedule, w: World, op: NetOp, effect: Effect, rollback: nat)
    requires Fresh(w)
    ensures Calm(Run(env, w, op, effect, rollback).0)
    ensures w.cancelled ==> Run(env, w, op, effect, rollback).0.log == []
  {
    hide Call, Calm, UnderCheckpoint;
    assert Calm(w) by { EmptyIsCalm(w); }
    CallCalm(env, w, Lookup);
    var w1 := Resolve(env, w, op).0;
    CallCalm(env, w1, Create(rollback));
    CallCalm(env, Call(env, w1, Create(rollback)).0, Create(rollback));
    var (w2, made) := CreateCheckpoint(env, w1, rollback);
    UnderCheckpointCalm(env, w2, Commands(op, effect), NmcliWait(rollback), made.Created?, Until(w1, rollback),
                        By(w2, rollback));
    if w.cancelled {
      CancelledStays(env, w2, Commands(op, effect), NmcliWait(rollback), made.Created?, Until(w1, rollback),
                     By(w2, rollback));
    }
  }

  lemma EmptyIsCalm(w: World)
    requires Fresh(w)
    ensures Calm(w)
  {}

  /** Which requests can come where after the checks. */
  lemma EndKinds(log: seq<Event>, from: nat, a: nat, v: nat, rollbackBy: nat)
    requires Ends(log, from, a, v, rollbackBy)
    ensures |log| <= v + 3
    ensures forall i :: v < i < |log| ==> log[i].request.ListPending? || log[i].request.Rollback?
    ensures forall i :: v <= i < |log| && log[i].request.ListPending? ==> log[i].start >= rollbackBy
    ensures v < |log| && !log[v].request.ListPending? ==>
              || (log[v].request.Destroy? && v > a && log[v - 1].good)
              || (log[v].request.Rollback? && v == a > from && !log[a - 1].good)
    ensures v < |log| && !log[v].request.ListPending? && log[v].good ==> |log| == v + 1
  {
    if Waits(log, v, rollbackBy) {
      WaitKinds(log, v, rollbackBy);
    } else {
      WaitKinds(log, v + 1, rollbackBy);
    }
  }

  lemma WaitKinds(log: seq<Event>, from: nat, rollbackBy: nat)
    requires Waits(log, from, rollbackBy)
    ensures |log| <= from + 2
    ensures from < |log| ==> log[from].request == ListPending && log[from].start >= rollbackBy
    ensures from + 1 < |log| ==> log[from + 1].request == Rollback
  {
    var kinds := Kinds(log[from..]);
    assert forall i :: from <= i < |log| ==> kinds[i - from] == log[i].request;
  }
}
