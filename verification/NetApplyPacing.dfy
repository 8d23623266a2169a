/** When `net_apply` does what: every call starts as soon as the one before is over, but for the pauses it
    makes on purpose; it makes the changes it was asked for, all of them before it checks; and it does not
    give up on the platform early. */
module NetApplyPacing {
  import opened Wrappers
  import opened NetworkManager
  import opened NetApply
  import opened NetApplySafety

  // ----- When a call starts -----

  /** When a call starts that follows one that ended at `ended`: at once, but three seconds later when it
      checks the platform again, and no sooner than `due` when it asks after the rollback. */
  function StartOf(ended: nat, checkedBefore: bool, request: Request, due: nat): nat {
    match request
    case PlatformCheck => if checkedBefore then ended + 3000 else ended
    case ListPending => if ended < due then due else ended
    case _ => ended
  }

  ghost predicate PacedAt(log: seq<Event>, i: nat, from: nat, start: nat, due: nat)
    requires from <= i < |log|
  {
    log[i].start == StartOf(if i == from then start else log[i - 1].end,
                            i > from && log[i - 1].request.PlatformCheck?, log[i].request, due)
  }

  /** So does every call from the `from`-th on, which follows something that ended at `start`. */
  ghost predicate Paced(log: seq<Event>, from: nat, start: nat, due: nat) {
    forall i :: from <= i < |log| ==> PacedAt(log, i, from, start, due)
  }

  function EndOf(log: seq<Event>, from: nat, start: nat): nat
    requires from <= |log|
  {
    if |log| == from then start else log[|log| - 1].end
  }

  lemma PacedOn(l: seq<Event>, l': seq<Event>, from: nat, start: nat, due: nat)
    requires from <= |l| && l <= l' && Paced(l, from, start, due) && Paced(l', |l|, EndOf(l, from, start), due)
    requires from < |l| < |l'| ==> !(l[|l| - 1].request.PlatformCheck? && l'[|l|].request.PlatformCheck?)
    ensures Paced(l', from, start, due)
  {
    forall i | from <= i < |l'|
      ensures PacedAt(l', i, from, start, due)
    {
      if i < |l| {
        assert PacedAt(l, i, from, start, due);
      } else {
        assert PacedAt(l', i, |l|, EndOf(l, from, start), due);
      }
    }
  }

  lemma NothingPaced(l: seq<Event>, start: nat, due: nat)
    ensures Paced(l, |l|, start, due)
  {}

  /** One call: it starts at once, unless it is to wait. */
  lemma CallPaced(env: Schedule, w: World, request: Request, due: nat)
    requires request.ListPending? ==> w.clock >= due
    ensures var w' := Call(env, w, request).0;
            && w.log <= w'.log && Paced(w'.log, |w.log|, w.clock, due)
            && w'.clock == EndOf(w'.log, |w.log|, w.clock)
            && |w'.log| <= |w.log| + 1 && (forall i :: |w.log| <= i < |w'.log| ==> w'.log[i].request == request)
  {}

  lemma {:induction false} ApplyPaced(env: Schedule, w: World, changes: seq<NetworkManager.Change>, wait: nat, due: nat)
    ensures var (w', ok) := ApplyAll(env, w, changes, wait);
            && w.log <= w'.log && Paced(w'.log, |w.log|, w.clock, due)
            && w'.clock == EndOf(w'.log, |w.log|, w.clock)
            && |w'.log| <= |w.log| + |changes|
            && (forall i :: |w.log| <= i < |w'.log| ==> w'.log[i].request == Apply(changes[i - |w.log|], wait))
    decreases |changes|
  {
    hide Call, Paced;
    NothingPaced(w.log, w.clock, due);
    if changes != [] {
      var (w1, a) := Call(env, w, Apply(changes[0], wait));
      CallPaced(env, w, Apply(changes[0], wait), due);
      if a.Good? {
        CallGrew(env, w, Apply(changes[0], wait));
        ApplyPaced(env, w1, changes[1..], wait, due);
        PacedOn(w1.log, ApplyAll(env, w, changes, wait).0.log, |w.log|, w.clock, due);
      }
    }
  }

  lemma CallGrew(env: Schedule, w: World, request: Request)
    ensures var (w', a) := Call(env, w, request);
            a.Good? ==> |w'.log| == |w.log| + 1 && w'.log[|w.log|].good
    ensures var w' := Call(env, w, request).0; w.cancelled ==> w' == w
  {}

  /** Checks, three seconds apart; and when they end without a good one, nothing having been cancelled,
      there was no time left for the next. */
  lemma {:induction false} PollPaced(env: Schedule, w: World, until: int, due: nat)
    ensures var (w', ok) := Poll(env, w, until);
            && w.log <= w'.log && Paced(w'.log, |w.log|, w.clock, due)
            && (forall i :: |w.log| <= i < |w'.log| ==> w'.log[i].request.PlatformCheck?)
            && (ok || !w'.cancelled ==> |w'.log| > |w.log| && w'.clock == w'.log[|w'.log| - 1].end)
            && (!ok && !w'.cancelled ==> w'.clock + 3000 >= until)
    decreases Left(w, until)
  {
    hide Call, Paced, Left;
    var (w1, a) := Call(env, w, PlatformCheck);
    CallPaced(env, w, PlatformCheck, due);
    CallGrew(env, w, PlatformCheck);
    CallCounts(env, w, PlatformCheck);
    if !a.Good? && !w1.cancelled && w1.clock + VERIFY_POLL < until {
      PollLess(env, w, until);
      var w2 := Sleep(env, w1, VERIFY_POLL);
      PollPaced(env, w2, until, due);
      var w' := Poll(env, w, until).0;
      if w2.cancelled {
        NothingWhenCancelled(env, w2, until);
      } else {
        assert w2.clock == w1.clock + 3000;
        ChecksOn(w1.log, w'.log, |w.log|, w.clock, due);
      }
    }
  }

  lemma CallCounts(env: Schedule, w: World, request: Request)
    ensures !w.cancelled ==> |Call(env, w, request).0.log| == |w.log| + 1
  {}

  lemma NothingWhenCancelled(env: Schedule, w: World, until: int)
    requires w.cancelled
    ensures Poll(env, w, until) == (w, false)
  {}

  lemma ChecksOn(l: seq<Event>, l': seq<Event>, from: nat, start: nat, due: nat)
    requires |l| == from + 1 && l <= l' && Paced(l, from, start, due) && Paced(l', |l|, l[from].end + 3000, due)
    requires forall i :: from <= i < |l'| ==> l'[i].request.PlatformCheck?
    ensures Paced(l', from, start, due)
  {
    forall i | from <= i < |l'|
      ensures PacedAt(l', i, from, start, due)
    {
      if i == from {
        assert PacedAt(l, i, from, start, due);
      } else {
        assert PacedAt(l', i, |l|, l[from].end + 3000, due);
      }
    }
  }

  lemma VerifyPaced(env: Schedule, w: World, until: int, due: nat)
    ensures var (w', ok) := Verify(env, w, until);
            && w.log <= w'.log && Paced(w'.log, |w.log|, w.clock, due)
            && (forall i :: |w.log| <= i < |w'.log| ==> w'.log[i].request.PlatformCheck?)
            && (ok || !w'.cancelled ==> w'.clock == EndOf(w'.log, |w.log|, w.clock))
            && (!ok && !w'.cancelled ==> w'.clock + (if w'.log == w.log then 0 else 3000) >= until)
  {
    hide Poll, Paced;
    NothingPaced(w.log, w.clock, due);
    PollPaced(env, w, until, due);
  }

  lemma AwaitPaced(env: Schedule, w: World, due: nat)
    ensures var w' := AwaitRollback(env, w, due).0;
            && w.log <= w'.log && Paced(w'.log, |w.log|, w.clock, due)
            && (forall i :: |w.log| <= i < |w'.log| ==> w'.log[i].request.ListPending? || w'.log[i].request.Rollback?)
  {}

  /** A call and then the wait. */
  lemma CallThenAwait(env: Schedule, w: World, request: Request, due: nat)
    requires request.Rollback? || request.Destroy?
    ensures var w1 := Call(env, w, request).0;
            var w2 := AwaitRollback(env, w1, due).0;
            && w.log <= w1.log <= w2.log
            && Paced(w1.log, |w.log|, w.clock, due) && Paced(w2.log, |w.log|, w.clock, due)
            && (forall i :: |w.log| <= i < |w2.log| ==> !w2.log[i].request.PlatformCheck? && !w2.log[i].request.Apply?)
  {
    hide Call, AwaitRollback, Paced;
    var w1 := Call(env, w, request).0;
    CallPaced(env, w, request, due);
    AwaitPaced(env, w1, due);
    PacedOn(w1.log, AwaitRollback(env, w1, due).0.log, |w.log|, w.clock, due);
  }

  /** What follows the changes: nothing, or checks, and then no more of either. */
  lemma UnderCheckpointPaced(env: Schedule, w: World, changes: seq<NetworkManager.Change>, wait: nat, made: bool,
                             until: int, due: nat)
    ensures var w' := UnderCheckpoint(env, w, changes, wait, made, until, due).0;
            w.log <= w'.log && Paced(w'.log, |w.log|, w.clock, due)
  {
    hide Call, ApplyAll, Verify, AwaitRollback, Paced;
    var w' := UnderCheckpoint(env, w, changes, wait, made, until, due).0;
    var (w1, ok) := ApplyAll(env, w, changes, wait);
    ApplyPaced(env, w, changes, wait, due);
    if !ok {
      if !w1.cancelled && made {
        CallThenAwait(env, w1, Rollback, due);
        PacedOn(w1.log, w'.log, |w.log|, w.clock, due);
      }
    } else {
      var (w2, reachable) := Verify(env, w1, until);
      VerifyPaced(env, w1, until, due);
      PacedOn(w1.log, w2.log, |w.log|, w.clock, due);
      if !w2.cancelled && made {
        assert w2.clock == EndOf(w2.log, |w.log|, w.clock);
        CallThenAwait(env, w2, Destroy, due);
        AwaitPaced(env, w2, due);
        PacedOn(w2.log, w'.log, |w.log|, w.clock, due);
      }
    }
  }

  lemma OpeningPaced(env: Schedule, w: World, op: NetOp, rollback: nat, due: nat)
    requires w.log == []
    ensures var w1 := Resolve(env, w, op).0;
            var w2 := CreateCheckpoint(env, w1, rollback).0;
            && Paced(w1.log, 0, w.clock, due) && w1.log <= w2.log && Paced(w2.log, 0, w.clock, due)
            && w2.clock == EndOf(w2.log, 0, w.clock)
            && (forall i :: 0 <= i < |w2.log| ==> w2.log[i].request.Lookup? || w2.log[i].request.Create?)
  {
    hide Call, Paced;
    NothingPaced(w.log, w.clock, due);
    CallPaced(env, w, Lookup, due);
    var w1 := Resolve(env, w, op).0;
    CallPaced(env, w1, Create(rollback), due);
    var w2 := Call(env, w1, Create(rollback)).0;
    PacedOn(w1.log, w2.log, 0, w.clock, due);
    CallPaced(env, w2, Create(rollback), due);
    PacedOn(w2.log, Call(env, w2, Create(rollback)).0.log, 0, w.clock, due);
  }

  /** In every run each call starts the moment the one before is over, the first at once, but for these:
      after a failed check the next comes three seconds later, and the pending checkpoints are read two
      seconds after the rollback is due, counted from when the checkpoint was confirmed, if it is not
      later already. */
  lemma EverythingInTime(env: Schedule, w: World, op: NetOp, effect: Effect, rollback: nat)
    requires w.log == []
    ensures var log := Run(env, w, op, effect, rollback).0.log;
            exists due: nat ::
              && Paced(log, 0, w.clock, due)
              && forall c :: 0 <= c < |log| && log[c].request.Create? && log[c].good ==>
                   due == log[c].end + 1000 * rollback + 2000
  {
    hide Resolve, CreateCheckpoint, UnderCheckpoint, Paced, RunShape;
    var (w1, failed) := Resolve(env, w, op);
    var (w2, made) := CreateCheckpoint(env, w1, rollback);
    var due := By(w2, rollback);
    var log := Run(env, w, op, effect, rollback).0.log;
    OpeningPaced(env, w, op, rollback, due);
    UnderCheckpointPaced(env, w2, Commands(op, effect), NmcliWait(rollback), made.Created?, Until(w1, rollback), due);
    if w2.log <= log {
      PacedOn(w2.log, UnderCheckpoint(env, w2, Commands(op, effect), NmcliWait(rollback), made.Created?,
                                      Until(w1, rollback), due).0.log, 0, w.clock, due);
    }
    assert Paced(log, 0, w.clock, due);
    forall c | 0 <= c < |log| && log[c].request.Create? && log[c].good
      ensures due == log[c].end + 1000 * rollback + 2000
    {
      CreatedLast(env, w, op, effect, rollback, c);
    }
  }

  /** A confirmed checkpoint is what the run goes on from. */
  lemma CreatedLast(env: Schedule, w: World, op: NetOp, effect: Effect, rollback: nat, c: nat)
    requires w.log == []
    requires var log := Run(env, w, op, effect, rollback).0.log;
             c < |log| && log[c].request.Create? && log[c].good
    ensures var log := Run(env, w, op, effect, rollback).0.log;
            var w2 := CreateCheckpoint(env, Resolve(env, w, op).0, rollback).0;
            w2.clock == log[c].end
  {
    hide Resolve, CreateCheckpoint, UnderCheckpoint;
    var (w1, failed) := Resolve(env, w, op);
    ResolveAdds(env, w, op);
    if failed.None? {
      var (w2, made) := CreateCheckpoint(env, w1, rollback);
      CreateAdds(env, w1, rollback);
      NotMadeNotGood(env, w1, rollback);
      if !made.Refused? && !(made.Unavailable? && !Harmless(op)) {
        var a, v := UnderCheckpointShape(env, w2, Commands(op, effect), NmcliWait(rollback), made.Created?,
                                         Until(w1, rollback), By(w2, rollback));
        NoCreatesAfter(Run(env, w, op, effect, rollback).0.log, |w2.log|, a, v, made.Created?, |Commands(op, effect)|,
                       Until(w1, rollback), By(w2, rollback));
      }
    }
  }

  lemma NotMadeNotGood(env: Schedule, w: World, rollback: nat)
    ensures var (w', made) := CreateCheckpoint(env, w, rollback);
            && (forall i :: |w.log| <= i < |w'.log| && w'.log[i].good ==> made.Created? && i == |w'.log| - 1)
  {}

  lemma NoCreatesAfter(log: seq<Event>, from: nat, a: nat, v: nat, made: bool, changes: nat, until: int, due: nat)
    requires Shape(log, from, a, v, made, changes, until, due)
    ensures forall i :: from <= i < |log| ==> !log[i].request.Create?
  {
    EndKinds(log, from, a, v, due);
  }

  // ----- Pauses end when the request is cancelled -----

  /** Waiting for the rollback ends when the request is cancelled, with nothing asked. */
  lemma WaitCutShort(env: Schedule, w: World, due: nat)
    requires !w.cancelled && env(w.calls).cancel && w.clock + env(w.calls).delay < due
    ensures var w' := AwaitRollback(env, w, due).0;
            w'.cancelled && w'.clock == w.clock + env(w.calls).delay && w'.log == w.log && w'.nm == w.nm
  {}

  /** So does the pause after a failed check. */
  lemma PollCutShort(env: Schedule, w: World, until: int)
    requires var (w1, a) := Call(env, w, PlatformCheck);
             && !a.Good? && !w1.cancelled && w1.clock + 3000 < until
             && env(w1.calls).cancel && env(w1.calls).delay < 3000
    ensures var (w1, a) := Call(env, w, PlatformCheck);
            var (w', ok) := Poll(env, w, until);
            !ok && w'.cancelled && w'.clock == w1.clock + env(w1.calls).delay && w'.log == w1.log && w'.nm == w1.nm
  {
    hide CallEvent, Left;
    var w2 := Sleep(env, Call(env, w, PlatformCheck).0, VERIFY_POLL);
    NothingWhenCancelled(env, w2, until);
  }

  // ----- The changes -----

  /** Seconds nmcli is told to wait: as long as leaves twenty for the rest, but ten at least, 45 at most. */
  lemma WaitInNumbers(rollback: nat)
    requires ValidRollback(rollback)
    ensures 10 <= NmcliWait(rollback) <= 45 && NmcliWait(rollback) + 20 <= rollback
    ensures NmcliWait(rollback) < 45 ==> NmcliWait(rollback) + 20 == rollback
  {}

  /** From event `c` on: the changes, in order, and no check before all of them were good. */
  ghost predicate MakesThem(log: seq<Event>, c: nat, changes: seq<NetworkManager.Change>, wait: nat) {
    && c <= |log|
    && (forall i :: 0 <= i < c ==> !log[i].request.Apply? && !log[i].request.PlatformCheck?)
    && (forall i :: c <= i < |log| && log[i].request.Apply? ==>
          i - c < |changes| && log[i].request == Apply(changes[i - c], wait))
    && (forall i :: c <= i < |log| && log[i].request.PlatformCheck? ==>
          && i - c >= |changes|
          && forall j :: c <= j < c + |changes| ==> log[j].request.Apply? && log[j].good)
  }

  lemma MakesApplied(l: seq<Event>, c: nat, changes: seq<NetworkManager.Change>, wait: nat)
    requires c <= |l| <= c + |changes|
    requires forall i :: 0 <= i < c ==> !l[i].request.Apply? && !l[i].request.PlatformCheck?
    requires forall i :: c <= i < |l| ==> l[i].request == Apply(changes[i - c], wait)
    ensures MakesThem(l, c, changes, wait)
  {}

  /** More events, no changes among them, and checks only if all changes are made. */
  lemma MakesMore(l: seq<Event>, l': seq<Event>, c: nat, changes: seq<NetworkManager.Change>, wait: nat)
    requires MakesThem(l, c, changes, wait) && l <= l'
    requires forall i :: |l| <= i < |l'| ==> !l'[i].request.Apply?
    requires (forall i :: |l| <= i < |l'| ==> !l'[i].request.PlatformCheck?)
          || (|l| >= c + |changes| && forall j :: c <= j < c + |changes| ==> l[j].request.Apply? && l[j].good)
    ensures MakesThem(l', c, changes, wait)
  {
    forall i | c <= i < |l'| && l'[i].request.PlatformCheck?
      ensures i - c >= |changes| && forall j :: c <= j < c + |changes| ==> l'[j].request.Apply? && l'[j].good
    {
      if i < |l| {
        assert l[i].request.PlatformCheck?;
      }
    }
  }

  lemma UnderCheckpointMakes(env: Schedule, w: World, changes: seq<NetworkManager.Change>, wait: nat, made: bool,
                             until: int, due: nat)
    requires forall i :: 0 <= i < |w.log| ==> !w.log[i].request.Apply? && !w.log[i].request.PlatformCheck?
    ensures MakesThem(UnderCheckpoint(env, w, changes, wait, made, until, due).0.log, |w.log|, changes, wait)
  {
    hide Call, ApplyAll, Verify, AwaitRollback, Paced, MakesThem;
    var w' := UnderCheckpoint(env, w, changes, wait, made, until, due).0;
    var (w1, ok) := ApplyAll(env, w, changes, wait);
    ApplyPaced(env, w, changes, wait, due);
    ApplyAdds(env, w, changes, wait);
    MakesApplied(w1.log, |w.log|, changes, wait);
    if !ok {
      if !w1.cancelled && made {
        CallThenAwait(env, w1, Rollback, due);
        MakesMore(w1.log, w'.log, |w.log|, changes, wait);
      }
    } else {
      var w2 := Verify(env, w1, until).0;
      VerifyPaced(env, w1, until, due);
      MakesMore(w1.log, w2.log, |w.log|, changes, wait);
      if !w2.cancelled && made {
        CallThenAwait(env, w2, Destroy, due);
        AwaitPaced(env, w2, due);
        MakesMore(w2.log, w'.log, |w.log|, changes, wait);
      }
    }
  }

  /** In every run the changes made are the operation's own, in order, each with nmcli's wait for this
      rollback time; and the platform is checked only when all of them have been made. */
  lemma ChangesAreThose(env: Schedule, w: World, op: NetOp, effect: Effect, rollback: nat)
    requires w.log == []
    ensures exists c: nat ::
              MakesThem(Run(env, w, op, effect, rollback).0.log, c, Commands(op, effect), NmcliWait(rollback))
  {
    hide Resolve, CreateCheckpoint, UnderCheckpoint, NmcliWait;
    var (w1, failed) := Resolve(env, w, op);
    var (w2, made) := CreateCheckpoint(env, w1, rollback);
    OpeningPaced(env, w, op, rollback, By(w2, rollback));
    var log := Run(env, w, op, effect, rollback).0.log;
    UnderCheckpointMakes(env, w2, Commands(op, effect), NmcliWait(rollback), made.Created?, Until(w1, rollback),
                         By(w2, rollback));
    assert log == w1.log || log == w2.log || MakesThem(log, |w2.log|, Commands(op, effect), NmcliWait(rollback));
    assert log == w1.log || log == w2.log ==> MakesThem(log, |log|, Commands(op, effect), NmcliWait(rollback));
  }

  // ----- Giving up -----

  /** Event `m` is the last change or check before `until`, or too close to it for another check. */
  ghost predicate LastTry(log: seq<Event>, m: nat, until: int) {
    && m < |log|
    && (log[m].request.Apply? || log[m].request.PlatformCheck?)
    && (log[m].request.Apply? ==> log[m].end >= until)
    && (log[m].request.PlatformCheck? ==> log[m].end + 3000 >= until)
    && forall i :: m < i < |log| ==> !log[i].request.Apply? && !log[i].request.PlatformCheck?
  }

  /** The report that the platform did not answer. */
  predicate SaysUnreachable(result: Result<Outcome, Failure>) {
    && result.Ok? && result.value.reason.Some?
    && (result.value.reason.value.Unreachable? || result.value.reason.value.UnreachableKept?)
  }

  lemma UnderCheckpointTries(env: Schedule, w: World, changes: seq<NetworkManager.Change>, wait: nat, made: bool,
                             until: int, due: nat)
    requires changes != []
    ensures var (w', result) := UnderCheckpoint(env, w, changes, wait, made, until, due);
            SaysUnreachable(result) ==>
              exists m: nat :: |w.log| <= m && LastTry(w'.log, m, until)
  {
    hide Call, ApplyAll, Verify, AwaitRollback, Paced;
    var (w1, ok) := ApplyAll(env, w, changes, wait);
    ApplyPaced(env, w, changes, wait, due);
    ApplyAdds(env, w, changes, wait);
    if ok {
      var (w2, reachable) := Verify(env, w1, until);
      VerifyPaced(env, w1, until, due);
      AwaitPaced(env, w2, due);
      if !reachable && !w2.cancelled {
        var m := |w2.log| - 1;
        if w2.log == w1.log {
          assert w1.log[m].request == Apply(changes[m - |w.log|], wait);
        }
        assert LastTry(w2.log, m, until);
        assert LastTry(AwaitRollback(env, w2, due).0.log, m, until);
      }
    }
  }

  /** `r` is the first attempt at a checkpoint, and `m` the last try in the time counted from it. */
  ghost predicate GaveUpLate(log: seq<Event>, rollback: nat, r: nat, m: nat) {
    && r < m < |log| && log[r].request.Create? && (forall i :: 0 <= i < r ==> !log[i].request.Create?)
    && LastTry(log, m, log[r].start + 1000 * rollback - 10000)
  }

  /** A run that reports the platform unreachable did not give up early: it went on checking until it was
      too late for another check three seconds on, ten seconds before the rollback, counted from when the
      checkpoint was first asked for; or the changes took all that time. */
  lemma GivesUpLate(env: Schedule, w: World, op: NetOp, effect: Effect, rollback: nat)
    requires w.log == []
    ensures var (w', result) := Run(env, w, op, effect, rollback);
            SaysUnreachable(result) ==>
              exists r: nat, m: nat :: GaveUpLate(w'.log, rollback, r, m)
  {
    hide Resolve, CreateCheckpoint, UnderCheckpoint, LastTry, Paced, NmcliWait, Harmless, Commands;
    var (w1, failed) := Resolve(env, w, op);
    var (w2, made) := CreateCheckpoint(env, w1, rollback);
    var changes, wait, until, due := Commands(op, effect), NmcliWait(rollback), Until(w1, rollback), By(w2, rollback);
    AskedOnce(env, w, op, rollback);
    SomeCommands(op, effect);
    UnderCheckpointTries(env, w2, changes, wait, made.Created?, until, due);
    UnderCheckpointPaced(env, w2, changes, wait, made.Created?, until, due);
    ReportsNothingUnstarted(env, w2, changes, wait, made.Created?, until, due);
    var (w', result) := Run(env, w, op, effect, rollback);
    if SaysUnreachable(result) {
      var m: nat :| |w2.log| <= m && LastTry(w'.log, m, until);
      TryIsThere(w'.log, m, until);
      assert w2.log <= w'.log && |w1.log| < |w2.log|;
      assert w'.log[|w1.log|] == w2.log[|w1.log|];
      assert GaveUpLate(w'.log, rollback, |w1.log|, m);
    }
  }

  lemma SomeCommands(op: NetOp, effect: Effect)
    ensures Commands(op, effect) != []
  {}

  /** The first attempt at a checkpoint starts when the lookup is over. */
  lemma AskedOnce(env: Schedule, w: World, op: NetOp, rollback: nat)
    requires w.log == []
    ensures var w1 := Resolve(env, w, op).0;
            var w2 := CreateCheckpoint(env, w1, rollback).0;
            && w1.log <= w2.log && (|w2.log| == |w1.log| ==> w2.cancelled)
            && (forall i :: 0 <= i < |w1.log| ==> !w1.log[i].request.Create?)
            && (|w2.log| > |w1.log| ==> w2.log[|w1.log|].request.Create? && w2.log[|w1.log|].start == w1.clock)
  {
    hide Resolve, CreateCheckpoint;
    ResolveAdds(env, w, op);
    CreateAdds(env, Resolve(env, w, op).0, rollback);
  }

  lemma TryIsThere(log: seq<Event>, m: nat, until: int)
    requires LastTry(log, m, until)
    ensures m < |log|
  {}

  /** A cancelled request has no result. */
  lemma ReportsNothingUnstarted(env: Schedule, w: World, changes: seq<NetworkManager.Change>, wait: nat, made: bool,
                                until: int, due: nat)
    requires changes != []
    ensures w.cancelled ==> UnderCheckpoint(env, w, changes, wait, made, until, due).1.Err?
  {}
}
