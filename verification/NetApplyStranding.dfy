/** `net_apply` cannot strand the device, and exactly how much time that takes. A run may be cut short
    anywhere; what then becomes of the device is NetworkManager's timer's doing alone. */
module NetApplyStranding {
  import opened Wrappers
  import opened NetworkManager
  import opened NetApply
  import opened NetApplySafety

  /** The checkpoint was really destroyed, after a good platform check, within the first `n` events. */
  ghost predicate KeptBy(log: seq<Event>, n: nat)
    requires n <= |log|
  {
    exists k, j :: 0 <= k < j < n && log[k].request.PlatformCheck? && log[k].good
                   && log[j].request.Destroy? && log[j].took
  }

  /** Left alone just before or just after this event, the device ends up as `base`. */
  predicate Restores(e: Event, base: Config) {
    Settled(e.before) == base && Settled(e.after) == base
  }

  ghost predicate NeverStranded(log: seq<Event>, base: Config) {
    forall i :: 0 <= i < |log| ==> Restores(log[i], base) || KeptBy(log, i + 1)
  }

  /** What that means for a program that dies after event `i`, or between it and the next: once the
      timer is past, the device has its old configuration, at every later time. */
  lemma CutShort(log: seq<Event>, base: Config, i: nat, t: nat)
    requires NeverStranded(log, base) && i < |log| && !KeptBy(log, i + 1)
    requires log[i].after.pending.Some? ==> log[i].after.pending.value.firesAt <= t
    ensures Advance(log[i].after, t) == Nm(base, None)
  {
    hide Advance, Settled;
    SettledIsReached(log[i].after, t);
  }

  /** A program that dies in the middle of a call leaves a tool behind that nobody kills. If its change
      gets through at time `t`, the device still goes back to `base` exactly if the timer has not fired
      by then, or the change makes no difference to `base`. */
  lemma OrphanExactly(nm: Nm, base: Config, change: NetworkManager.Change, t: nat)
    requires Settled(nm) == base && nm.pending.Some?
    ensures var after := Execute(Advance(nm, t), t, Apply(change, 0), 0);
            Settled(after) == base <==> t < nm.pending.value.firesAt || Changed(base, change) == base
  {}

  // ----- Enough time -----

  /** How long after it starts a change can still take effect, or succeed. */
  function Reach(wait: nat): nat {
    Timeout(Apply(Activate, wait))
  }

  /** There is time for the changes: NetworkManager's answer to `CheckpointCreate` coming within
      `replyWithin` of the checkpoint, the first change is over before the timer fires; and so is the
      second, or activating the old profile again changes nothing. */
  predicate EnoughTime(op: NetOp, base: Config, rollback: nat, replyWithin: nat) {
    var reach := Reach(NmcliWait(rollback));
    && replyWithin + reach < 1000 * rollback
    && (|Commands(op, Effect(0, base))| == 1 || base.stored == base.active
        || replyWithin + reach + reach < 1000 * rollback)
  }

  /** Every allowed rollback time leaves room for an answer within ten seconds, which is as long as the
      program waits for it, if the device runs the profile it has stored; from 120 seconds on it need
      not. */
  lemma TenSecondsSuffice(op: NetOp, base: Config, rollback: nat, replyWithin: nat)
    requires ValidRollback(rollback) && replyWithin < 10000
    requires |Commands(op, Effect(0, base))| == 1 || base.stored == base.active || rollback >= 120
    ensures EnoughTime(op, base, rollback, replyWithin)
  {}

  /** In plain numbers: `each` change has nmcli's wait and ten seconds; where a profile is edited and then
      activated there are two. */
  lemma EnoughTimeInNumbers(op: NetOp, base: Config, rollback: nat, replyWithin: nat)
    ensures var wait := if rollback < 30 then 10 else if rollback > 65 then 45 else rollback - 20;
            var each := 1000 * (wait + 10);
            EnoughTime(op, base, rollback, replyWithin) <==>
              && replyWithin + each < 1000 * rollback
              && (op.Ipv4? || op.Dns? || op.Lte? ==>
                    base.stored == base.active || replyWithin + 2 * each < 1000 * rollback)
  {}

  ghost predicate AnsweredWithin(log: seq<Event>, replyWithin: nat) {
    forall i :: 0 <= i < |log| && log[i].request.Create? && log[i].good ==> log[i].end - log[i].at <= replyWithin
  }

  // ----- Steps that keep the device restorable -----

  ghost predicate AllRestore(log: seq<Event>, base: Config) {
    forall i :: 0 <= i < |log| ==> Restores(log[i], base)
  }

  /** The device is restorable, and its checkpoint does not fire before `fires`. */
  ghost predicate Guarded(w: World, base: Config, fires: nat) {
    && Settled(w.nm) == base && AllRestore(w.log, base)
    && (w.nm.pending.Some? ==> w.nm.pending.value.firesAt >= fires)
    && (w.nm.pending.None? ==> w.clock >= fires)
  }

  lemma EventRestores(w: World, request: Request, r: Reply, base: Config)
    requires Settled(w.nm) == base
    requires var e := CallEvent(w, request, r);
             || !e.took
             || (!request.Destroy? && !request.Apply?)
             || (request.Apply? && (e.before.pending.Some? || Changed(base, request.change) == base))
    ensures Restores(CallEvent(w, request, r), base)
  {
    hide Execute;
    var e := CallEvent(w, request, r);
    if e.took {
      ExecuteSettles(e.before, e.at, request, r.late);
    }
  }

  lemma CallRestores(env: Schedule, w: World, request: Request, base: Config)
    requires Settled(w.nm) == base && AllRestore(w.log, base)
    requires !request.Destroy? && !request.Apply?
    ensures var w' := Call(env, w, request).0; Settled(w'.nm) == base && AllRestore(w'.log, base)
  {}

  lemma RestoresIs(e: Event, base: Config)
    requires Restores(e, base)
    ensures Settled(e.after) == base
  {}

  /** The changes all get through in time, or make no difference to `base`. */
  predicate Fits(changes: seq<NetworkManager.Change>, base: Config, clock: nat, fires: nat, reach: nat) {
    changes == []
    || ((clock + reach < fires || Changed(base, changes[0]) == base)
        && Fits(changes[1..], base, clock + reach, fires, reach))
  }

  lemma {:induction false} FitsEarlier(changes: seq<NetworkManager.Change>, base: Config, clock: nat, later: nat,
                                       fires: nat, reach: nat)
    requires Fits(changes, base, later, fires, reach) && clock <= later
    ensures Fits(changes, base, clock, fires, reach)
    decreases |changes|
  {
    if changes != [] {
      FitsEarlier(changes[1..], base, clock + reach, later + reach, fires, reach);
    }
  }

  lemma ChangeGuarded(env: Schedule, w: World, change: NetworkManager.Change, wait: nat, base: Config, fires: nat)
    requires Guarded(w, base, fires) && !w.cancelled
    requires w.clock + Reach(wait) < fires || Changed(base, change) == base
    ensures var (w', a) := Call(env, w, Apply(change, wait));
            && Guarded(w', base, fires)
            && (a.Good? ==> w'.clock <= w.clock + Reach(wait))
  {}

  lemma {:induction false} ApplyGuarded(env: Schedule, w: World, changes: seq<NetworkManager.Change>, wait: nat,
                                        base: Config, fires: nat)
    requires Guarded(w, base, fires) && Fits(changes, base, w.clock, fires, Reach(wait))
    ensures Guarded(ApplyAll(env, w, changes, wait).0, base, fires)
    decreases |changes|
  {
    hide Guarded, Reach;
    if changes != [] && !w.cancelled {
      var (w1, a) := Call(env, w, Apply(changes[0], wait));
      ChangeGuarded(env, w, changes[0], wait, base, fires);
      if a.Good? {
        FitsEarlier(changes[1..], base, w1.clock, w.clock + Reach(wait), fires, Reach(wait));
        ApplyGuarded(env, w1, changes[1..], wait, base, fires);
      }
    }
  }

  ghost predicate Restorable(w: World, base: Config) {
    Settled(w.nm) == base && AllRestore(w.log, base)
  }

  lemma SleepRestorable(env: Schedule, w: World, duration: nat, base: Config)
    requires Restorable(w, base)
    ensures Restorable(Sleep(env, w, duration), base)
  {}

  lemma {:induction false} PollRestorable(env: Schedule, w: World, until: int, base: Config)
    requires Restorable(w, base)
    ensures Restorable(Poll(env, w, until).0, base)
    decreases Left(w, until)
  {
    var (w1, a) := Call(env, w, PlatformCheck);
    CallRestores(env, w, PlatformCheck, base);
    if !a.Good? && !w1.cancelled && w1.clock + VERIFY_POLL < until {
      PollRestorable(env, Sleep(env, w1, VERIFY_POLL), until, base);
    }
  }

  lemma AwaitRestorable(env: Schedule, w: World, rollbackBy: nat, base: Config)
    requires Restorable(w, base)
    ensures Restorable(AwaitRollback(env, w, rollbackBy).0, base)
  {
    hide Call, Sleep;
    var wait := if rollbackBy > w.clock then rollbackBy - w.clock else 0;
    SleepRestorable(env, w, wait, base);
    var w1 := Sleep(env, w, wait);
    CallRestores(env, w1, ListPending, base);
    CallRestores(env, Call(env, w1, ListPending).0, Rollback, base);
  }

  lemma RestorableIsSafe(w: World, base: Config)
    requires Restorable(w, base)
    ensures NeverStranded(w.log, base)
  {}

  /** Destroying the checkpoint: it takes effect, and what follows is kept, or it changes nothing. */
  lemma DestroyIsSafe(env: Schedule, w: World, rollbackBy: nat, base: Config)
    requires Restorable(w, base) && !w.cancelled
    requires |w.log| > 0 && w.log[|w.log| - 1].request.PlatformCheck? && w.log[|w.log| - 1].good
    ensures var (w1, a) := Call(env, w, Destroy);
            && NeverStranded(w1.log, base)
            && NeverStranded(AwaitRollback(env, w1, rollbackBy).0.log, base)
            && (!w1.log[|w.log|].took ==> Restorable(w1, base))
  {
    hide CallEvent, AwaitRollback, Restores, Settled;
    var n := |w.log|;
    var e := CallEvent(w, Destroy, env(w.calls));
    var w1 := Call(env, w, Destroy).0;
    CallIs(env, w, Destroy);
    if e.took {
      AwaitAdds(env, w1, rollbackBy);
      KeptFrom(w1.log, n, base);
      KeptFrom(AwaitRollback(env, w1, rollbackBy).0.log, n, base);
    } else {
      EventRestores(w, Destroy, env(w.calls), base);
      RestoresIs(e, base);
      assert Restorable(w1, base);
      AwaitRestorable(env, w1, rollbackBy, base);
      RestorableIsSafe(AwaitRollback(env, w1, rollbackBy).0, base);
    }
  }

  lemma KeptFrom(log: seq<Event>, n: nat, base: Config)
    requires 0 < n < |log| && AllRestore(log[..n], base)
    requires log[n - 1].request.PlatformCheck? && log[n - 1].good && log[n].request.Destroy? && log[n].took
    ensures NeverStranded(log, base)
  {}

  lemma UnderCheckpointIsSafe(env: Schedule, w: World, changes: seq<NetworkManager.Change>, wait: nat,
                              until: int, rollbackBy: nat, base: Config, fires: nat)
    requires Guarded(w, base, fires) && Fits(changes, base, w.clock, fires, Reach(wait))
    ensures NeverStranded(UnderCheckpoint(env, w, changes, wait, true, until, rollbackBy).0.log, base)
  {
    hide ApplyAll, Poll, AwaitRollback, NeverStranded, AllRestore, Settled, Call, Fits, Reach;
    var (w1, ok) := ApplyAll(env, w, changes, wait);
    ApplyGuarded(env, w, changes, wait, base, fires);
    assert Restorable(w1, base);
    RestorableIsSafe(w1, base);
    if !ok {
      var w2 := Call(env, w1, Rollback).0;
      CallRestores(env, w1, Rollback, base);
      RestorableIsSafe(w2, base);
      AwaitRestorable(env, w2, rollbackBy, base);
      RestorableIsSafe(AwaitRollback(env, w2, rollbackBy).0, base);
    } else {
      var (w2, reachable) := Verify(env, w1, until);
      PollRestorable(env, w1, until, base);
      RestorableIsSafe(w2, base);
      if !w2.cancelled {
        if reachable {
          VerifyAdds(env, w1, until);
          DestroyIsSafe(env, w2, rollbackBy, base);
        } else {
          AwaitRestorable(env, w2, rollbackBy, base);
          RestorableIsSafe(AwaitRollback(env, w2, rollbackBy).0, base);
        }
      }
    }
  }

  lemma CreateOnceGuards(env: Schedule, w: World, rollback: nat, base: Config)
    requires Restorable(w, base)
    ensures var (w', a) := Call(env, w, Create(rollback));
            && Restorable(w', base)
            && (a.Good? ==>
                  && |w'.log| == |w.log| + 1 && w'.log[|w.log|].request.Create? && w'.log[|w.log|].good
                  && w'.clock == w'.log[|w.log|].end
                  && Guarded(w', base, w'.log[|w.log|].at + 1000 * rollback))
  {}

  lemma CreateGuards(env: Schedule, w: World, rollback: nat, base: Config)
    requires Restorable(w, base)
    ensures var (w', made) := CreateCheckpoint(env, w, rollback);
            && Restorable(w', base)
            && (made.Created? ==>
                  && |w'.log| > 0 && w'.log[|w'.log| - 1].request.Create? && w'.log[|w'.log| - 1].good
                  && w'.clock == w'.log[|w'.log| - 1].end
                  && Guarded(w', base, w'.log[|w'.log| - 1].at + 1000 * rollback))
  {
    hide CallEvent, Restorable, Guarded;
    CreateOnceGuards(env, w, rollback, base);
    CreateOnceGuards(env, Call(env, w, Create(rollback)).0, rollback, base);
  }

  lemma CommandsFit(op: NetOp, effect: Effect, base: Config, rollback: nat, replyWithin: nat, at: nat, clock: nat)
    requires EnoughTime(op, base, rollback, replyWithin) && clock <= at + replyWithin
    ensures Fits(Commands(op, effect), base, clock, at + 1000 * rollback, Reach(NmcliWait(rollback)))
  {}

  /** The run is under a checkpoint if it gets to making changes at all. */
  ghost predicate UnderGuard(env: Schedule, w: World, op: NetOp, rollback: nat) {
    !Harmless(op) || CreateCheckpoint(env, Resolve(env, w, op).0, rollback).1.Created?
  }

  /** With enough time, no schedule of results, delays and cancellations strands the device, wherever
      the run is cut short: it goes back to the configuration it would have had without the run, or
      its checkpoint was destroyed after the platform had answered. */
  lemma NoStranding(env: Schedule, w: World, op: NetOp, effect: Effect, rollback: nat, replyWithin: nat)
    requires w.log == [] && UnderGuard(env, w, op, rollback)
    requires EnoughTime(op, Settled(w.nm), rollback, replyWithin)
    requires AnsweredWithin(Run(env, w, op, effect, rollback).0.log, replyWithin)
    ensures NeverStranded(Run(env, w, op, effect, rollback).0.log, Settled(w.nm))
  {
    hide UnderCheckpoint, CreateCheckpoint, Call, NeverStranded, Fits, EnoughTime, Guarded, NmcliWait, Settled;
    var base := Settled(w.nm);
    var log := Run(env, w, op, effect, rollback).0.log;
    assert Restorable(w, base);
    CallRestores(env, w, Lookup, base);
    var (w1, failed) := Resolve(env, w, op);
    RestorableIsSafe(w1, base);
    if failed.None? {
      var (w2, made) := CreateCheckpoint(env, w1, rollback);
      CreateGuards(env, w1, rollback, base);
      RestorableIsSafe(w2, base);
      if made.Created? {
        var e := w2.log[|w2.log| - 1];
        var a, v := UnderCheckpointShape(env, w2, Commands(op, effect), NmcliWait(rollback), true,
                                         Until(w1, rollback), By(w2, rollback));
        assert e == log[|w2.log| - 1];
        CommandsFit(op, effect, base, rollback, replyWithin, e.at, w2.clock);
        UnderCheckpointIsSafe(env, w2, Commands(op, effect), NmcliWait(rollback),
                              Until(w1, rollback), By(w2, rollback), base, e.at + 1000 * rollback);
      }
    }
  }

  // ----- Less time is not enough -----

  /** Everything goes well, but the answer to `CheckpointCreate` takes `replyWithin` and each later
      request gets through only after `reach`. */
  function SlowSchedule(creates: nat, replyWithin: nat, reach: nat): Schedule {
    (n: nat) =>
      if n < creates then Reply(true, 0, true, 0, true, true, 0, false)
      else if n == creates then Reply(true, 0, true, replyWithin, true, true, 0, false)
      else Reply(true, reach, true, 0, true, true, 0, false)
  }

  lemma SlowCreate(w: World, op: NetOp, rollback: nat, replyWithin: nat, reach: nat) returns (creates: nat)
    requires w.log == [] && !w.cancelled && w.nm.pending.None? && w.calls == 0
    requires replyWithin <= TOOL_TIMEOUT
    ensures var env := SlowSchedule(creates, replyWithin, reach);
            var (w1, failed) := Resolve(env, w, op);
            var (w2, made) := CreateCheckpoint(env, w1, rollback);
            && failed.None? && made.Created? && !w2.cancelled
            && w2.nm == Nm(w.nm.config, Some(Checkpoint(w.nm.config, w.clock + 1000 * rollback)))
            && w2.clock == w.clock + replyWithin && w2.calls == creates + 1 && |w2.log| == creates + 1
            && (forall i :: 0 <= i < |w2.log| ==> !w2.log[i].request.Destroy?)
            && AnsweredWithin(w2.log, replyWithin)
  {
    creates := if NeedsLookup(op) then 1 else 0;
  }

  /** A change asked of a slow tool can be carried out, and succeed, just as the tool's time is up. */
  lemma SlowChange(env: Schedule, w: World, change: NetworkManager.Change, wait: nat)
    requires !w.cancelled && wait <= 45
    requires env(w.calls) == Reply(true, Reach(wait), true, 0, true, true, 0, false)
    ensures var (w', a) := Call(env, w, Apply(change, wait));
            var before := Advance(w.nm, w.clock + Reach(wait));
            && a.Good? && w'.clock == w.clock + Reach(wait) && !w'.cancelled && w'.calls == w.calls + 1
            && w'.nm == before.(config := Changed(before.config, change))
            && |w'.log| == |w.log| + 1 && w.log <= w'.log && w'.log[|w.log|].after == w'.nm
            && w'.log[|w.log|].request.Apply?
  {}

  lemma StrandedAt(log: seq<Event>, base: Config, i: nat)
    requires i < |log| && Settled(log[i].after) != base
    requires forall k :: 0 <= k <= i ==> !log[k].request.Destroy?
    ensures !NeverStranded(log, base)
  {}

  lemma SlowChangesStrand(env: Schedule, w: World, op: NetOp, effect: Effect, base: Config, rollback: nat,
                          replyWithin: nat, fires: nat)
    requires !w.cancelled && !EnoughTime(op, base, rollback, replyWithin)
    requires w.nm == Nm(base, Some(Checkpoint(base, fires))) && w.clock + 1000 * rollback == fires + replyWithin
    requires forall n: nat :: n >= w.calls ==>
             env(n) == Reply(true, Reach(NmcliWait(rollback)), true, 0, true, true, 0, false)
    requires forall k :: 0 <= k < |w.log| ==> !w.log[k].request.Destroy?
    requires effect.config != base && effect.stored != base.stored
    ensures !NeverStranded(ApplyAll(env, w, Commands(op, effect), NmcliWait(rollback)).0.log, base)
  {
    hide Call, Reach;
    var wait := NmcliWait(rollback);
    var changes := Commands(op, effect);
    var (w1, a) := Call(env, w, Apply(changes[0], wait));
    SlowChange(env, w, changes[0], wait);
    ApplyAdds(env, w1, changes[1..], wait);
    var w' := ApplyAll(env, w, changes, wait).0;
    var n := |w.log|;
    if replyWithin + Reach(wait) >= 1000 * rollback {
      assert w'.log[n].after == w1.nm;
      StrandedAt(w'.log, base, n);
    } else {
      assert changes[1..] == [Activate] && changes[1..][1..] == [];
      var w2 := Call(env, w1, Apply(Activate, wait)).0;
      SlowChange(env, w1, Activate, wait);
      assert ApplyAll(env, w2, changes[1..][1..], wait).0 == w2;
      assert w'.log[n + 1].after == w2.nm;
      StrandedAt(w'.log, base, n + 1);
    }
  }

  /** Take away the time, and there is a schedule, with the answer as prompt as required, that does
      strand a device with no checkpoint pending. */
  lemma TooLittleTimeStrands(w: World, op: NetOp, rollback: nat, replyWithin: nat)
    returns (env: Schedule, effect: Effect)
    requires w.log == [] && !w.cancelled && w.nm.pending.None? && w.calls == 0
    requires replyWithin <= TOOL_TIMEOUT
    requires !EnoughTime(op, Settled(w.nm), rollback, replyWithin)
    ensures UnderGuard(env, w, op, rollback)
    ensures AnsweredWithin(Run(env, w, op, effect, rollback).0.log, replyWithin)
    ensures !NeverStranded(Run(env, w, op, effect, rollback).0.log, Settled(w.nm))
  {
    hide UnderCheckpoint, CreateCheckpoint, EnoughTime, NeverStranded, ApplyAll, Resolve, NmcliWait, CallEvent;
    var base := w.nm.config;
    effect := Effect(base.stored + 1, Config(base.stored + 1, base.active));
    var reach := Reach(NmcliWait(rollback));
    var creates := SlowCreate(w, op, rollback, replyWithin, reach);
    env := SlowSchedule(creates, replyWithin, reach);
    var w1 := Resolve(env, w, op).0;
    var w2 := CreateCheckpoint(env, w1, rollback).0;
    SlowChangesStrand(env, w2, op, effect, base, rollback, replyWithin, w.clock + 1000 * rollback);
    var w3 := ApplyAll(env, w2, Commands(op, effect), NmcliWait(rollback)).0;
    var log := Run(env, w, op, effect, rollback).0.log;
    ApplyFirst(env, w2, Commands(op, effect), NmcliWait(rollback), true, Until(w1, rollback), By(w2, rollback));
    assert w3.log <= log;
    if NeverStranded(log, base) {
      SafePrefix(w3.log, log, base);
    }
    var a, v := UnderCheckpointShape(env, w2, Commands(op, effect), NmcliWait(rollback), true,
                                     Until(w1, rollback), By(w2, rollback));
    NoMoreCreates(w2.log, log, a, v, true, |Commands(op, effect)|, Until(w1, rollback), By(w2, rollback));
  }

  lemma ApplyFirst(env: Schedule, w: World, changes: seq<NetworkManager.Change>, wait: nat, made: bool, until: int,
                   rollbackBy: nat)
    ensures ApplyAll(env, w, changes, wait).0.log
         <= UnderCheckpoint(env, w, changes, wait, made, until, rollbackBy).0.log
  {
    hide ApplyAll, Verify, AwaitRollback, CallEvent;
    var (w1, ok) := ApplyAll(env, w, changes, wait);
    if ok {
      VerifyAdds(env, w1, until);
      var w2 := Verify(env, w1, until).0;
      AwaitAdds(env, w2, rollbackBy);
      AwaitAdds(env, Call(env, w2, Destroy).0, rollbackBy);
    } else {
      AwaitAdds(env, Call(env, w1, Rollback).0, rollbackBy);
    }
  }

  lemma SafePrefix(l: seq<Event>, l': seq<Event>, base: Config)
    requires l <= l' && NeverStranded(l', base)
    ensures NeverStranded(l, base)
  {}

  lemma NoMoreCreates(l: seq<Event>, l': seq<Event>, a: nat, v: nat, made: bool, changes: nat, until: int,
                      rollbackBy: nat)
    requires l <= l' && Shape(l', |l|, a, v, made, changes, until, rollbackBy)
    ensures forall i :: |l| <= i < |l'| ==> !l'[i].request.Create?
  {
    EndKinds(l', |l|, a, v, rollbackBy);
  }

  /** So it is exactly `EnoughTime`: for an operation on a device with no checkpoint pending, all runs
      whose answer to `CheckpointCreate` comes within `replyWithin` leave it restorable if and only if
      there is enough time in that sense. */
  lemma StrandingExactly(w: World, op: NetOp, rollback: nat, replyWithin: nat)
    requires w.log == [] && !w.cancelled && w.nm.pending.None? && w.calls == 0
    requires replyWithin <= TOOL_TIMEOUT
    ensures EnoughTime(op, Settled(w.nm), rollback, replyWithin) <==>
              forall env: Schedule, effect: Effect ::
                UnderGuard(env, w, op, rollback)
                && AnsweredWithin(Run(env, w, op, effect, rollback).0.log, replyWithin) ==>
                  NeverStranded(Run(env, w, op, effect, rollback).0.log, Settled(w.nm))
  {
    hide Run, EnoughTime, NeverStranded, AnsweredWithin, UnderGuard;
    if EnoughTime(op, Settled(w.nm), rollback, replyWithin) {
      forall env: Schedule, effect: Effect |
          UnderGuard(env, w, op, rollback) && AnsweredWithin(Run(env, w, op, effect, rollback).0.log, replyWithin)
        ensures NeverStranded(Run(env, w, op, effect, rollback).0.log, Settled(w.nm))
      {
        NoStranding(env, w, op, effect, rollback, replyWithin);
      }
    } else {
      var env, effect := TooLittleTimeStrands(w, op, rollback, replyWithin);
    }
  }

  // ----- One run after another -----

  /** One request: when it came, what it asked, how it went, and after how many tool calls the program
      was cut short, if it did not get to the end. */
  datatype Job = Job(clock: nat, op: NetOp, effect: Effect, rollback: nat, env: Schedule, cut: nat)

  function JobLog(nm: Nm, job: Job): seq<Event> {
    var log := Run(job.env, World(job.clock, nm, false, 0, [], None), job.op, job.effect, job.rollback).0.log;
    if job.cut < |log| then log[..job.cut] else log
  }

  function NmAfter(nm: Nm, log: seq<Event>): Nm {
    if log == [] then nm else log[|log| - 1].after
  }

  /** A job with enough time and a prompt answer whose checkpoint was not destroyed. */
  ghost predicate Undone(nm: Nm, job: Job, base: Config, replyWithin: nat) {
    var w := World(job.clock, nm, false, 0, [], None);
    && UnderGuard(job.env, w, job.op, job.rollback)
    && EnoughTime(job.op, base, job.rollback, replyWithin)
    && AnsweredWithin(Run(job.env, w, job.op, job.effect, job.rollback).0.log, replyWithin)
    && !KeptBy(JobLog(nm, job), |JobLog(nm, job)|)
  }

  ghost predicate AllUndone(nm: Nm, jobs: seq<Job>, base: Config, replyWithin: nat)
    decreases |jobs|
  {
    || jobs == []
    || (Undone(nm, jobs[0], base, replyWithin)
        && AllUndone(NmAfter(nm, JobLog(nm, jobs[0])), jobs[1..], base, replyWithin))
  }

  function NmAfterAll(nm: Nm, jobs: seq<Job>): Nm
    decreases |jobs|
  {
    if jobs == [] then nm else NmAfterAll(NmAfter(nm, JobLog(nm, jobs[0])), jobs[1..])
  }

  lemma JobRestores(nm: Nm, job: Job, base: Config, replyWithin: nat)
    requires Settled(nm) == base && Undone(nm, job, base, replyWithin)
    ensures Settled(NmAfter(nm, JobLog(nm, job))) == base
  {
    hide Run, EnoughTime, UnderGuard, AnsweredWithin;
    var w := World(job.clock, nm, false, 0, [], None);
    var log := Run(job.env, w, job.op, job.effect, job.rollback).0.log;
    NoStranding(job.env, w, job.op, job.effect, job.rollback, replyWithin);
    var part := JobLog(nm, job);
    SafePrefix(part, log, base);
  }

  /** Any number of requests one after another, each stopped anywhere, even while the checkpoint of the
      one before is still pending: as long as none had its checkpoint destroyed, the device ends up
      with the configuration it started from. */
  lemma {:induction false} RunsInARow(nm: Nm, jobs: seq<Job>, base: Config, replyWithin: nat)
    requires Settled(nm) == base && AllUndone(nm, jobs, base, replyWithin)
    ensures Settled(NmAfterAll(nm, jobs)) == base
    decreases |jobs|
  {
    hide Undone, JobLog, NmAfter, Settled;
    if jobs != [] {
      JobRestores(nm, jobs[0], base, replyWithin);
      RunsInARow(NmAfter(nm, JobLog(nm, jobs[0])), jobs[1..], base, replyWithin);
    }
  }
}
